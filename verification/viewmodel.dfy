/**
 The editor's view model (SheetKit/Model/ViewModel.swift): list editing driven by the
 table's selected row, and the inspector popover with the animation it edits.
 */
module ViewModels {
  import opened Wrappers
  import opened Cocoa
  import opened Animations
  import opened Documents

  /** An inspector popover; only its identity matters here. */
  class Popover {
    constructor ()
    {
    }
  }

  /** The record `addAnimation` appends: the initializer's defaults fill column and speed. */
  function NewAnimation(): (a: Animation)
    ensures a.name == "Animation" && a.size == Size(32.0, 32.0) && a.count == 1
    ensures a.row == 0 && a.column == 0 && a.speed == DefaultSpeed
  {
    Make("Animation", Size(32.0, 32.0), 1, 0)
  }

  /** `remove(at:)`: the list without element `i`, the others in their order. */
  function RemoveAt<T>(s: seq<T>, i: nat): (r: seq<T>)
    requires i < |s|
    ensures |r| == |s| - 1
    ensures forall k :: 0 <= k < i ==> r[k] == s[k]
    ensures forall k :: i <= k < |r| ==> r[k] == s[k + 1]
    ensures multiset(r) + multiset{s[i]} == multiset(s)
  {
    assert s == s[..i] + [s[i]] + s[i + 1..];
    s[..i] + s[i + 1..]
  }

  /** Removing the row an append reported gives back the list as it was. */
  lemma RemoveUndoesAppend<T>(s: seq<T>, x: T)
    ensures RemoveAt(s + [x], |s|) == s
  {
    assert (s + [x])[..|s|] == s;
  }

  /** A selected row names an element of the list (the table reports -1 when none is selected). */
  predicate IsRow<T>(row: int, s: seq<T>): (b: bool)
    ensures b ==> 0 <= row && row < |s|
    ensures row == -1 || |s| <= row ==> !b
    ensures |s| == 0 ==> !b
  {
    0 <= row < |s|
  }

  class ViewModel {
    var document: Document
    var selectedAnimation: Option<Animation>
    var popover: Popover?

    constructor (document: Document)
      ensures this.document == document && selectedAnimation == None && popover == null
    {
      this.document := document;
      selectedAnimation := None;
      popover := null;
    }

    /** Assigning `popover`: its `didSet` observer clears the selected animation. */
    method SetPopover(p: Popover?)
      modifies this
      ensures popover == p && selectedAnimation == None && document == old(document)
    {
      popover := p;
      selectedAnimation := None;
    }

    /** `setSpritesheet(photo:)`: the document's sheet becomes the photo, through its observer. */
    method SetSpritesheet(photo: Image)
      modifies document
      ensures document.spritesheet == Some(photo)
      ensures document.entries == WithSheet(old(document.entries), Some(photo))
      ensures document.animations == old(document.animations)
    {
      document.SetSpritesheet(Some(photo));
    }

    /** `addAnimation()`: appends the default record and reports the row it was inserted at. */
    method AddAnimation() returns (row: nat)
      modifies document
      ensures row == |old(document.animations)|
      ensures document.animations == old(document.animations) + [NewAnimation()]
      ensures document.spritesheet == old(document.spritesheet) && document.entries == old(document.entries)
    {
      row := |document.animations|;
      document.animations := document.animations + [NewAnimation()];
    }

    /** `removeAnimation()`: removes the selected row, or does nothing when no row of the list is selected. */
    method RemoveAnimation(selectedRow: int)
      modifies document
      ensures IsRow(selectedRow, old(document.animations)) ==>
                document.animations == RemoveAt(old(document.animations), selectedRow)
      ensures !IsRow(selectedRow, old(document.animations)) ==>
                document.animations == old(document.animations)
      ensures document.spritesheet == old(document.spritesheet) && document.entries == old(document.entries)
    {
      if !IsRow(selectedRow, document.animations) {
        return;
      }
      document.animations := RemoveAt(document.animations, selectedRow);
    }

    /**
     `openInspectorAtSelectedRow()`: for a selected row, a new popover (whose observer clears
     the selection) and then the row's animation selected; otherwise nothing.
     */
    method OpenInspectorAtSelectedRow(selectedRow: int)
      modifies this
      ensures document == old(document)
      ensures !IsRow(selectedRow, document.animations) ==>
                popover == old(popover) && selectedAnimation == old(selectedAnimation)
      ensures IsRow(selectedRow, document.animations) ==>
                && popover != null && fresh(popover)
                && selectedAnimation == Some(document.animations[selectedRow])
    {
      if !IsRow(selectedRow, document.animations) {
        return;
      }
      var p := new Popover();
      SetPopover(p);
      var animation := document.animations[selectedRow];
      selectedAnimation := Some(animation);
    }
  }
}
