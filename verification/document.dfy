/**
 The document (SheetKit/Model/Document.swift): a sprite sheet, an ordered animation list,
 and the directory wrapper they are saved into as two named entries.
 */
module Documents {
  import opened Wrappers
  import opened Cocoa
  import opened Animations

  const SheetEntryName: string := "spritesheet_image.tiff"
  const AnimationsEntryName: string := "spritesheet_animations"

  /** A member of the document's directory wrapper. */
  datatype Entry = RegularFile(contents: Bytes) | Directory

  /** The directory wrapper: its members by file name. */
  type Container = map<string, Entry>

  /** The keyed archiver, as the bytes it makes of the encoded animation list. */
  type Archiver = seq<Coder> -> Bytes

  /** The keyed unarchiver: the encoded list, or nothing when the data is not a list of animations. */
  type Unarchiver = Bytes -> Option<seq<Coder>>

  /** `NSImage(data:)`. */
  type ImageDecoder = Bytes -> Option<Image>

  /**
   The wrapper after the `spritesheet` observer: an image with a TIFF representation
   replaces the sheet entry; anything else leaves the wrapper as it was.
   */
  function WithSheet(entries: Container, sheet: Option<Image>): (r: Container)
    ensures sheet.None? || sheet.value.tiffRepresentation.None? ==> r == entries
    ensures sheet.Some? && sheet.value.tiffRepresentation.Some? ==>
              && r.Keys == entries.Keys + {SheetEntryName}
              && r[SheetEntryName] == RegularFile(sheet.value.tiffRepresentation.value)
    ensures forall k :: k in entries && k != SheetEntryName ==> k in r && r[k] == entries[k]
  {
    if sheet.Some? && sheet.value.tiffRepresentation.Some? then
      entries[SheetEntryName := RegularFile(sheet.value.tiffRepresentation.value)]
    else
      entries
  }

  /** The wrapper after `write`: the animations entry holds the archived list; nothing else changes. */
  function WithAnimations(entries: Container, animations: seq<Animation>, archive: Archiver): (r: Container)
    ensures r.Keys == entries.Keys + {AnimationsEntryName}
    ensures r[AnimationsEntryName] == RegularFile(archive(EncodeAll(animations)))
    ensures forall k :: k in entries && k != AnimationsEntryName ==> k in r && r[k] == entries[k]
  {
    entries[AnimationsEntryName := RegularFile(archive(EncodeAll(animations)))]
  }

  /** What a successful `read` takes from a wrapper. */
  datatype Loaded = Loaded(animations: seq<Animation>, sheet: Image)

  /** The contents of a named regular-file member, if there is one. */
  function FileContents(c: Container, name: string): (r: Option<Bytes>)
    ensures r.Some? <==> name in c && c[name].RegularFile?
  {
    if name in c && c[name].RegularFile? then Some(c[name].contents) else None
  }

  /**
   `read(from:ofType:)`'s guard chain: both entries must be present and decode. The first two
   ensures, a missing member of either kind failing the load, are corollaries of the third.
   */
  function Load(wrapper: Container, unarchive: Unarchiver, decodeImage: ImageDecoder): (r: Option<Loaded>)
    ensures FileContents(wrapper, AnimationsEntryName).None? ==> r.None?
    ensures FileContents(wrapper, SheetEntryName).None? ==> r.None?
    ensures r.Some? <==>
              && FileContents(wrapper, AnimationsEntryName).Some?
              && unarchive(FileContents(wrapper, AnimationsEntryName).value).Some?
              && FileContents(wrapper, SheetEntryName).Some?
              && decodeImage(FileContents(wrapper, SheetEntryName).value).Some?
    ensures r.Some? ==>
              && |r.value.animations| == |unarchive(FileContents(wrapper, AnimationsEntryName).value).value|
              && forall i :: 0 <= i < |r.value.animations| ==> r.value.animations[i].speed != 0.0
  {
    match FileContents(wrapper, AnimationsEntryName)
    case None => None
    case Some(animationsData) =>
      match unarchive(animationsData)
      case None => None
      case Some(objects) =>
        match FileContents(wrapper, SheetEntryName)
        case None => None
        case Some(tiffData) =>
          match decodeImage(tiffData)
          case None => None
          case Some(photo) => Some(Loaded(DecodeAll(objects), photo))
  }

  /** The two entry names differ, so replacing one entry never disturbs the other. */
  lemma EntriesIndependent(entries: Container, sheet: Option<Image>, animations: seq<Animation>, archive: Archiver)
    ensures AnimationsEntryName in entries ==>
              WithSheet(entries, sheet)[AnimationsEntryName] == entries[AnimationsEntryName]
    ensures SheetEntryName in entries ==>
              WithAnimations(entries, animations, archive)[SheetEntryName] == entries[SheetEntryName]
  {
  }

  /**
   Saving and loading: a wrapper whose sheet entry decodes, once written, loads back the
   written list (every speed of 0 read as the default) with the decoded sheet, provided
   the archiver and unarchiver agree on the list.
   */
  lemma WriteThenLoad(entries: Container, animations: seq<Animation>, archive: Archiver,
                      unarchive: Unarchiver, decodeImage: ImageDecoder)
    requires unarchive(archive(EncodeAll(animations))) == Some(EncodeAll(animations))
    requires FileContents(entries, SheetEntryName).Some?
    requires decodeImage(FileContents(entries, SheetEntryName).value).Some?
    ensures var loaded := Load(WithAnimations(entries, animations, archive), unarchive, decodeImage);
            && loaded.Some?
            && loaded.value.sheet == decodeImage(FileContents(entries, SheetEntryName).value).value
            && |loaded.value.animations| == |animations|
            && (forall i :: 0 <= i < |animations| ==> loaded.value.animations[i] == Normalized(animations[i]))
            && ((forall i :: 0 <= i < |animations| ==> animations[i].speed != 0.0) ==> loaded.value.animations == animations)
  {
    var written := WithAnimations(entries, animations, archive);
    assert FileContents(written, SheetEntryName) == FileContents(entries, SheetEntryName);
    DecodeAllEncodeAll(animations);
  }

  /**
   A fresh document given a sheet with a TIFF representation that decodes, then written,
   loads back the written list and the decoded sheet.
   */
  lemma NewDocumentRoundTrip(sheet: Image, animations: seq<Animation>, archive: Archiver,
                             unarchive: Unarchiver, decodeImage: ImageDecoder)
    requires unarchive(archive(EncodeAll(animations))) == Some(EncodeAll(animations))
    requires sheet.tiffRepresentation.Some?
    requires decodeImage(sheet.tiffRepresentation.value).Some?
    ensures var loaded := Load(WithAnimations(WithSheet(map[], Some(sheet)), animations, archive), unarchive, decodeImage);
            && loaded.Some?
            && loaded.value.sheet == decodeImage(sheet.tiffRepresentation.value).value
            && loaded.value.animations == DecodeAll(EncodeAll(animations))
  {
    var entries := WithSheet(map[], Some(sheet));
    assert FileContents(entries, SheetEntryName) == sheet.tiffRepresentation;
    WriteThenLoad(entries, animations, archive, unarchive, decodeImage);
  }

  class Document {
    /** The directory wrapper the document is saved as. */
    var entries: Container
    var spritesheet: Option<Image>
    /** Display and export order. */
    var animations: seq<Animation>

    /** `init()`: an empty directory wrapper, no sheet, no animations. */
    constructor ()
      ensures entries == map[] && spritesheet == None && animations == []
    {
      entries := map[];
      spritesheet := None;
      animations := [];
    }

    /** Assigning `spritesheet`, with its `didSet` observer. */
    method SetSpritesheet(sheet: Option<Image>)
      modifies this
      ensures spritesheet == sheet && animations == old(animations)
      ensures entries == WithSheet(old(entries), sheet)
    {
      spritesheet := sheet;
      if sheet.None? || sheet.value.tiffRepresentation.None? {
        return;
      }
      var file := RegularFile(sheet.value.tiffRepresentation.value);
      if SheetEntryName in entries {
        entries := entries - {SheetEntryName};
      }
      entries := entries[SheetEntryName := file];
    }

    /** `write(to:ofType:for:originalContentsURL:)`, up to the file-system write. */
    method Write(archive: Archiver)
      modifies this`entries
      ensures entries == WithAnimations(old(entries), animations, archive)
    {
      var animationsFile := RegularFile(archive(EncodeAll(animations)));
      if AnimationsEntryName in entries {
        entries := entries - {AnimationsEntryName};
      }
      entries := entries[AnimationsEntryName := animationsFile];
    }

    /**
     `read(from:ofType:)`: all or nothing. Only when both entries are present and decode are
     the sheet, the list and the wrapper replaced; the sheet observer runs on the old wrapper,
     which the wrapper read then replaces.
     */
    method Read(wrapper: Container, unarchive: Unarchiver, decodeImage: ImageDecoder)
      modifies this
      ensures Load(wrapper, unarchive, decodeImage).None? ==>
                entries == old(entries) && spritesheet == old(spritesheet) && animations == old(animations)
      ensures Load(wrapper, unarchive, decodeImage).Some? ==>
                && entries == wrapper
                && spritesheet == Some(Load(wrapper, unarchive, decodeImage).value.sheet)
                && animations == Load(wrapper, unarchive, decodeImage).value.animations
    {
      var animationsData := FileContents(wrapper, AnimationsEntryName);
      if animationsData.None? {
        return;
      }
      var objects := unarchive(animationsData.value);
      if objects.None? {
        return;
      }
      var loadedAnimations := DecodeAll(objects.value);
      var tiffData := FileContents(wrapper, SheetEntryName);
      if tiffData.None? {
        return;
      }
      var photo := decodeImage(tiffData.value);
      if photo.None? {
        return;
      }
      SetSpritesheet(Some(photo.value));
      animations := loadedAnimations;
      entries := wrapper;
    }
  }
}
