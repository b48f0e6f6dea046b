/**
 The animation record (SheetKit/Model/Animation.swift): its fields and memberwise
 initializer, the slide-crop that turns it into frames, and its keyed coding.
 */
module Animations {
  import opened Wrappers
  import opened Cocoa

  // Coding keys, one per stored value.
  const NameKey: string := "animation_name"
  const WidthKey: string := "animation_size_width"
  const HeightKey: string := "animation_size_height"
  const CountKey: string := "animation_count"
  const RowKey: string := "animation_y_offset"
  const ColumnKey: string := "animation_x_offset"
  const SpeedKey: string := "animation_frame_speed"

  const CodingKeys: set<string> := {NameKey, WidthKey, HeightKey, CountKey, RowKey, ColumnKey, SpeedKey}

  /** Seconds per frame used when none (or zero) is given. */
  const DefaultSpeed: real := 0.07

  /** The localized placeholder name, an opaque string here. */
  const DefaultName: string := "def_aname"

  /** One named run of equally sized frames in a row of the sheet. */
  datatype Animation = Animation(name: string, size: Size, count: int, row: int, column: int, speed: real)

  /** `init(name:size:count:row:column:speed:)`: every argument is stored as given. */
  function Make(name: string, size: Size, count: int, row: int, column: int := 0, speed: real := DefaultSpeed): (a: Animation)
    ensures a.name == name && a.size == size && a.count == count
    ensures a.row == row && a.column == column && a.speed == speed
  {
    Animation(name, size, count, row, column, speed)
  }

  // ---------------------------------------------------------------------------
  // Frame geometry and extraction

  /** A cropped frame wrapped as an image of the animation's frame size (`toImage(size:)`). */
  datatype Frame = Frame(raster: Raster, size: Size)

  /** The crop rectangle of frame `i`: the row fixes y, the column and `i` give x. */
  function FrameRect(a: Animation, i: int): (r: Rect)
    ensures r.size == a.size
    ensures r.origin.y == a.row as real * a.size.height
    ensures r.origin.x == (a.column + i) as real * a.size.width
  {
    Rect(Point(a.column as real * a.size.width + a.size.width * i as real,
               a.size.height * a.row as real),
         a.size)
  }

  /** The frames the first `n` crop attempts yield: only the successful crops, in index order. */
  function Cropped(a: Animation, sheet: Raster, crop: Cropper, n: nat): (r: seq<Frame>)
    ensures |r| <= n
    ensures forall j :: 0 <= j < |r| ==> r[j].size == a.size
  {
    if n == 0 then []
    else
      var done := Cropped(a, sheet, crop, n - 1);
      match crop(sheet, FrameRect(a, n - 1))
      case None => done
      case Some(p) => done + [Frame(p, a.size)]
  }

  /** The indices among the first `n` whose crop succeeds, ascending. */
  function Hits(a: Animation, sheet: Raster, crop: Cropper, n: nat): seq<nat>
  {
    if n == 0 then []
    else Hits(a, sheet, crop, n - 1) + (if crop(sheet, FrameRect(a, n - 1)).Some? then [n - 1] else [])
  }

  /**
   `makeImages(from:)`: an empty result when the sheet has no bitmap; otherwise one crop
   per index in `0 ..< count`, failed crops skipped.
   */
  method MakeImages(a: Animation, sheet: Image, crop: Cropper) returns (images: seq<Frame>)
    // `0 ..< count` traps on a negative count, which `Decode` passes through from a stored record
    requires sheet.cgImage.Some? ==> a.count >= 0
    ensures sheet.cgImage.None? ==> images == []
    ensures sheet.cgImage.Some? ==> images == Cropped(a, sheet.cgImage.value, crop, a.count)
    ensures |images| <= a.count || images == []
    ensures forall j :: 0 <= j < |images| ==> images[j].size == a.size
  {
    if sheet.cgImage.None? {
      return [];
    }
    var bitmap := sheet.cgImage.value;
    images := [];
    for i := 0 to a.count
      invariant images == Cropped(a, bitmap, crop, i)
    {
      var rect := FrameRect(a, i);
      var photo := crop(bitmap, rect);
      if photo.None? {
        continue;
      }
      images := images + [Frame(photo.value, a.size)];
    }
  }

  /**
   The output is exactly the successful crops in ascending index order: frame `j` of the
   result is the crop of rectangle `Hits[j]`, the hit indices increase strictly, and every
   index whose crop succeeds is among them.
   */
  lemma {:induction false} CroppedAreHits(a: Animation, sheet: Raster, crop: Cropper, n: nat)
    ensures |Cropped(a, sheet, crop, n)| == |Hits(a, sheet, crop, n)|
    ensures forall j :: 0 <= j < |Hits(a, sheet, crop, n)| ==>
              var i := Hits(a, sheet, crop, n)[j];
              i < n && crop(sheet, FrameRect(a, i)).Some? &&
              Cropped(a, sheet, crop, n)[j] == Frame(crop(sheet, FrameRect(a, i)).value, a.size)
    ensures forall j, k :: 0 <= j < k < |Hits(a, sheet, crop, n)| ==>
              Hits(a, sheet, crop, n)[j] < Hits(a, sheet, crop, n)[k]
    ensures forall i :: 0 <= i < n && crop(sheet, FrameRect(a, i)).Some? ==> i in Hits(a, sheet, crop, n)
  {
    if n > 0 {
      CroppedAreHits(a, sheet, crop, n - 1);
    }
  }

  /** The result has exactly `n` frames if and only if every one of the `n` crops succeeds. */
  lemma {:induction false} AllCropsSucceed(a: Animation, sheet: Raster, crop: Cropper, n: nat)
    ensures |Cropped(a, sheet, crop, n)| == n <==>
            forall i :: 0 <= i < n ==> crop(sheet, FrameRect(a, i)).Some?
  {
    if n > 0 {
      AllCropsSucceed(a, sheet, crop, n - 1);
      var rest := Cropped(a, sheet, crop, n - 1);
      if crop(sheet, FrameRect(a, n - 1)).None? {
        assert |Cropped(a, sheet, crop, n)| == |rest| <= n - 1;
      }
    }
  }

  /** Failed crops add nothing: if every index in `[m, n)` fails, the first `n` attempts yield what the first `m` do. */
  lemma {:induction false} FailuresAddNothing(a: Animation, sheet: Raster, crop: Cropper, m: nat, n: nat)
    requires m <= n
    requires forall i :: m <= i < n ==> crop(sheet, FrameRect(a, i)).None?
    ensures Cropped(a, sheet, crop, n) == Cropped(a, sheet, crop, m)
  {
    if m < n {
      FailuresAddNothing(a, sheet, crop, m, n - 1);
    }
  }

  /** All rectangles share the row's y, have the frame size, and are one frame width apart per index. */
  lemma FrameRectGeometry(a: Animation, i: int, j: int)
    ensures FrameRect(a, i).origin.y == FrameRect(a, j).origin.y == a.row as real * a.size.height
    ensures FrameRect(a, i).size == a.size
    ensures FrameRect(a, j).origin.x - FrameRect(a, i).origin.x == (j - i) as real * a.size.width
    ensures FrameRect(a, 0).origin.x == a.column as real * a.size.width
  {
  }

  /** The slot starting `i` frames of width `w` after `c` frames fits below `limit >= (c + k) * w` when `i < k`. */
  lemma SlotFits(w: real, c: real, i: real, k: real, limit: real)
    requires 0.0 <= w && 0.0 <= c && 0.0 <= i && i + 1.0 <= k
    requires (c + k) * w <= limit
    ensures 0.0 <= c * w + w * i
    ensures c * w + w * i + w <= limit
  {
    MulNonneg(c, w);
    MulNonneg(w, i);
    MulNonneg(k - i - 1.0, w);
    assert c * w + w * i + w + (k - i - 1.0) * w == (c + k) * w;
  }

  /** The slot starting `i >= k` frames of width `w` after `c` frames starts at or past `(c + k) * w`. */
  lemma SlotPastEdge(w: real, c: real, i: real, k: real, limit: real)
    requires 0.0 <= w && k <= i && limit == (c + k) * w
    ensures limit <= c * w + w * i
  {
    MulNonneg(i - k, w);
    assert c * w + w * i == (c + k) * w + (i - k) * w;
  }

  lemma MulNonneg(p: real, q: real)
    requires 0.0 <= p && 0.0 <= q
    ensures 0.0 <= p * q
  {
  }


  /**
   On a sheet `(column + k)` frames wide, frame `i` lies inside when `i < k`; when the sheet
   is exactly that wide, frame `i` starts at or past its right edge when `k <= i`.
   */
  lemma FrameInBounds(a: Animation, sheet: Raster, i: nat, k: nat)
    requires 0.0 <= a.size.width && 0.0 <= a.size.height
    requires a.row >= 0 && a.column >= 0
    requires (a.row + 1) as real * a.size.height <= sheet.height as real
    requires (a.column + k) as real * a.size.width <= sheet.width as real
    ensures i < k ==> InBounds(FrameRect(a, i), sheet)
    ensures (a.column + k) as real * a.size.width == sheet.width as real && k <= i
            ==> sheet.width as real <= FrameRect(a, i).origin.x
  {
    var w, h := a.size.width, a.size.height;
    var c, r, x, kk := a.column as real, a.row as real, i as real, k as real;
    assert (a.column + k) as real == c + kk;
    assert (a.row + 1) as real == r + 1.0;
    var rect := FrameRect(a, i);
    assert rect.origin.x == c * w + w * x && rect.origin.y == h * r && rect.size == a.size;
    MulNonneg(h, r);
    if i < k {
      SlotFits(w, c, x, kk, sheet.width as real);
    }
    if k <= i && (a.column + k) as real * w == sheet.width as real {
      SlotPastEdge(w, c, x, kk, sheet.width as real);
    }
  }

  /** Every frame `i < k` lies inside a sheet `(column + k)` frames wide and tall enough for the row. */
  lemma FramesInBounds(a: Animation, sheet: Raster, k: nat)
    requires 0.0 <= a.size.width && 0.0 <= a.size.height
    requires a.row >= 0 && a.column >= 0
    requires (a.row + 1) as real * a.size.height <= sheet.height as real
    requires (a.column + k) as real * a.size.width <= sheet.width as real
    ensures forall i :: 0 <= i < k ==> InBounds(FrameRect(a, i), sheet)
  {
    forall i | 0 <= i < k
      ensures InBounds(FrameRect(a, i), sheet)
    {
      FrameInBounds(a, sheet, i, k);
    }
  }

  /**
   A sheet large enough for every frame yields exactly `count` frames, frame `i` being
   the crop of rectangle `i`, provided cropping succeeds inside the bounds.
   */
  lemma FramesOfLargeSheet(a: Animation, sheet: Raster, crop: Cropper)
    requires CropsInBounds(crop)
    requires 0.0 < a.size.width && 0.0 < a.size.height
    requires a.count >= 0 && a.row >= 0 && a.column >= 0
    requires (a.row + 1) as real * a.size.height <= sheet.height as real
    requires (a.column + a.count) as real * a.size.width <= sheet.width as real
    ensures |Cropped(a, sheet, crop, a.count)| == a.count
    ensures forall i :: 0 <= i < a.count ==>
              crop(sheet, FrameRect(a, i)).Some? &&
              Cropped(a, sheet, crop, a.count)[i] == Frame(crop(sheet, FrameRect(a, i)).value, a.size)
  {
    FramesInBounds(a, sheet, a.count);
    AllCropsSucceed(a, sheet, crop, a.count);
    CroppedAreHits(a, sheet, crop, a.count);
    HitsAllWhenAllSucceed(a, sheet, crop, a.count);
  }

  lemma {:induction false} HitsAllWhenAllSucceed(a: Animation, sheet: Raster, crop: Cropper, n: nat)
    requires forall i :: 0 <= i < n ==> crop(sheet, FrameRect(a, i)).Some?
    ensures |Hits(a, sheet, crop, n)| == n
    ensures forall i :: 0 <= i < n ==> Hits(a, sheet, crop, n)[i] == i
  {
    if n > 0 {
      HitsAllWhenAllSucceed(a, sheet, crop, n - 1);
    }
  }

  /**
   A sheet exactly `column + k` frames wide, with `k <= count`, yields exactly the first
   `k` frames: truncation, never padding. Cropping must succeed inside the bounds and fail
   on rectangles starting past the right edge, as a primitive that clips does.
   */
  lemma FramesOfNarrowSheet(a: Animation, sheet: Raster, crop: Cropper, k: nat)
    requires CropsInBounds(crop) && CropsFailPastRightEdge(crop)
    requires 0.0 < a.size.width && 0.0 < a.size.height
    requires a.row >= 0 && a.column >= 0 && k <= a.count
    requires (a.row + 1) as real * a.size.height <= sheet.height as real
    requires (a.column + k) as real * a.size.width == sheet.width as real
    ensures Cropped(a, sheet, crop, a.count) == Cropped(a, sheet, crop, k)
    ensures |Cropped(a, sheet, crop, a.count)| == k
  {
    forall i | k <= i < a.count
      ensures crop(sheet, FrameRect(a, i)).None?
    {
      FrameInBounds(a, sheet, i, k);
    }
    FramesInBounds(a, sheet, k);
    FailuresAddNothing(a, sheet, crop, k, a.count);
    AllCropsSucceed(a, sheet, crop, k);
  }

  // ---------------------------------------------------------------------------
  // Keyed coding

  /** A value stored under a key of an `NSCoder`. */
  datatype Value = StringValue(s: string) | FloatValue(f: real) | IntegerValue(n: int)

  /** The keyed container one animation is encoded into. */
  type Coder = map<string, Value>

  /** `encode(with:)`: the six fields under seven distinct keys. */
  function Encode(a: Animation): (c: Coder)
    ensures c.Keys == CodingKeys && |c| == 7
    ensures c[NameKey] == StringValue(a.name) && c[SpeedKey] == FloatValue(a.speed)
  {
    map[NameKey := StringValue(a.name),
        WidthKey := FloatValue(a.size.width),
        HeightKey := FloatValue(a.size.height),
        CountKey := IntegerValue(a.count),
        RowKey := IntegerValue(a.row),
        ColumnKey := IntegerValue(a.column),
        SpeedKey := FloatValue(a.speed)]
  }

  /** `decodeObject(of: NSString.self, forKey:)` with a fallback. */
  function DecodeString(c: Coder, key: string, default: string): (r: string)
    ensures r == default || (key in c && c[key] == StringValue(r))
    ensures key in c && c[key].StringValue? ==> r == c[key].s
    ensures key !in c ==> r == default
  {
    if key in c && c[key].StringValue? then c[key].s else default
  }

  /** `decodeFloat(forKey:)`: 0 when the key holds no float. */
  function DecodeFloat(c: Coder, key: string): (r: real)
    ensures r == 0.0 || (key in c && c[key] == FloatValue(r))
    ensures key in c && c[key].FloatValue? ==> r == c[key].f
    ensures key !in c ==> r == 0.0
  {
    if key in c && c[key].FloatValue? then c[key].f else 0.0
  }

  /** `decodeInteger(forKey:)`: 0 when the key holds no integer. */
  function DecodeInteger(c: Coder, key: string): (r: int)
    ensures r == 0 || (key in c && c[key] == IntegerValue(r))
    ensures key in c && c[key].IntegerValue? ==> r == c[key].n
    ensures key !in c ==> r == 0
  {
    if key in c && c[key].IntegerValue? then c[key].n else 0
  }

  /** `init?(coder:)`: a decoded (or missing) speed of exactly 0 becomes the default speed. */
  function Decode(c: Coder): (a: Animation)
    ensures a.speed != 0.0
    ensures SpeedKey in c && c[SpeedKey].FloatValue? && c[SpeedKey].f != 0.0 ==> a.speed == c[SpeedKey].f
    ensures a.speed < 0.0 <==> SpeedKey in c && c[SpeedKey].FloatValue? && c[SpeedKey].f < 0.0
    ensures SpeedKey !in c ==> a.speed == DefaultSpeed
    ensures !(SpeedKey in c && c[SpeedKey].FloatValue? && c[SpeedKey].f != 0.0) ==> a.speed == DefaultSpeed
    ensures NameKey !in c ==> a.name == DefaultName
    ensures CountKey !in c ==> a.count == 0
  {
    var speed := DecodeFloat(c, SpeedKey);
    Animation(DecodeString(c, NameKey, DefaultName),
              Size(DecodeFloat(c, WidthKey), DecodeFloat(c, HeightKey)),
              DecodeInteger(c, CountKey),
              DecodeInteger(c, RowKey),
              DecodeInteger(c, ColumnKey),
              if speed == 0.0 then DefaultSpeed else speed)
  }

  /** The record as it reads back after coding: speed 0 replaced by the default. */
  function Normalized(a: Animation): (r: Animation)
    ensures r.speed != 0.0
    ensures r.name == a.name && r.size == a.size && r.count == a.count
    ensures r.row == a.row && r.column == a.column
    ensures a.speed == 0.0 ==> r.speed == DefaultSpeed
    ensures a.speed != 0.0 ==> r == a
  {
    a.(speed := if a.speed == 0.0 then DefaultSpeed else a.speed)
  }

  /** Decoding an encoded record gives it back, except that a speed of 0 becomes the default. */
  lemma DecodeEncode(a: Animation)
    ensures Decode(Encode(a)) == Normalized(a)
    ensures a.speed != 0.0 ==> Decode(Encode(a)) == a
  {
  }

  /** Re-encoding a decoded record and decoding again changes nothing. */
  lemma DecodeStable(c: Coder)
    ensures Decode(Encode(Decode(c))) == Decode(c)
  {
    DecodeEncode(Decode(c));
  }

  /** The memberwise initializer keeps a speed of 0; only decoding coerces it. */
  lemma OnlyDecodingCoerces(name: string, size: Size, count: int, row: int, column: int)
    ensures Make(name, size, count, row, column, 0.0).speed == 0.0
    ensures Decode(Encode(Make(name, size, count, row, column, 0.0))).speed == DefaultSpeed
  {
    DecodeEncode(Make(name, size, count, row, column, 0.0));
  }

  /** An animation list encoded one record at a time, in order. */
  function EncodeAll(s: seq<Animation>): (cs: seq<Coder>)
    ensures |cs| == |s|
    ensures forall i :: 0 <= i < |s| ==> cs[i] == Encode(s[i])
  {
    if s == [] then [] else [Encode(s[0])] + EncodeAll(s[1..])
  }

  /** A list of coders decoded one record at a time, in order. */
  function DecodeAll(cs: seq<Coder>): (s: seq<Animation>)
    ensures |s| == |cs|
    ensures forall i :: 0 <= i < |cs| ==> s[i] == Decode(cs[i])
  {
    if cs == [] then [] else [Decode(cs[0])] + DecodeAll(cs[1..])
  }

  /** A list reads back in the same order, every record normalized; unchanged when no speed is 0. */
  lemma DecodeAllEncodeAll(s: seq<Animation>)
    ensures |DecodeAll(EncodeAll(s))| == |s|
    ensures forall i :: 0 <= i < |s| ==> DecodeAll(EncodeAll(s))[i] == Normalized(s[i])
    ensures (forall i :: 0 <= i < |s| ==> s[i].speed != 0.0) ==> DecodeAll(EncodeAll(s)) == s
  {
    forall i | 0 <= i < |s|
      ensures DecodeAll(EncodeAll(s))[i] == Normalized(s[i])
    {
      DecodeEncode(s[i]);
    }
  }
}
