# SheetKit core in Dafny

A model of the core of SheetKit, a macOS sprite-sheet editor. A document holds one sprite-sheet
image and an ordered list of animations. Each animation is a named run of equally sized frames
along one row of the sheet. The model covers three parts:

- **The animation record** (`animation.dfy`, module `Animations`). This is the record with its
  memberwise initializer. It includes the slide-crop that turns a record into frames
  (`makeImages(from:)`), and the keyed encoder and decoder used for saving.
- **The document** (`document.dfy`, module `Documents`). This is the directory wrapper with
  two members, `"spritesheet_image.tiff"` and `"spritesheet_animations"`. It includes the
  `spritesheet` observer that replaces the sheet member, `write`, which replaces the
  animations member, and `read`, which loads all or nothing.
- **The view model** (`viewmodel.dfy`, module `ViewModels`). It adds and removes list rows
  and opens the inspector popover for the row selected in the table.

`cocoa.dfy` (module `Cocoa`) reduces the platform types to what the core observes of them.
Sizes, points and rectangles have `real` coordinates. A bitmap has dimensions and opaque pixel
bytes. An image is reduced to its optional TIFF representation and its optional bitmap.
Cropping and image decoding may fail. They are passed in as functions returning `Option`. The
keyed unarchiver is passed the same way. The keyed archiver always produces bytes, so it is a
total function. `wrappers.dfy` holds `Option`.

Frame extraction is a method with a loop. It is proved equal to the specification function
`Cropped`, and the lemmas state what `Cropped` yields:

- at most `count` frames, and exactly `count` iff every crop succeeds;
- the successful crops only, in ascending index order;
- exactly `count` frames for a sheet large enough for all of them;
- exactly the first `k` frames for a sheet exactly `column + k` frames wide.

The last two take two assumptions about the cropping primitive. It succeeds on every non-empty
rectangle inside the sheet. It fails on a rectangle that starts at or past the sheet's right
edge. A primitive that clips a partly outside rectangle to the bounds, as Core Graphics
does, meets both. `ClippingCrop` is such a primitive, and `ClippingCropQualifies` proves that
it meets both assumptions.

Facts about the source that the model keeps:

- The sheet member of the document wrapper is named `"spritesheet_image.tiff"`
  (SheetKit/Model/Document.swift:12).
- The memberwise initializer stores a speed of 0 unchanged (SheetKit/Model/Animation.swift:51).
  Only decoding replaces it with 0.07 (SheetKit/Model/Animation.swift:121-123).
- A negative decoded speed is kept. The comment at SheetKit/Model/Animation.swift:118 says
  speed should never fall below zero, but the test there is for exactly 0.
- A decoded count may be negative: `decodeInteger` returns whatever was stored
  (SheetKit/Model/Animation.swift:114). `makeImages` then traps in `0 ..< count`
  (SheetKit/Model/Animation.swift:66) when the sheet has a bitmap. That is the `requires` of
  `MakeImages`. The preview and the exporters call `makeImages` on loaded records, so a crafted
  document with a negative count crashes the editor.

## Model

| member | source | states |
|---|---|---|
| `Animations.Make` | SheetKit/Model/Animation.swift:42-52 | the initializer stores all six arguments unchanged, including a speed of 0; column defaults to 0 and speed to 0.07 |
| `Animations.MakeImages` | SheetKit/Model/Animation.swift:56-81 | no bitmap gives an empty result; otherwise the result is the successful crops of frames `0 ..< count`; at most `count` frames, each with the animation's frame size; a negative count is refused only when the loop is reached |
| `Animations.Cropped` | SheetKit/Model/Animation.swift:62-80 | the first `n` crop attempts yield at most `n` frames, each of the animation's frame size |
| `Animations.CroppedAreHits` | SheetKit/Model/Animation.swift:66-78 | output frame `j` is the crop of the `j`-th successful index; those indices strictly increase; every successful index appears; failures are skipped, never padded |
| `Animations.AllCropsSucceed` | SheetKit/Model/Animation.swift:62-80 | the result has exactly `n` frames if and only if all `n` crops succeed |
| `Animations.HitsAllWhenAllSucceed` | SheetKit/Model/Animation.swift:66-78 | when every crop succeeds, the successful indices are exactly `0 .. n-1` in order |
| `Animations.FailuresAddNothing` | SheetKit/Model/Animation.swift:73-75 | a run of failed crops adds no frame: later failures leave the result as it was |
| `Animations.FrameRectGeometry` | SheetKit/Model/Animation.swift:63-71 | every rectangle has y = row × height and the frame size; frame 0 starts at column × width; frames `i` and `j` are `(j - i)` widths apart |
| `Animations.FrameRect` | SheetKit/Model/Animation.swift:63-71 | the crop rectangle of frame `i` has the frame size, y = row × height and x = (column + i) × width |
| `Animations.FrameInBounds` | SheetKit/Model/Animation.swift:63-71 | on a sheet `column + k` frames wide and tall enough for the row, frame `i < k` lies inside; on a sheet exactly that wide, frame `i >= k` starts at or past the right edge |
| `Animations.FramesInBounds` | SheetKit/Model/Animation.swift:63-71 | every frame `i < k` lies inside a sheet `column + k` frames wide and tall enough for the row |
| `Cocoa.ClippingCropQualifies` | SheetKit/Model/Animation.swift:73 | a primitive that clips to the bounds succeeds on non-empty in-bounds rectangles and fails past the right edge |
| `Animations.FramesOfLargeSheet` | SheetKit/Model/Animation.swift:62-80 | with a non-empty frame size, a sheet large enough for every frame yields exactly `count` frames, frame `i` being the crop of rectangle `i` |
| `Animations.FramesOfNarrowSheet` | SheetKit/Model/Animation.swift:62-80 | with a non-empty frame size, a sheet exactly `column + k` frames wide (`k <= count`) yields exactly the first `k` frames, for any primitive that clips or rejects |
| `Animations.Encode` | SheetKit/Model/Animation.swift:89-98 | the six fields are written under exactly the seven coding keys, which are pairwise distinct |
| `Animations.DecodeString` | SheetKit/Model/Animation.swift:103 | the decoded name is the stored string, or the fallback when the key is missing or holds no string |
| `Animations.DecodeFloat` | SheetKit/Model/Animation.swift:107-108 | the decoded float is the stored float, or 0 when the key is missing or holds no float |
| `Animations.DecodeInteger` | SheetKit/Model/Animation.swift:114-116 | the decoded integer is the stored integer, or 0 when the key is missing or holds no integer; a negative value is kept |
| `Animations.Decode` | SheetKit/Model/Animation.swift:100-124 | the decoded speed is never 0; a non-zero stored speed is kept, negatives included; a stored 0, a missing speed or one of another kind gives 0.07; a missing name gives the placeholder and a missing count 0 |
| `Animations.Normalized` | SheetKit/Model/Animation.swift:119-123 | only a speed of 0 is replaced by 0.07; every other field and every non-zero speed is kept |
| `Animations.DecodeEncode` | SheetKit/Model/Animation.swift:89-124 | decoding an encoded record gives back name, size, count, row, column, and the speed when it is non-zero |
| `Animations.DecodeStable` | SheetKit/Model/Animation.swift:100-124 | re-encoding and re-decoding a decoded record changes nothing |
| `Animations.OnlyDecodingCoerces` | SheetKit/Model/Animation.swift:119-123 | a record made with speed 0 keeps it; after coding it reads back as 0.07 |
| `Animations.EncodeAll` | SheetKit/Model/Document.swift:74 | the list is archived one record per element, in order |
| `Animations.DecodeAll` | SheetKit/Model/Document.swift:100-101 | the archived list is decoded one record per element, in order |
| `Animations.DecodeAllEncodeAll` | SheetKit/Model/Document.swift:74-101 | a list reads back in the same order with every record normalized; it is unchanged when no speed is 0 |
| `Documents.WithSheet` | SheetKit/Model/Document.swift:20-37 | an image with a TIFF representation leaves exactly one sheet member holding that data; no image or no TIFF leaves the wrapper unchanged; other members are untouched |
| `Documents.WithAnimations` | SheetKit/Model/Document.swift:77-84 | exactly one animations member holds the archived list; other members are untouched |
| `Documents.FileContents` | SheetKit/Model/Document.swift:92-93 | contents are found exactly when the named member exists and is a regular file |
| `Documents.Load` | SheetKit/Model/Document.swift:88-111 | loading succeeds iff both members are regular files and both decode; a missing member of either kind fails; the loaded speeds are never 0 |
| `Documents.EntriesIndependent` | SheetKit/Model/Document.swift:12-13 | replacing the sheet member never disturbs the animations member, and the reverse |
| `Documents.WriteThenLoad` | SheetKit/Model/Document.swift:68-115 | after `write`, loading a wrapper whose sheet member decodes gives back the written list, normalized, and the decoded sheet |
| `Documents.NewDocumentRoundTrip` | SheetKit/Model/Document.swift:20-115 | a new document given a decodable sheet and then written loads back the written list and that sheet |
| `Documents.Document.constructor` | SheetKit/Model/Document.swift:39-46 | a new document has an empty wrapper, no sheet and no animations |
| `Documents.Document.SetSpritesheet` | SheetKit/Model/Document.swift:20-37 | the sheet is set; the wrapper changes as `WithSheet` says; the list is unchanged |
| `Documents.Document.Write` | SheetKit/Model/Document.swift:68-86 | the wrapper changes as `WithAnimations` says; sheet and list are unchanged |
| `Documents.Document.Read` | SheetKit/Model/Document.swift:88-118 | a failed load changes no document state; a successful one sets the sheet and the decoded list, and the wrapper becomes the one read |
| `ViewModels.NewAnimation` | SheetKit/Model/ViewModel.swift:52 | the appended record is "Animation", 32×32, count 1, row 0, column 0, speed 0.07 |
| `ViewModels.RemoveAt` | SheetKit/Model/ViewModel.swift:66 | one element fewer; those before the index stay in place, those after shift down by one in order; the multiset loses exactly the removed element |
| `ViewModels.RemoveUndoesAppend` | SheetKit/Model/ViewModel.swift:49-66 | removing the row that an append reported gives back the previous list |
| `ViewModels.IsRow` | SheetKit/Model/ViewModel.swift:62 | a selected row names an element of the list; -1 (no selection), a row past the end, and any row of an empty list do not |
| `ViewModels.ViewModel.constructor` | SheetKit/Model/ViewModel.swift:21-39 | a view model for a document starts with no selected animation and no popover |
| `ViewModels.ViewModel.SetPopover` | SheetKit/Model/ViewModel.swift:26-31 | assigning a popover clears the selected animation |
| `ViewModels.ViewModel.SetSpritesheet` | SheetKit/Model/ViewModel.swift:43-47 | the document's sheet becomes the photo and its wrapper gets the photo's TIFF member; the list is unchanged |
| `ViewModels.ViewModel.AddAnimation` | SheetKit/Model/ViewModel.swift:49-56 | the list grows by the default record at the end, earlier elements unchanged; the reported row is the old length |
| `ViewModels.ViewModel.RemoveAnimation` | SheetKit/Model/ViewModel.swift:58-68 | a row outside `[0, count)` leaves the list unchanged; a valid row removes exactly that element |
| `ViewModels.ViewModel.OpenInspectorAtSelectedRow` | SheetKit/Model/ViewModel.swift:70-95 | an invalid row changes nothing; a valid row ends with a fresh popover and that row's animation selected |

## Left out

- Pixels, TIFF encoding, `NSImage(data:)` and `CGImage.cropping(to:)`: these are parameters. Core Graphics' exact clipping rule is not modelled. The frame-count lemmas assume only the two properties named above.
- The `NSKeyedArchiver` byte format: the archiver and unarchiver are parameters over the list of per-record key/value maps.
- Decode: a key that holds a value of another kind is read as missing. The platform unarchiver would convert between number kinds or raise.
- Floating point: sizes and speed are `real`. The `CGFloat` to `Float` narrowing in `encode(with:)` is not modelled, so the size round trip is exact in the model. 0.07 stands for the nearest `Float`.
- Rounding of the rectangle arithmetic: x and y are computed in `CGFloat` and round there. The model computes them over `real`, so the fixed y and the one-width spacing of frames are exact only in the model.
- Frame sizes of 0: a zero-width or zero-height frame never crops in Core Graphics, so the two frame-count lemmas require a non-empty frame size.
- Object identity: an animation is a value here. In the source it is a shared object, and the inspector edits the selected animation in place through the list. That editing is not part of this model.
- Weak references: `selectedAnimation` is weak in the source, so it may become nil once its animation is removed; the model keeps the value.
- The localized placeholder name is an opaque constant string. The property defaults of the `Animation` class are never observable in the modelled code, because both initializers assign every field.
- UI and platform plumbing: delegate callbacks, table row animations, popover presentation and closing the old popover, storyboards, window controllers, and the load notification.
- The file-system write at the end of `write` and its swallowed error are I/O.
- `canConcurrentlyReadDocuments` and `autosavesInPlace` concern concurrency and platform settings, not sequential logic.
- GIF, PNG-sequence and source-code export are not part of this model.
