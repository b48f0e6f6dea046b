/**
 The platform types the editor's core reads, reduced to what the core observes of them.
 Pixels, codecs and Core Graphics' clipping rules are not modelled: the operations that
 need them (cropping, TIFF encoding, image decoding) are passed in as partial functions.
 */
module Cocoa {
  import opened Wrappers

  newtype byte = x: int | 0 <= x < 256
  type Bytes = seq<byte>

  /** CGSize, CGPoint and CGRect; CGFloat is modelled by `real`. */
  datatype Size = Size(width: real, height: real)
  datatype Point = Point(x: real, y: real)
  datatype Rect = Rect(origin: Point, size: Size)

  /** A CGImage: its pixel dimensions and opaque pixel data. */
  datatype Raster = Raster(width: nat, height: nat, pixels: Bytes)

  /** An NSImage, reduced to the two representations the core asks of it. */
  datatype Image = Image(tiffRepresentation: Option<Bytes>, cgImage: Option<Raster>)

  /** `CGImage.cropping(to:)`: a crop that may fail. */
  type Cropper = (Raster, Rect) -> Option<Raster>

  /** The rectangle has a non-negative size and lies entirely inside the raster. */
  predicate InBounds(rect: Rect, r: Raster)
  {
    && 0.0 <= rect.size.width && 0.0 <= rect.size.height
    && 0.0 <= rect.origin.x && 0.0 <= rect.origin.y
    && rect.origin.x + rect.size.width <= r.width as real
    && rect.origin.y + rect.size.height <= r.height as real
  }

  /**
   A cropping primitive that succeeds on every non-empty rectangle inside the raster.
   Core Graphics returns no image for an empty rectangle.
   */
  ghost predicate CropsInBounds(crop: Cropper)
  {
    forall r: Raster, rect: Rect ::
      InBounds(rect, r) && 0.0 < rect.size.width && 0.0 < rect.size.height ==> crop(r, rect).Some?
  }

  /**
   A cropping primitive that fails on every rectangle starting at or beyond the raster's
   right edge. A primitive that clips to the bounds does so: nothing of the rectangle is left.
   */
  ghost predicate CropsFailPastRightEdge(crop: Cropper)
  {
    forall r: Raster, rect: Rect :: r.width as real <= rect.origin.x ==> crop(r, rect).None?
  }

  /** Succeeds exactly when the rectangle meets the raster, as a clipping primitive does; the pixels returned are not modelled. */
  function ClippingCrop(r: Raster, rect: Rect): Option<Raster>
  {
    if rect.origin.x < r.width as real && rect.origin.y < r.height as real
       && 0.0 < rect.size.width && 0.0 < rect.size.height
       && 0.0 < rect.origin.x + rect.size.width && 0.0 < rect.origin.y + rect.size.height
    then Some(r)
    else None
  }

  /** Both assumptions the frame lemmas make hold of a primitive that clips rather than rejects. */
  lemma ClippingCropQualifies()
    ensures CropsInBounds(ClippingCrop) && CropsFailPastRightEdge(ClippingCrop)
  {
  }
}
