/**
 * The hiding tab's alignment step: before embedding, carrier and secret are
 * cut to the smaller of their heights and the smaller of their widths, keeping
 * the top-left corner, so that the element-wise codec sees equal shapes.
 */
module Alignment {
  import opened Images
  import opened Steganography

  function Min(a: nat, b: nat): (m: nat)
    ensures m <= a && m <= b && (m == a || m == b)
  {
    if a <= b then a else b
  }

  /** The numpy slice `img[:h, :w]`; a bound past the end of an axis stops at its end. */
  function Slice(img: Image, h: nat, w: nat): (r: Image)
    ensures |r| == Min(h, |img|)
    ensures forall i :: 0 <= i < |r| ==> |r[i]| == Min(w, |img[i]|)
    ensures forall i, j :: 0 <= i < |r| && 0 <= j < |r[i]| ==> i < |img| && j < |img[i]| && r[i][j] == img[i][j]
  {
    seq(Min(h, |img|), i requires 0 <= i < Min(h, |img|) => img[i][..Min(w, |img[i]|)])
  }

  /**
   * Both images cut to the common size: each has height min(h1, h2) and width
   * min(w1, w2), keeps its channel count, and every kept pixel is the pixel of
   * the original at the same row and column.
   */
  function CropToCommonSize(a: Image, b: Image): (r: (Image, Image))
    requires Rectangular(a) && Rectangular(b)
    ensures HasShape(r.0, Shape(Min(Height(a), Height(b)), Min(Width(a), Width(b)), Channels(a)))
    ensures HasShape(r.1, Shape(Min(Height(a), Height(b)), Min(Width(a), Width(b)), Channels(b)))
    ensures forall i, j :: 0 <= i < |r.0| && 0 <= j < |r.0[i]| ==> r.0[i][j] == a[i][j]
    ensures forall i, j :: 0 <= i < |r.1| && 0 <= j < |r.1[i]| ==> r.1[i][j] == b[i][j]
  {
    var h := Min(Height(a), Height(b));
    var w := Min(Width(a), Width(b));
    (Slice(a, h, w), Slice(b, h, w))
  }

  /**
   * The hiding tab end to end: crop both images to their common size, then
   * embed.  The stego image has the common size and the carrier's channels, and
   * each of its samples is the embedding of the carrier and secret samples at
   * the same position of the original images.
   */
  function Hide(carrier: Image, secret: Image, k: Depth): (r: Image)
    requires Rectangular(carrier) && Rectangular(secret)
    requires Channels(carrier) == Channels(secret)
    ensures HasShape(r, Shape(Min(Height(carrier), Height(secret)), Min(Width(carrier), Width(secret)), Channels(carrier)))
    ensures forall i, j, ch :: 0 <= i < |r| && 0 <= j < |r[i]| && 0 <= ch < |r[i][j]| ==>
              r[i][j][ch] == EmbedSample(carrier[i][j][ch], secret[i][j][ch], k)
  {
    var cropped := CropToCommonSize(carrier, secret);
    var s := Shape(Min(Height(carrier), Height(secret)), Min(Width(carrier), Width(secret)), Channels(carrier));
    SameShapeOfShape(cropped.0, cropped.1, s);
    var r := Embed(cropped.0, cropped.1, k);
    ShapeOfSameShape(cropped.0, r, s);
    r
  }
}
