/**
 * Images as the codec sees them: an 8-bit array indexed as img[row][column][channel].
 * A grayscale image is one with a single channel.
 */
module Images {

  /** An unsigned 8-bit sample (numpy uint8). */
  type Sample = x: int | 0 <= x < 256

  type Pixel = seq<Sample>

  /** Rows of pixels, each pixel a sequence of channel samples. */
  type Image = seq<seq<Pixel>>

  datatype Shape = Shape(height: nat, width: nat, channels: nat)

  /** The image is an array of the given (height, width, channels) shape. */
  predicate HasShape(img: Image, s: Shape)
  {
    && |img| == s.height
    && (forall i :: 0 <= i < |img| ==> |img[i]| == s.width)
    && (forall i, j :: 0 <= i < |img| && 0 <= j < |img[i]| ==> |img[i][j]| == s.channels)
  }

  /** Two images have the same structure, level by level. */
  predicate SameShape(a: Image, b: Image)
  {
    && |a| == |b|
    && (forall i :: 0 <= i < |a| ==> |a[i]| == |b[i]|)
    && (forall i, j :: 0 <= i < |a| && 0 <= j < |a[i]| ==> |a[i][j]| == |b[i][j]|)
  }

  /** `img.shape[0]`: the height of every shape the image has. */
  function Height(img: Image): (h: nat)
    ensures forall s :: HasShape(img, s) ==> h == s.height
  {
    |img|
  }

  /** `img.shape[1]`, read off the first row: the width of every shape a non-empty image has. */
  function Width(img: Image): (w: nat)
    ensures forall s :: HasShape(img, s) && s.height > 0 ==> w == s.width
  {
    if |img| == 0 then 0 else |img[0]|
  }

  /** `img.shape[2]`, read off the first pixel: the channel count of every shape with a pixel. */
  function Channels(img: Image): (c: nat)
    ensures forall s :: HasShape(img, s) && s.height > 0 && s.width > 0 ==> c == s.channels
  {
    if |img| == 0 || |img[0]| == 0 then 0 else |img[0][0]|
  }

  /** The nested sequences form an array: every row and every pixel have the lengths of the first. */
  predicate Rectangular(img: Image)
  {
    HasShape(img, Shape(Height(img), Width(img), Channels(img)))
  }

  /** Images of one shape have the same structure. */
  lemma SameShapeOfShape(a: Image, b: Image, s: Shape)
    requires HasShape(a, s) && HasShape(b, s)
    ensures SameShape(a, b)
  {
  }

  /** An image with the structure of one of shape s has shape s. */
  lemma ShapeOfSameShape(a: Image, b: Image, s: Shape)
    requires HasShape(a, s) && SameShape(a, b)
    ensures HasShape(b, s)
  {
  }

  /** Two images of the same structure that agree sample by sample are equal. */
  lemma {:induction false} SamplewiseEqual(a: Image, b: Image)
    requires SameShape(a, b)
    requires forall i, j, c :: 0 <= i < |a| && 0 <= j < |a[i]| && 0 <= c < |a[i][j]| ==> a[i][j][c] == b[i][j][c]
    ensures a == b
  {
    forall i | 0 <= i < |a|
      ensures a[i] == b[i]
    {
      forall j | 0 <= j < |a[i]|
        ensures a[i][j] == b[i][j]
      {
        assert |a[i][j]| == |b[i][j]|;
      }
    }
  }
}
