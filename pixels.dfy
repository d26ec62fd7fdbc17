/** Pixels and frames as the program's numpy buffers hold them. */
module Pixels {

  /** One channel of a `uint8` frame buffer. */
  type Byte = x: int | 0 <= x < 256

  /** The three channels of one pixel, in the order they are stored: position 0,
      1, 2. A camera frame stores blue, green, red; a sample is reported as red,
      green, blue. Which of the two a triple means is fixed by where it is used. */
  type Triple = (Byte, Byte, Byte)

  /** Channel `c` of a pixel, as numpy indexes the last axis. */
  function Channel(p: Triple, c: nat): Byte
    requires c < 3
  {
    if c == 0 then p.0 else if c == 1 then p.1 else p.2
  }

  /** The channels in the opposite order (`reversed(...)`, `color[::-1]`). */
  function Reverse(p: Triple): (q: Triple)
    ensures forall c :: 0 <= c < 3 ==> Channel(q, c) == Channel(p, 2 - c)
  {
    (p.2, p.1, p.0)
  }

  /** Reversing twice gives the pixel back: RGB to BGR undoes BGR to RGB. */
  lemma ReverseTwice(p: Triple)
    ensures Reverse(Reverse(p)) == p
  {
  }

  /** A frame of `|rows|` rows and `width` columns (numpy shape `(height, width, 3)`). */
  datatype Image = Image(rows: seq<seq<Triple>>, width: nat) {

    /** A numpy array is rectangular: every row has `width` pixels. */
    predicate Valid() {
      forall i :: 0 <= i < |rows| ==> |rows[i]| == width
    }

    function Height(): nat {
      |rows|
    }

    /** `0 <= x < img.shape[1] and 0 <= y < img.shape[0]` */
    predicate InFrame(x: int, y: int) {
      0 <= x < width && 0 <= y < Height()
    }
  }

  /** Two frames of the same dimensions, as a median filter returns. */
  predicate SameShape(a: Image, b: Image) {
    a.width == b.width && a.Height() == b.Height()
  }
}
