/** The neighbourhood colour sampler: `average_color` clamps a window around the
    click to the frame, averages each channel over it with integer truncation and
    reports the result in red-green-blue order. */
module Sampler {
  import opened Pixels

  /** The half-width of the window the program samples with (`size=10`). */
  const DefaultSize: int := 10

  /** A half-open window of columns [x0, x1) and rows [y0, y1). */
  datatype Window = Window(x0: int, x1: int, y0: int, y1: int) {

    predicate IsEmpty() {
      x1 <= x0 || y1 <= y0
    }

    predicate Contains(x: int, y: int) {
      x0 <= x < x1 && y0 <= y < y1
    }
  }

  function Max(a: int, b: int): int {
    if a >= b then a else b
  }

  function Min(a: int, b: int): int {
    if a <= b then a else b
  }

  /** The window [x - size, x + size) × [y - size, y + size) clamped to a frame
      of the given dimensions: it holds exactly the frame's pixels that lie in
      the unclamped window, and for a click inside the frame it is not empty. */
  function ClampWindow(width: nat, height: nat, x: int, y: int, size: int): (w: Window)
    ensures 0 <= w.x0 && w.x1 <= width && 0 <= w.y0 && w.y1 <= height
    ensures forall i, j :: w.Contains(i, j) <==>
      0 <= i < width && 0 <= j < height && x - size <= i < x + size && y - size <= j < y + size
    ensures 0 <= x < width && 0 <= y < height && size >= 0 ==>
      w.x0 <= w.x1 <= w.x0 + 2 * size && w.y0 <= w.y1 <= w.y0 + 2 * size
    ensures 0 <= x < width && 0 <= y < height && size >= 1 ==> w.Contains(x, y)
  {
    Window(Max(x - size, 0), Min(x + size, width), Max(y - size, 0), Min(y + size, height))
  }

  /** The sub-image `img[y0:y1, x0:x1]` of a window inside the frame. */
  function Region(img: Image, w: Window): (region: seq<seq<Triple>>)
    requires img.Valid()
    requires 0 <= w.x0 <= w.x1 <= img.width && 0 <= w.y0 <= w.y1 <= img.Height()
    ensures |region| == w.y1 - w.y0
    ensures forall i :: 0 <= i < |region| ==> |region[i]| == w.x1 - w.x0
    ensures forall i, j :: 0 <= i < |region| && 0 <= j < |region[i]| ==>
      region[i][j] == img.rows[w.y0 + i][w.x0 + j]
  {
    seq(w.y1 - w.y0, i requires 0 <= i < w.y1 - w.y0 => img.rows[w.y0 + i][w.x0..w.x1])
  }

  /** The number of pixels in a region. */
  function Count(region: seq<seq<Triple>>): nat {
    if region == [] then 0 else Count(region[..|region| - 1]) + |region[|region| - 1]|
  }

  /** The sum of channel `c` along one row; at most 255 per pixel. */
  function RowTotal(row: seq<Triple>, c: nat): (t: int)
    requires c < 3
    ensures 0 <= t <= 255 * |row|
  {
    if row == [] then 0 else RowTotal(row[..|row| - 1], c) + Channel(row[|row| - 1], c)
  }

  /** The sum of channel `c` over a region; at most 255 per pixel. */
  function Total(region: seq<seq<Triple>>, c: nat): (t: int)
    requires c < 3
    ensures 0 <= t <= 255 * Count(region)
  {
    if region == [] then 0
    else Total(region[..|region| - 1], c) + RowTotal(region[|region| - 1], c)
  }

  /** Multiplying by a non-negative factor keeps an inequality. */
  lemma MulMonotone(a: int, b: int, k: int)
    requires a <= b && k >= 0
    ensures a * k <= b * k
  {
  }

  /** A product of two factors in [0, m] is at most m * m. */
  lemma ProductBound(a: int, b: int, m: int)
    requires 0 <= a <= m && 0 <= b <= m
    ensures a * b <= m * m
  {
    MulMonotone(a, m, b);
    MulMonotone(b, m, m);
  }

  /** Multiplication distributes over a sum. */
  lemma MulAdd(v: int, a: int, b: int)
    ensures v * (a + b) == v * a + v * b
  {
  }

  /** Integer division by a positive divisor is the floor of the quotient. */
  lemma DivFloor(t: int, n: int)
    requires n > 0
    ensures (t / n) * n <= t < (t / n + 1) * n
  {
    var q, r := t / n, t % n;
    assert t == q * n + r && 0 <= r < n;
    assert (q + 1) * n == q * n + n;
  }

  /** At most one integer m has m * n <= t < (m + 1) * n. */
  lemma FloorUnique(m: int, v: int, n: int)
    requires n > 0
    requires m * n <= v * n < (m + 1) * n
    ensures m == v
  {
    if m < v {
      MulMonotone(m + 1, v, n);
    } else if m > v {
      MulMonotone(v + 1, m, n);
    }
  }

  lemma QuotientAtMost255(t: int, n: int)
    requires 0 <= t <= 255 * n && n > 0
    ensures 0 <= t / n <= 255
  {
    DivFloor(t, n);
    if t / n > 255 {
      MulMonotone(256, t / n, n);
    }
  }

  /** The mean of channel `c` over a non-empty region, truncated: the largest
      byte whose multiple by the pixel count does not exceed the channel's sum.
      Sums and counts are never negative, so truncating and flooring agree. */
  function ChannelMean(region: seq<seq<Triple>>, c: nat): (m: Byte)
    requires c < 3 && Count(region) > 0
    ensures m * Count(region) <= Total(region, c) < (m + 1) * Count(region)
  {
    QuotientAtMost255(Total(region, c), Count(region));
    DivFloor(Total(region, c), Count(region));
    Total(region, c) / Count(region)
  }

  /** The per-channel means in the region's own (buffer) order. */
  function Means(region: seq<seq<Triple>>): Triple
    requires Count(region) > 0
  {
    (ChannelMean(region, 0), ChannelMean(region, 1), ChannelMean(region, 2))
  }

  /** `average_color(img, x, y, size)`: the truncated per-channel mean of the
      clamped window, with the channel order reversed (BGR to RGB). Output
      channel c is the floor of buffer channel 2 - c's sum over the window's
      pixels divided by their number. */
  function AverageColor(img: Image, x: int, y: int, size: int): (rgb: Triple)
    requires img.Valid()
    requires !ClampWindow(img.width, img.Height(), x, y, size).IsEmpty()
    ensures var region := Region(img, ClampWindow(img.width, img.Height(), x, y, size));
      Count(region) > 0 &&
      forall c :: 0 <= c < 3 ==>
        Channel(rgb, c) * Count(region) <= Total(region, 2 - c) < (Channel(rgb, c) + 1) * Count(region)
  {
    var w := ClampWindow(img.width, img.Height(), x, y, size);
    CountOfRegion(img, w);
    Reverse(Means(Region(img, w)))
  }

  /** A region of h rows of k pixels holds h * k pixels. */
  lemma {:induction false} CountRectangle(region: seq<seq<Triple>>, k: nat)
    requires forall i :: 0 <= i < |region| ==> |region[i]| == k
    ensures Count(region) == |region| * k
  {
    if region != [] {
      CountRectangle(region[..|region| - 1], k);
    }
  }

  /** The region of a window holds as many pixels as the window covers; a
      non-empty window inside the frame gives a non-empty region. */
  lemma CountOfRegion(img: Image, w: Window)
    requires img.Valid()
    requires 0 <= w.x0 <= w.x1 <= img.width && 0 <= w.y0 <= w.y1 <= img.Height()
    ensures Count(Region(img, w)) == (w.x1 - w.x0) * (w.y1 - w.y0)
    ensures !w.IsEmpty() ==> Count(Region(img, w)) > 0
  {
    var region := Region(img, w);
    CountRectangle(region, w.x1 - w.x0);
    if !w.IsEmpty() {
      assert (w.x1 - w.x0) * (w.y1 - w.y0) >= (w.x1 - w.x0) * 1;
    }
  }

  /** For a click inside the frame and `size >= 1` the window is not empty,
      contains the clicked pixel and holds at most (2 * size) * (2 * size) pixels; so with
      `size=10` at most 400 pixels of at most 255 are summed. */
  lemma ValidClickWindow(img: Image, x: int, y: int, size: int)
    requires img.Valid() && img.InFrame(x, y) && size >= 1
    ensures var w := ClampWindow(img.width, img.Height(), x, y, size);
      !w.IsEmpty() && w.Contains(x, y) &&
      Count(Region(img, w)) <= (2 * size) * (2 * size)
  {
    var w := ClampWindow(img.width, img.Height(), x, y, size);
    CountOfRegion(img, w);
    ProductBound(w.x1 - w.x0, w.y1 - w.y0, 2 * size);
  }

  /** Output channel c of `average_color` is the truncated mean of buffer
      channel 2 - c over the clamped window: position 0 (red) comes from
      buffer channel 2 and position 2 (blue) from buffer channel 0. */
  lemma AverageColorChannel(img: Image, x: int, y: int, size: int, c: nat)
    requires img.Valid() && c < 3
    requires !ClampWindow(img.width, img.Height(), x, y, size).IsEmpty()
    ensures var region := Region(img, ClampWindow(img.width, img.Height(), x, y, size));
      var m := Channel(AverageColor(img, x, y, size), c);
      Count(region) > 0 &&
      m * Count(region) <= Total(region, 2 - c) < (m + 1) * Count(region)
  {
    CountOfRegion(img, ClampWindow(img.width, img.Height(), x, y, size));
  }

  /** A row of identical pixels sums to that channel times its length. */
  lemma {:induction false} RowTotalUniform(row: seq<Triple>, p: Triple, c: nat)
    requires c < 3
    requires forall j :: 0 <= j < |row| ==> row[j] == p
    ensures RowTotal(row, c) == Channel(p, c) * |row|
  {
    if row != [] {
      RowTotalUniform(row[..|row| - 1], p, c);
    }
  }

  /** A region of identical pixels sums to that channel times its pixel count. */
  lemma {:induction false} TotalUniform(region: seq<seq<Triple>>, p: Triple, c: nat)
    requires c < 3
    requires forall i, j :: 0 <= i < |region| && 0 <= j < |region[i]| ==> region[i][j] == p
    ensures Total(region, c) == Channel(p, c) * Count(region)
  {
    if region != [] {
      var init, last := region[..|region| - 1], region[|region| - 1];
      assert forall i, j :: 0 <= i < |init| && 0 <= j < |init[i]| ==> init[i][j] == region[i][j];
      TotalUniform(init, p, c);
      RowTotalUniform(last, p, c);
      MulAdd(Channel(p, c), Count(init), |last|);
    }
  }

  /** The mean of a region of identical pixels is that pixel. */
  lemma MeansUniform(region: seq<seq<Triple>>, p: Triple)
    requires Count(region) > 0
    requires forall i, j :: 0 <= i < |region| && 0 <= j < |region[i]| ==> region[i][j] == p
    ensures Means(region) == p
  {
    var n := Count(region);
    forall c | 0 <= c < 3
      ensures ChannelMean(region, c) == Channel(p, c)
    {
      TotalUniform(region, p, c);
      FloorUnique(ChannelMean(region, c), Channel(p, c), n);
    }
    assert ChannelMean(region, 0) == Channel(p, 0);
    assert ChannelMean(region, 1) == Channel(p, 1);
    assert ChannelMean(region, 2) == Channel(p, 2);
  }

  /** A window of one colour samples to exactly that colour, in RGB order. */
  lemma AverageColorUniform(img: Image, x: int, y: int, size: int, p: Triple)
    requires img.Valid()
    requires !ClampWindow(img.width, img.Height(), x, y, size).IsEmpty()
    requires forall i, j :: ClampWindow(img.width, img.Height(), x, y, size).Contains(i, j) ==>
      img.rows[j][i] == p
    ensures AverageColor(img, x, y, size) == Reverse(p)
  {
    var w := ClampWindow(img.width, img.Height(), x, y, size);
    var region := Region(img, w);
    CountOfRegion(img, w);
    forall i, j | 0 <= i < |region| && 0 <= j < |region[i]|
      ensures region[i][j] == p
    {
      assert w.Contains(w.x0 + j, w.y0 + i);
    }
    MeansUniform(region, p);
  }

  /** A click at the top-left corner samples only the in-frame quarter of its
      window: [0, min(size, width)) × [0, min(size, height)). */
  lemma CornerWindow(img: Image, size: int)
    requires img.Valid() && size >= 1
    ensures ClampWindow(img.width, img.Height(), 0, 0, size) ==
      Window(0, Min(size, img.width), 0, Min(size, img.Height()))
  {
  }

  /** A 21×21 frame of pure red (buffer order (0, 0, 255)) sampled at its centre
      with the default window gives red (255, 0, 0). */
  lemma SolidRedFrame(img: Image)
    requires img.Valid() && img.width == 21 && img.Height() == 21
    requires forall i, j :: 0 <= i < 21 && 0 <= j < 21 ==> img.rows[i][j] == (0, 0, 255)
    ensures AverageColor(img, 10, 10, DefaultSize) == (255, 0, 0)
  {
    AverageColorUniform(img, 10, 10, DefaultSize, (0, 0, 255));
  }
}
