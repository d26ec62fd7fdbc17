/** The overlay renderer: `draw_color_overlay` allocates a zeroed 220×400 panel
    and paints the swatch rectangle with the sampled colour in buffer order. */
module Overlay {
  import opened Pixels

  const PanelHeight: nat := 220
  const PanelWidth: nat := 400

  /** The swatch covers rows [10, 190) and columns [10, 160). */
  const SwatchTop: nat := 10
  const SwatchBottom: nat := 190
  const SwatchLeft: nat := 10
  const SwatchRight: nat := 160

  const Black: Triple := (0, 0, 0)

  predicate InSwatch(i: int, j: int) {
    SwatchTop <= i < SwatchBottom && SwatchLeft <= j < SwatchRight
  }

  /** The pixel a finished panel holds at row i, column j for an RGB colour:
      the colour turned back to BGR inside the swatch, black elsewhere. */
  function PanelPixel(color: Triple, i: int, j: int): Triple {
    if InSwatch(i, j) then Reverse(color) else Black
  }

  /** A 220×400 image buffer with three channels per pixel. */
  class Panel {
    const pixels: array2<Triple>

    /** `np.zeros((220, 400, 3), dtype=np.uint8)` */
    constructor ()
      ensures fresh(pixels)
      ensures pixels.Length0 == PanelHeight && pixels.Length1 == PanelWidth
      ensures forall i, j :: 0 <= i < PanelHeight && 0 <= j < PanelWidth ==> pixels[i, j] == Black
    {
      pixels := new Triple[PanelHeight, PanelWidth]((i, j) => Black);
    }

    /** `overlay[10:190, 10:160] = color[::-1]`: every swatch pixel becomes the
        reversed colour, and nothing outside the swatch changes. */
    method FillSwatch(color: Triple)
      requires pixels.Length0 == PanelHeight && pixels.Length1 == PanelWidth
      modifies pixels
      ensures forall i, j :: 0 <= i < PanelHeight && 0 <= j < PanelWidth ==>
        pixels[i, j] == if InSwatch(i, j) then Reverse(color) else old(pixels[i, j])
    {
      var bgr := Reverse(color);
      var i := SwatchTop;
      while i < SwatchBottom
        invariant SwatchTop <= i <= SwatchBottom
        invariant forall r, c :: 0 <= r < PanelHeight && 0 <= c < PanelWidth ==>
          pixels[r, c] == if SwatchTop <= r < i && SwatchLeft <= c < SwatchRight then bgr else old(pixels[r, c])
      {
        var j := SwatchLeft;
        while j < SwatchRight
          invariant SwatchLeft <= j <= SwatchRight
          invariant forall r, c :: 0 <= r < PanelHeight && 0 <= c < PanelWidth ==>
            pixels[r, c] ==
              if (SwatchTop <= r < i && SwatchLeft <= c < SwatchRight) || (r == i && SwatchLeft <= c < j)
              then bgr else old(pixels[r, c])
        {
          pixels[i, j] := bgr;
          j := j + 1;
        }
        i := i + 1;
      }
    }
  }

  /** `draw_color_overlay`: a new panel holding the swatch of the colour (in
      BGR order) on a black background; the same colour always gives the same
      pixels. */
  method DrawColorOverlay(color: Triple) returns (panel: Panel)
    ensures fresh(panel) && fresh(panel.pixels)
    ensures panel.pixels.Length0 == PanelHeight && panel.pixels.Length1 == PanelWidth
    ensures forall i, j :: 0 <= i < PanelHeight && 0 <= j < PanelWidth ==>
      panel.pixels[i, j] == PanelPixel(color, i, j)
  {
    panel := new Panel();
    panel.FillSwatch(color);
  }

  /** Rendering twice with the same colour gives pixel-identical panels. */
  method RenderTwice(color: Triple) returns (same: bool)
    ensures same
  {
    var a := DrawColorOverlay(color);
    var b := DrawColorOverlay(color);
    same := forall i, j :: 0 <= i < PanelHeight && 0 <= j < PanelWidth ==> a.pixels[i, j] == b.pixels[i, j];
  }
}
