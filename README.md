# Click-to-colour pipeline of `color_detection.py`, in Dafny

`color_detection.py` shows a live webcam feed. The user clicks a pixel. The
program then averages a small window of the median-filtered frame around the
click. It reports the average as an RGB triple, a `#rrggbb` hex code and a
colour name, and shows them in a 220×400 info panel. This project models the
integer core under the OpenCV plumbing:

- `pixels.dfy` (module `Pixels`): 8-bit channels, pixels as triples in buffer
  order, frames as rectangular rows of pixels, and the channel reversal used for
  BGR↔RGB.
- `sampler.dfy` (module `Sampler`): `average_color`. It clamps the window
  `[x-size, x+size) × [y-size, y+size)` to the frame. It takes the truncated mean
  of each channel over that region and reverses the channel order.
- `classifier.dfy` (module `Classifier`): `color_to_hex`, a parser that reads
  the hex code back, and `get_color_name` with its `"Unknown"` fallback.
- `overlay.dfy` (module `Overlay`): `draw_color_overlay`. A class holds the
  panel buffer as an `array2`. The constructor zeroes it, and `FillSwatch`
  paints rows [10,190) × columns [10,160) in place with a loop.
- `interaction.dfy` (module `Interaction`): the globals `click_x`, `click_y`
  and `color_updated` become a class. `mouse_callback` becomes `OnMouse`, and
  one pass of the `while True` loop becomes `Step` and `Tick`. The quit-key test
  is a predicate.
- `wrappers.dfy` (module `Wrappers`): the `Option` type.

The mean is computed with integer division. The program computes a float64 mean
and truncates it with `astype(int)`. With `size=10` the window holds at most
400 pixels, each at most 255 (`Sampler.ValidClickWindow`). So the float
quotient of a non-negative sum by the count has the same integer part as floor
division, and `Sampler.ChannelMean` states exactly that integer part.

The model follows the code in these details:

- The state is two separate optional coordinates plus a flag.
- The panel is a freshly allocated buffer whose swatch is written in place.
- The panel carries five lines of text (text is not modelled).
- The loop quits on `x`, although the comment at line 130 says 'q'.

## Model

| member | source | states |
|---|---|---|
| `Pixels.Reverse` | color_detection.py:37 | output channel c is input channel 2 - c (the `reversed(...)` of a three-channel value) |
| `Pixels.ReverseTwice` | color_detection.py:49 | reversing an RGB sample back (`color[::-1]`) gives the buffer-order colour it was read as |
| `Sampler.ClampWindow` | color_detection.py:29-32 | the clamped window lies inside the frame and contains exactly the frame pixels of `[x-size, x+size) × [y-size, y+size)`; for a click in the frame it is at most 2·size wide and high and contains the click |
| `Sampler.Region` | color_detection.py:34 | `img[y_start:y_end, x_start:x_end]` has the window's rows and columns, and its pixel (i, j) is frame pixel (y0+i, x0+j) |
| `Sampler.RowTotal` | color_detection.py:35 | a row's channel sum is between 0 and 255 per pixel |
| `Sampler.Total` | color_detection.py:35 | a region's channel sum is between 0 and 255 per pixel |
| `Sampler.ChannelMean` | color_detection.py:35-37 | the truncated mean is the byte m with m·count ≤ sum < (m+1)·count, so it lies in [0,255] |
| `Sampler.CountOfRegion` | color_detection.py:29-34 | the region holds (x_end-x_start)·(y_end-y_start) pixels, and a non-empty window gives a non-empty region |
| `Sampler.AverageColor` | color_detection.py:27-37 | `average_color`: the clamped window's region is non-empty, and output channel c is the byte m with m·count ≤ (sum of buffer channel 2-c over the region) < (m+1)·count, i.e. the truncated mean with BGR reversed to RGB; the uniform case is `Sampler.AverageColorUniform` |
| `Sampler.ValidClickWindow` | color_detection.py:29-32 | for a click inside the frame and size ≥ 1 the window is non-empty, contains the clicked pixel and holds at most (2·size)² pixels |
| `Sampler.AverageColorChannel` | color_detection.py:35-37 | output channel c of `average_color` is the floor of buffer channel 2-c's sum over the window divided by the pixel count (red from channel 2, blue from channel 0) |
| `Sampler.AverageColorUniform` | color_detection.py:34-37 | a window of one colour samples to exactly that colour, reversed to RGB |
| `Sampler.CornerWindow` | color_detection.py:29-32 | a click at (0, 0) samples only [0, min(size, width)) × [0, min(size, height)) |
| `Sampler.SolidRedFrame` | color_detection.py:27-37 | a 21×21 solid red frame sampled at its centre with size 10 gives (255, 0, 0) |
| `Classifier.HexDigit` | color_detection.py:25 | each digit `{:x}` writes is a lower-case hexadecimal digit |
| `Classifier.DigitValue` | color_detection.py:25 | reading a lower-case digit gives a value in 0..15 that HexDigit writes back as the same digit |
| `Classifier.DigitRoundTrip` | color_detection.py:25 | HexDigit is one-to-one: DigitValue undoes it |
| `Classifier.Hex2` | color_detection.py:25 | `{:02x}` of a byte is two lower-case digits whose value is the byte (zero-padded) |
| `Classifier.ColorToHex` | color_detection.py:23-25 | `color_to_hex` gives 7 characters: `#` and then two lower-case digits each whose values are r, g and b, in that order |
| `Classifier.ParseHex` | color_detection.py:25 | reading back succeeds exactly on strings of the `#rrggbb` lower-case form |
| `Classifier.HexRoundTrip` | color_detection.py:25 | parsing the hex code of a colour gives the colour back |
| `Classifier.Hex2Canonical` | color_detection.py:25 | any two lower-case digits are the `{:02x}` formatting of the byte they denote |
| `Classifier.HexCanonical` | color_detection.py:25 | a string parses to a colour exactly when it is the hex code of that colour, so parsing and formatting are inverse |
| `Classifier.ColorToHexInjective` | color_detection.py:25 | two colours have the same hex code exactly when they are equal |
| `Classifier.HexExample` | color_detection.py:25 | (255, 0, 16) is written `#ff0010` |
| `Classifier.GetColorName` | color_detection.py:16-21 | the table's name when the colour is in the table, the literal "Unknown" when it is not; the result is always one of these and the call never fails |
| `Classifier.Classify` | color_detection.py:104-110 | the reported triple is the sample, its hex code parses back to the sample, and its name is the one `get_color_name` gives |
| `Overlay.Panel.constructor` | color_detection.py:45 | a new 220×400 buffer with every pixel zero |
| `Overlay.Panel.FillSwatch` | color_detection.py:49 | every pixel of rows [10,190) × columns [10,160) becomes the colour reversed to BGR; every other pixel is unchanged |
| `Overlay.DrawColorOverlay` | color_detection.py:43-61 | a fresh 220×400 panel whose swatch pixels equal the colour in BGR order and whose other pixels are black; no existing buffer is touched |
| `Overlay.RenderTwice` | color_detection.py:43-61 | rendering the same colour twice gives pixel-identical panels |
| `Interaction.QuitRequested` | color_detection.py:131 | for a key code in 0..255 the loop ends exactly when the code is 'x' |
| `Interaction.QuitIgnoresHighBits` | color_detection.py:131 | adding any multiple of 256 to the key code (high bits, or the negative "no key" code) does not change the quit test; with the previous row this decides every key code |
| `Interaction.QuitKeys` | color_detection.py:131 | no key (-1) and 'q' do not end the loop; 'x' does, also with bits set above the low byte |
| `Interaction.SolidRedClassified` | color_detection.py:104-107 | a 21×21 solid red frame sampled at its centre is reported as (255, 0, 0) with hex code `#ff0000` |
| `Interaction.ClickState.constructor` | color_detection.py:6-7 | at start there is no click and nothing pending |
| `Interaction.ClickState.OnMouse` | color_detection.py:9-14 | a left-button-down sets both coordinates to the event's and raises the pending flag; any other event changes none of the three |
| `Interaction.ClickState.Marker` | color_detection.py:94-95 | the marker is drawn exactly when a click has been recorded, at the last click's coordinates |
| `Interaction.ClickState.Step` | color_detection.py:101-128 | a sample is produced exactly when a click was pending and lies inside the raw frame; it is the classification of the filtered frame's average at the click; the flag ends lowered in every case and the coordinates are kept |
| `Interaction.ClickState.Tick` | color_detection.py:94-128 | one loop pass: the marker comes from the state on entry, and a fresh overlay of the sample's colour is produced exactly when a sample is |
| `Interaction.LastClickWins` | color_detection.py:12-14 | with two clicks before the next pass, the later click is the one sampled or rejected |
| `Interaction.OutOfBoundsClick` | color_detection.py:126-128 | a click at x = frame width produces no sample, lowers the flag and keeps the marker at the click |

Members without a row are helpers: `Sampler.Count` and `Sampler.Means` (the
pixel count and the three channel means that `Sampler.AverageColor` is built
from), `Sampler.Max`, `Sampler.Min`, the arithmetic lemmas `Sampler.MulMonotone`,
`Sampler.ProductBound`, `Sampler.MulAdd`, `Sampler.DivFloor`,
`Sampler.FloorUnique`, `Sampler.QuotientAtMost255`, the induction steps
`Sampler.CountRectangle`, `Sampler.RowTotalUniform`, `Sampler.TotalUniform`,
`Sampler.MeansUniform`, and `Classifier.ByteAt`.

## Left out

- Median filter (`cv2.medianBlur`, line 41): a library call. The model takes the filtered frame as an input. It requires only that it has the raw frame's shape, which is the filter's contract.
- HSV conversion (line 91): its result is never used.
- Video capture, windows, `imshow`, `setMouseCallback`, `waitKey`, `release`, `destroyAllWindows`: I/O. The quit test on the key code is kept as `Interaction.QuitRequested`.
- Drawing calls `cv2.drawMarker`, `cv2.rectangle`, `cv2.putText`: opaque library rendering. The marker is modelled as the coordinate it is drawn at.
- Overlay.DrawColorOverlay: does not take the `img`, `color_name` and `color_hex` arguments. `img` is never read, and the other two are only drawn as text. The modelled panel therefore has black where the library draws white text (columns from about 190 on). The two rectangles are drawn in black on a zero buffer, so outside the swatch they change no pixel.
- Colour-name table: the contents of `webcolors`' table are external. It is a `map` from triples to names, and only its found/not-found contract is used.
- Float arithmetic: the numpy float64 mean is modelled by integer floor division, which gives the same truncated value here (see above).
- Sampler.AverageColor: requires a non-empty clamped window, so two behaviours of `average_color` on clicks outside the frame are not modelled. First, numpy's mean over an empty region is NaN. Second, when x + size < 0 (or y + size < 0) lines 30/32 give a negative slice stop, which numpy counts from the end of the axis at line 34: for width 100, x = -15, size 10 the model's window [0, -5) is empty, while `img[..., 0:-5]` has 95 columns and gives a real mean over a region far from the click. Neither case is reachable from `main`: line 102 passes only clicks with 0 <= x < width and 0 <= y < height, for which the window is non-empty and its stops are positive (`Sampler.ValidClickWindow`).
- Classifier.ColorToHex: takes 8-bit channels only. Python's `{:02x}` would also format negative or wider integers, which `average_color` never returns.
- Concurrency: the callback runs on the GUI thread. Here `OnMouse` and `Step` are method calls interleaved one after another.
- Console output (`print`): output only.
