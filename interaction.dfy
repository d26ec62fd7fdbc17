/** The click state machine: the mouse callback records a click and raises the
    pending flag; each pass of the frame loop draws the marker at the last click,
    then either samples the click or rejects it, and in both cases lowers the
    flag. */
module Interaction {
  import opened Wrappers
  import opened Pixels
  import opened Sampler
  import opened Classifier
  import opened Overlay

  /** OpenCV's code for a left-button-down mouse event (`cv2.EVENT_LBUTTONDOWN`). */
  const EventLButtonDown: int := 1

  /** The key that ends the loop. */
  const QuitKey: char := 'x'

  /** `cv2.waitKey(1) & 0xFF == ord('x')`: the low byte of the key code is
      'x'. Python's `& 0xFF` keeps the low eight bits of any integer, which is
      its non-negative remainder modulo 256 (so "no key", -1, reads as 255). */
  predicate QuitRequested(key: int): (quit: bool)
    ensures 0 <= key < 256 ==> (quit <==> key == QuitKey as int)
  {
    key % 256 == QuitKey as int
  }

  /** Only the low byte of the key code matters: adding any multiple of 256
      (bits above the low byte, or a negative code) does not change the test.
      With the low-byte case of QuitRequested this decides every key code. */
  lemma {:induction false} QuitIgnoresHighBits(key: int, k: int)
    ensures QuitRequested(key + 256 * k) == QuitRequested(key)
  {
    var q, r := key / 256, key % 256;
    assert key == 256 * q + r && 0 <= r < 256;
    assert key + 256 * k == 256 * (q + k) + r;
  }

  /** No key pressed (-1) and 'q' do not end the loop; 'x' does, also with
      modifier bits above the low byte. */
  lemma QuitKeys()
    ensures !QuitRequested(-1) && !QuitRequested('q' as int)
    ensures QuitRequested('x' as int) && QuitRequested(0x10000 + 'x' as int)
  {
  }

  /** The 21×21 solid red frame sampled at its centre with the default window
      is classified as (255, 0, 0) with hex code "#ff0000". */
  lemma SolidRedClassified(img: Image, table: map<Triple, string>)
    requires img.Valid() && img.width == 21 && img.Height() == 21
    requires forall i, j :: 0 <= i < 21 && 0 <= j < 21 ==> img.rows[i][j] == (0, 0, 255)
    ensures var c := Classify(table, AverageColor(img, 10, 10, DefaultSize));
      c.rgb == (255, 0, 0) && c.hex == "#ff0000"
  {
    ValidClickWindow(img, 10, 10, DefaultSize);
    SolidRedFrame(img);
    assert Hex2(255) == "ff" && Hex2(0) == "00";
  }

  /** The program's global click state: `click_x`, `click_y`, `color_updated`. */
  class ClickState {
    var clickX: Option<int>
    var clickY: Option<int>
    var colorUpdated: bool

    /** Both coordinates are set together, and a pending click has coordinates. */
    ghost predicate Valid()
      reads this
    {
      clickX.Some? == clickY.Some? && (colorUpdated ==> clickX.Some?)
    }

    /** Start-up: no click yet, nothing pending. */
    constructor ()
      ensures Valid() && clickX == None && clickY == None && !colorUpdated
    {
      clickX, clickY := None, None;
      colorUpdated := false;
    }

    /** `mouse_callback`: a left-button-down records the coordinates and marks a
        sample as pending; every other event changes nothing. */
    method OnMouse(event: int, x: int, y: int)
      requires Valid()
      modifies this
      ensures Valid()
      ensures event == EventLButtonDown ==> clickX == Some(x) && clickY == Some(y) && colorUpdated
      ensures event != EventLButtonDown ==>
        clickX == old(clickX) && clickY == old(clickY) && colorUpdated == old(colorUpdated)
    {
      if event == EventLButtonDown {
        clickX, clickY := Some(x), Some(y);
        colorUpdated := true;
      }
    }

    /** Where the crosshair is drawn: at the last click, once there has been one. */
    function Marker(): (m: Option<(int, int)>)
      reads this
      requires Valid()
      ensures m.Some? <==> clickX.Some?
      ensures m.Some? ==> m.value == (clickX.value, clickY.value)
    {
      if clickX.Some? && clickY.Some? then Some((clickX.value, clickY.value)) else None
    }

    /** The click processing of one loop pass. `raw` is the captured frame the
        bounds are checked against; `filtered` is its median-filtered copy, of
        the same shape, which is sampled. A pending click inside the frame is
        sampled and classified; one outside is rejected; either way the flag is
        lowered and the coordinates stay for the marker. */
    method Step(raw: Image, filtered: Image, table: map<Triple, string>) returns (sample: Option<Classified>)
      requires Valid() && raw.Valid() && filtered.Valid() && SameShape(raw, filtered)
      modifies this
      ensures Valid() && !colorUpdated
      ensures clickX == old(clickX) && clickY == old(clickY)
      ensures sample.Some? <==> old(colorUpdated) && raw.InFrame(clickX.value, clickY.value)
      ensures sample.Some? ==>
        sample.value == Classify(table, AverageColor(filtered, clickX.value, clickY.value, DefaultSize))
    {
      sample := None;
      if colorUpdated {
        var x, y := clickX.value, clickY.value;
        if 0 <= x < raw.width && 0 <= y < raw.Height() {
          ValidClickWindow(filtered, x, y, DefaultSize);
          var rgb := AverageColor(filtered, x, y, DefaultSize);
          var hex := ColorToHex(rgb);
          var name := GetColorName(table, rgb);
          sample := Some(Classified(rgb, hex, name));
          colorUpdated := false;
        } else {
          colorUpdated := false;
        }
      }
    }

    /** One pass of the frame loop after capture and filtering: the marker to
        draw on the raw frame (from the state on entry), the click processing,
        and a fresh overlay exactly when a sample was produced. */
    method Tick(raw: Image, filtered: Image, table: map<Triple, string>)
      returns (marker: Option<(int, int)>, sample: Option<Classified>, panel: Option<Panel>)
      requires Valid() && raw.Valid() && filtered.Valid() && SameShape(raw, filtered)
      modifies this
      ensures Valid() && !colorUpdated
      ensures clickX == old(clickX) && clickY == old(clickY)
      ensures marker == Marker()
      ensures sample.Some? <==> old(colorUpdated) && raw.InFrame(clickX.value, clickY.value)
      ensures sample.Some? ==>
        sample.value == Classify(table, AverageColor(filtered, clickX.value, clickY.value, DefaultSize))
      ensures panel.Some? <==> sample.Some?
      ensures panel.Some? ==>
        fresh(panel.value) && fresh(panel.value.pixels) &&
        panel.value.pixels.Length0 == PanelHeight && panel.value.pixels.Length1 == PanelWidth &&
        forall i, j :: 0 <= i < PanelHeight && 0 <= j < PanelWidth ==>
          panel.value.pixels[i, j] == PanelPixel(sample.value.rgb, i, j)
    {
      marker := Marker();
      sample := Step(raw, filtered, table);
      panel := None;
      if sample.Some? {
        var p := DrawColorOverlay(sample.value.rgb);
        panel := Some(p);
      }
    }
  }

  /** Two clicks before the next loop pass: the later one is the one sampled,
      and the earlier one is not sampled separately. */
  method LastClickWins(s: ClickState, x1: int, y1: int, x2: int, y2: int,
                       raw: Image, filtered: Image, table: map<Triple, string>)
    returns (sample: Option<Classified>)
    requires s.Valid() && raw.Valid() && filtered.Valid() && SameShape(raw, filtered)
    modifies s
    ensures s.Valid() && !s.colorUpdated && s.clickX == Some(x2) && s.clickY == Some(y2)
    ensures sample.Some? <==> raw.InFrame(x2, y2)
    ensures sample.Some? ==> sample.value == Classify(table, AverageColor(filtered, x2, y2, DefaultSize))
  {
    s.OnMouse(EventLButtonDown, x1, y1);
    s.OnMouse(EventLButtonDown, x2, y2);
    sample := s.Step(raw, filtered, table);
  }

  /** A click one column past the right edge produces no sample, lowers the
      flag, and leaves the marker where the click was. */
  method OutOfBoundsClick(s: ClickState, raw: Image, filtered: Image, table: map<Triple, string>, y: int)
    returns (sample: Option<Classified>)
    requires s.Valid() && raw.Valid() && filtered.Valid() && SameShape(raw, filtered)
    modifies s
    ensures sample == None && !s.colorUpdated && s.Valid()
    ensures s.Marker() == Some((raw.width, y))
  {
    s.OnMouse(EventLButtonDown, raw.width, y);
    sample := s.Step(raw, filtered, table);
  }
}
