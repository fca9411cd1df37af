/**
  The drawing helpers of the 240×240 ST7789 set-up (usb_screen/src/st7789_240x240.rs).
  Unlike those of the interface file they give the driver the window's end corners,
  `x + width - 1` and `y + height - 1`, computed in u16 arithmetic. Its `send_u8` is the
  same as the interface file's and is modelled there (`St7789Interface.SpiInterface`); the
  driver is the same kind of sink of calls (`St7789.ST7789`).
 */
module St7789Panel240 {
  import opened Bytes
  import opened Arith
  import opened Geometry
  import opened St7789

  /** `start + count - 1` in u16 arithmetic: the last of `count` columns (or rows) from
      `start`; a count of 0 wraps to the one before `start`. */
  function LastOf(start: u16, count: u16): (r: u16)
    ensures 0 < count && start + count <= 0x1_0000 ==> r == start + count - 1
    ensures count == 0 ==> r == Wrap16(start - 1)
  {
    Wrap16(start as int + count - 1)
  }

  /** The `set_pixels` call over the rectangle of `width`×`height` at (x, y). */
  function RectCall(x: u16, y: u16, width: u16, height: u16, colors: seq<u16>): Call {
    Call.SetPixels(x, y, LastOf(x, width), LastOf(y, height), colors)
  }

  /** A rectangle that fits in u16 range is filled row by row: colour j·width + k is painted
      at column x + k of row y + j. */
  lemma RectPaints(x: u16, y: u16, width: u16, height: u16, colors: seq<u16>, j: nat, k: nat)
    requires x + width <= 0x1_0000 && y + height <= 0x1_0000
    requires k < width && j < height && Mul(j, width) + k < |colors|
    ensures var i, ds := Mul(j, width) + k, Painted([RectCall(x, y, width, height, colors)]);
      |ds| == |colors| && ds[i] == Dot(x + k, y + j, colors[i])
  {
    var c := RectCall(x, y, width, height, colors);
    assert Width(x, LastOf(x, width)) == width;
    WindowDotAt(x, y, LastOf(x, width), colors, j, k);
    assert Painted([c]) == CallDots(c) + Painted([]);
  }

  /** `clear_rect` paints every pixel of a rectangle that fits in u16 range with the
      colour, one colour per pixel. */
  lemma ClearRectFills(color: u16, x: u16, y: u16, width: u16, height: u16, j: nat, k: nat)
    requires x + width <= 0x1_0000 && y + height <= 0x1_0000
    requires k < width && j < height
    ensures var i, ds := Mul(j, width) + k, Painted([RectCall(x, y, width, height, Repeat(color, width * height))]);
      |ds| == width * height && i < |ds| && ds[i] == Dot(x + k, y + j, color)
  {
    MulMono(j + 1, height, width);
    MulIsProduct(height, width);
    RectPaints(x, y, width, height, Repeat(color, width * height), j, k);
  }

  /** A width of 0 underflows: the window then spans all 65536 columns. */
  lemma ZeroWidthWraps(x: u16, y: u16, height: u16, colors: seq<u16>)
    ensures var c := RectCall(x, y, 0, height, colors); Width(c.sx, c.ex) == 0x1_0000
  {
  }

  /** `draw_rgb565_le`. False: the image has an odd length, and reading the last pair
      panics. */
  method DrawRgb565Le(display: ST7789, image: seq<u8>, x: u16, y: u16, width: u16, height: u16) returns (ok: bool)
    modifies display`calls
    ensures ok <==> |image| % 2 == 0
    ensures ok ==> display.calls == old(display.calls) + [RectCall(x, y, width, height, LePairs(image))]
    ensures !ok ==> display.calls == old(display.calls)
  {
    if |image| % 2 != 0 {
      return false;
    }
    display.SetPixels(x, y, LastOf(x, width), LastOf(y, height), LePairs(image));
    ok := true;
  }

  /** `draw_rgb565_u8`: the same, with big-endian pairs. */
  method DrawRgb565U8(display: ST7789, image: seq<u8>, x: u16, y: u16, width: u16, height: u16) returns (ok: bool)
    modifies display`calls
    ensures ok <==> |image| % 2 == 0
    ensures ok ==> display.calls == old(display.calls) + [RectCall(x, y, width, height, BePairs(image))]
    ensures !ok ==> display.calls == old(display.calls)
  {
    if |image| % 2 != 0 {
      return false;
    }
    display.SetPixels(x, y, LastOf(x, width), LastOf(y, height), BePairs(image));
    ok := true;
  }

  /** `clear_rect`: width·height copies of the colour. */
  method ClearRect(display: ST7789, color: u16, x: u16, y: u16, width: u16, height: u16)
    modifies display`calls
    ensures display.calls == old(display.calls) + [RectCall(x, y, width, height, Repeat(color, width * height))]
  {
    display.SetPixels(x, y, LastOf(x, width), LastOf(y, height), Repeat(color, width * height));
  }
}
