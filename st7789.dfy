/**
  The drawing entry points of the ST7789 driver: usb_screen/src/st7789/graphics.rs
  (`framebuffer_bounding_box`, `fill_contiguous`, `fill_solid`, `clear`, the unbatched
  `draw_iter`) and `draw_batch` of usb_screen/src/st7789/batch.rs.

  They all end in the driver's own primitives `set_pixel`, `set_pixels` and
  `set_pixels_u8`, which are not part of this model: each call to one of them is recorded
  in `calls`, with its arguments and the colours its iterator yields. `Painted` reads a
  call list as the pixels it writes, taking a window fill to lay its colours out row by row
  from the top-left corner (see `Geometry.WindowDots`).
 */
module St7789 {
  import opened Bytes
  import opened Wrappers
  import opened Slices
  import opened Arith
  import opened Geometry
  import opened St7789Batch

  datatype Orientation = Portrait | Landscape | PortraitSwapped | LandscapeSwapped

  /** A call into the driver's primitives; windows are given by inclusive corners. */
  datatype Call =
    | SetPixel(x: u16, y: u16, color: u16)
    | SetPixels(sx: u16, sy: u16, ex: u16, ey: u16, colors: seq<u16>)
    | SetPixelsU8(sx: u16, sy: u16, ex: u16, ey: u16, bytes: seq<u8>)

  /** What one call writes; the bytes of `set_pixels_u8` are big-endian RGB565 pairs. */
  function CallDots(c: Call): seq<Dot> {
    match c
    case SetPixel(x, y, color) => [Dot(x, y, color)]
    case SetPixels(sx, sy, ex, _, colors) => WindowDots(sx, sy, ex, colors)
    case SetPixelsU8(sx, sy, ex, _, bytes) => WindowDots(sx, sy, ex, BePairs(bytes))
  }

  /** What a sequence of calls writes, in order. */
  function Painted(calls: seq<Call>): seq<Dot>
    decreases |calls|
  {
    if calls == [] then [] else CallDots(calls[0]) + Painted(calls[1..])
  }

  // ---------------------------------------------------------------------------------
  // What each entry point calls

  /** `framebuffer_bounding_box`: 240×320 upright, 320×240 on its side, at the origin. */
  function BoundingBox(o: Orientation): Rectangle {
    Rectangle(Point(0, 0), if o.Portrait? || o.PortraitSwapped? then Size(240, 320) else Size(320, 240))
  }

  /** `area.size.width * area.size.height` in u32 arithmetic (wrapping). */
  function Area32(s: Size): u32 {
    (s.width * s.height) % 0x1_0000_0000
  }

  /** One `set_pixels` over the area's corners, cast `as u16`, when the area has a bottom
      right corner; nothing otherwise. */
  function AreaCalls(area: Rectangle, colors: seq<u16>): seq<Call> {
    match BottomRight(area)
    case None => []
    case Some(br) => [SetPixels(Wrap16(area.topLeft.x), Wrap16(area.topLeft.y), Wrap16(br.x), Wrap16(br.y), colors)]
  }

  /** `fill_contiguous`: at most width·height of the colours, into the area's window. */
  function ContiguousCalls(area: Rectangle, colors: seq<u16>): seq<Call> {
    AreaCalls(area, colors[..Min(|colors|, Area32(area.size))])
  }

  /** `fill_solid`: width·height copies of the colour into the window of the area clipped to
      the framebuffer. */
  function SolidCalls(o: Orientation, area: Rectangle, color: u16): seq<Call> {
    var clipped := Intersect(area, BoundingBox(o));
    AreaCalls(clipped, Repeat(color, Area32(clipped.size)))
  }

  /** `clear`: 240·320 copies of the colour into the whole panel. */
  function ClearCalls(o: Orientation, color: u16): seq<Call> {
    if o.Portrait? || o.PortraitSwapped? then [SetPixels(0, 0, 239, 319, Repeat(color, 240 * 320))]
    else [SetPixels(0, 0, 319, 239, Repeat(color, 240 * 320))]
  }

  /** The unbatched `draw_iter`: one `set_pixel` per pixel, coordinates cast `as u16`. */
  function PixelCalls(pixels: seq<Pixel>): (calls: seq<Call>)
    ensures |calls| == |pixels|
  {
    seq(|pixels|, i requires 0 <= i < |pixels| => SetPixel(DotOf(pixels[i]).x, DotOf(pixels[i]).y, pixels[i].color))
  }

  /** `draw_batch`: one `set_pixels` per block, over the block's corners. */
  function BlockCalls(blocks: seq<PixelBlock>): (calls: seq<Call>)
    ensures |calls| == |blocks|
  {
    seq(|blocks|, i requires 0 <= i < |blocks| =>
      SetPixels(blocks[i].xLeft, blocks[i].yTop, blocks[i].xRight, blocks[i].yBottom, blocks[i].colors))
  }

  // ---------------------------------------------------------------------------------
  // What the calls paint

  /** Drawing pixel by pixel writes each pixel, in order. */
  lemma {:induction false} PixelCallsPaint(pixels: seq<Pixel>)
    ensures Painted(PixelCalls(pixels)) == DotsOf(pixels)
    decreases |pixels|
  {
    if pixels != [] {
      PixelCallsPaint(pixels[1..]);
      assert PixelCalls(pixels)[1..] == PixelCalls(pixels[1..]);
      PixelsCons(pixels);
    }
  }

  /** Sending the blocks writes what the blocks paint. */
  lemma {:induction false} BlockCallsPaint(blocks: seq<PixelBlock>)
    ensures Painted(BlockCalls(blocks)) == Concat(BlockLines(blocks))
    decreases |blocks|
  {
    if blocks != [] {
      BlockCallsPaint(blocks[1..]);
      assert BlockCalls(blocks)[1..] == BlockCalls(blocks[1..]);
    }
  }

  /** The batched `draw_iter` (`draw_batch`) and the unbatched one write the same pixels
      with the same colours in the same order, and that is the pixels asked for. */
  lemma BatchedLikeUnbatched(pixels: seq<Pixel>)
    ensures Painted(BlockCalls(Blocks(Rows(pixels)))) == DotsOf(pixels)
    ensures Painted(BlockCalls(Blocks(Rows(pixels)))) == Painted(PixelCalls(pixels))
  {
    BatchCovers(pixels);
    BlockCallsPaint(Blocks(Rows(pixels)));
    PixelCallsPaint(pixels);
  }

  /** Only an area with a bottom right corner is drawn: a zero-area rectangle makes no call. */
  lemma ZeroAreaDrawsNothing(o: Orientation, area: Rectangle, colors: seq<u16>, color: u16)
    ensures ContiguousCalls(area, colors) == [] <==> area.size.width == 0 || area.size.height == 0
    ensures area.size.width == 0 || area.size.height == 0 ==> SolidCalls(o, area, color) == []
  {
    if area.size.width == 0 || area.size.height == 0 {
      IntersectSize(area, BoundingBox(o));
    }
  }

  /** For an area on the panel, `fill_contiguous` lays the colours out over the area row by
      row: colour j·width + k goes to column x + k of row y + j. */
  lemma ContiguousPaintsArea(area: Rectangle, colors: seq<u16>, j: nat, k: nat)
    requires 0 <= area.topLeft.x && area.topLeft.x + area.size.width <= 0x1_0000
    requires 0 <= area.topLeft.y && area.topLeft.y + area.size.height <= 0x1_0000
    requires k < area.size.width && j < area.size.height
    requires Mul(j, area.size.width) + k < |colors| && |colors| <= Area32(area.size)
    ensures var i := Mul(j, area.size.width) + k;
      ContiguousCalls(area, colors) == [AreaCalls(area, colors)[0]]
      && i < |Painted(ContiguousCalls(area, colors))|
      && Painted(ContiguousCalls(area, colors))[i] == Dot(area.topLeft.x + k, area.topLeft.y + j, colors[i])
  {
    var x, y := area.topLeft.x, area.topLeft.y;
    var br := BottomRight(area).value;
    assert colors[..Min(|colors|, Area32(area.size))] == colors;
    var c := AreaCalls(area, colors)[0];
    assert c == SetPixels(x, y, br.x, br.y, colors);
    assert Width(x, br.x) == area.size.width;
    WindowDotAt(x, y, br.x, colors, j, k);
    assert Painted([c]) == CallDots(c) + Painted([]);
  }

  /** The window of an area that lies within u16 range is the area's own corners. */
  lemma AreaCallWindow(r: Rectangle, colors: seq<u16>)
    requires r.size.width > 0 && r.size.height > 0
    requires 0 <= r.topLeft.x && r.topLeft.x + r.size.width <= 0x1_0000
    requires 0 <= r.topLeft.y && r.topLeft.y + r.size.height <= 0x1_0000
    ensures AreaCalls(r, colors) == [SetPixels(r.topLeft.x, r.topLeft.y,
      r.topLeft.x + r.size.width - 1, r.topLeft.y + r.size.height - 1, colors)]
  {
  }

  /** `fill_solid` writes only inside the framebuffer, only `color`, and exactly as many
      colours as its clipped window holds. */
  lemma SolidStaysOnPanel(o: Orientation, area: Rectangle, color: u16)
    ensures var calls := SolidCalls(o, area, color);
      |calls| <= 1
      && (|calls| == 1 ==>
        var c, box := calls[0], BoundingBox(o);
        c.SetPixels? && c.sx <= c.ex < box.size.width && c.sy <= c.ey < box.size.height
        && |c.colors| == (c.ex - c.sx + 1) * (c.ey - c.sy + 1)
        && forall i :: 0 <= i < |c.colors| ==> c.colors[i] == color)
  {
    var box := BoundingBox(o);
    var clipped := Intersect(area, box);
    if BottomRight(clipped).Some? {
      var tl, br := clipped.topLeft, BottomRight(clipped).value;
      IntersectContains(area, box, tl.x, tl.y);
      IntersectContains(area, box, br.x, br.y);
      assert Contains(box, tl.x, tl.y) && Contains(box, br.x, br.y);
      var w, h := clipped.size.width, clipped.size.height;
      AreaCallWindow(clipped, Repeat(color, Area32(clipped.size)));
      SmallArea(clipped.size);
    }
  }

  /** A size that fits on the panel has no u32 overflow in its area. */
  lemma SmallArea(s: Size)
    requires s.width <= 320 && s.height <= 320
    ensures Area32(s) == s.width * s.height
  {
    MulBound(s.width, s.height, 320);
  }

  lemma MulBound(a: nat, b: nat, n: nat)
    requires a <= n && b <= n
    ensures a * b <= n * n
  {
    assert a * b <= n * b;
    assert n * b <= n * n;
  }

  /** Pixel (k, j) of a panel-sized fill from the origin gets the fill's colour. */
  lemma PanelDotAt(ex: u16, h: nat, color: u16, j: nat, k: nat)
    requires (ex == 239 && h == 320) || (ex == 319 && h == 240)
    requires k < Width(0, ex) && j < h
    ensures var i, ds := Mul(j, Width(0, ex)) + k, WindowDots(0, 0, ex, Repeat(color, 240 * 320));
      i < |ds| && ds[i] == Dot(k, j, color)
  {
    var w := Width(0, ex);
    MulMono(j + 1, h, w);
    MulIsProduct(h, w);
    WindowDotAt(0, 0, ex, Repeat(color, 240 * 320), j, k);
  }

  /** `clear` fills the whole framebuffer: its window is the bounding box, corner to corner,
      and pixel (k, j) of it gets `color`. */
  lemma ClearFillsPanel(o: Orientation, color: u16, j: nat, k: nat)
    requires k < BoundingBox(o).size.width && j < BoundingBox(o).size.height
    ensures var c, br := ClearCalls(o, color)[0], BottomRight(BoundingBox(o)).value;
      |ClearCalls(o, color)| == 1 && c.sx == 0 && c.sy == 0 && c.ex == br.x && c.ey == br.y
      && |c.colors| == BoundingBox(o).size.width * BoundingBox(o).size.height
    ensures var i := Mul(j, BoundingBox(o).size.width) + k;
      i < |Painted(ClearCalls(o, color))| && Painted(ClearCalls(o, color))[i] == Dot(k, j, color)
  {
    var c := ClearCalls(o, color)[0];
    assert Painted([c]) == CallDots(c) + Painted([]);
    if o.Portrait? || o.PortraitSwapped? {
      PanelDotAt(239, 320, color, j, k);
    } else {
      PanelDotAt(319, 240, color, j, k);
    }
  }

  // ---------------------------------------------------------------------------------
  // The driver

  class ST7789 {
    var orientation: Orientation
    /** Every call made to the driver's primitives so far. */
    var calls: seq<Call>

    constructor (orientation: Orientation)
      ensures this.orientation == orientation && calls == []
    {
      this.orientation := orientation;
      calls := [];
    }

    method SetPixel(x: u16, y: u16, color: u16)
      modifies this`calls
      ensures calls == old(calls) + [Call.SetPixel(x, y, color)]
    {
      calls := calls + [Call.SetPixel(x, y, color)];
    }

    method SetPixels(sx: u16, sy: u16, ex: u16, ey: u16, colors: seq<u16>)
      modifies this`calls
      ensures calls == old(calls) + [Call.SetPixels(sx, sy, ex, ey, colors)]
    {
      calls := calls + [Call.SetPixels(sx, sy, ex, ey, colors)];
    }

    method SetPixelsU8(sx: u16, sy: u16, ex: u16, ey: u16, bytes: seq<u8>)
      modifies this`calls
      ensures calls == old(calls) + [Call.SetPixelsU8(sx, sy, ex, ey, bytes)]
    {
      calls := calls + [Call.SetPixelsU8(sx, sy, ex, ey, bytes)];
    }

    /** `framebuffer_bounding_box`. */
    function FramebufferBoundingBox(): (r: Rectangle)
      reads this
      ensures r.topLeft == Point(0, 0) && r.size.width * r.size.height == 240 * 320
      ensures orientation.Portrait? || orientation.PortraitSwapped? ==> r.size == Size(240, 320)
      ensures orientation.Landscape? || orientation.LandscapeSwapped? ==> r.size == Size(320, 240)
    {
      BoundingBox(orientation)
    }

    /** The unbatched `draw_iter`. */
    method DrawIter(pixels: seq<Pixel>)
      modifies this`calls
      ensures calls == old(calls) + PixelCalls(pixels)
    {
      ghost var c0 := calls;
      for i := 0 to |pixels|
        invariant calls == c0 + PixelCalls(pixels[..i])
      {
        var color := pixels[i].color;
        var x := Wrap16(pixels[i].at.x);
        var y := Wrap16(pixels[i].at.y);
        SetPixel(x, y, color);
        assert PixelCalls(pixels[..i + 1]) == PixelCalls(pixels[..i]) + [Call.SetPixel(x, y, color)];
      }
      assert pixels[..|pixels|] == pixels;
    }

    /** `draw_batch`: rows, then blocks, then one `set_pixels` per block, in order. */
    method DrawBatch(pixels: seq<Pixel>)
      modifies this`calls
      ensures calls == old(calls) + BlockCalls(Blocks(Rows(pixels)))
    {
      var rows := new RowIterator(pixels);
      var blocks := new BlockIterator(rows);
      ghost var all := blocks.Remaining();
      ghost var done := 0;
      ghost var c0 := calls;
      while true
        invariant blocks.rows == rows && fresh(rows) && fresh(blocks) && blocks.Valid()
        invariant all == Blocks(Rows(pixels)) && done <= |all|
        invariant blocks.Remaining() == all[done..]
        invariant calls == c0 + BlockCalls(all[..done])
        decreases |blocks.Remaining()|
      {
        var b := blocks.Next();
        if b.None? {
          break;
        }
        var block := b.value;
        SetPixels(block.xLeft, block.yTop, block.xRight, block.yBottom, block.colors);
        assert all[..done + 1] == all[..done] + [block];
        assert BlockCalls(all[..done + 1]) == BlockCalls(all[..done]) + [Call.SetPixels(block.xLeft, block.yTop, block.xRight, block.yBottom, block.colors)];
        done := done + 1;
      }
      assert all[..done] == all;
    }

    /** The take-while of `fill_contiguous`: a counter goes up by one per colour read, and
        reading stops at the first colour for which it passes `max`. */
    method TakeCounted(colors: seq<u16>, max: u32) returns (taken: seq<u16>)
      ensures taken == colors[..Min(|colors|, max)]
    {
      var count: nat := 0;
      taken := [];
      var k := 0;
      while k < |colors|
        invariant k <= |colors| && count == k && k <= max && taken == colors[..k]
      {
        count := count + 1;
        if !(count <= max) {
          break;
        }
        taken := taken + [colors[k]];
        k := k + 1;
      }
    }

    /** `fill_contiguous`. */
    method FillContiguous(area: Rectangle, colors: seq<u16>)
      modifies this`calls
      ensures calls == old(calls) + ContiguousCalls(area, colors)
    {
      var br := BottomRight(area);
      if br.Some? {
        var max := Area32(area.size);
        var taken := TakeCounted(colors, max);
        var sx, sy := Wrap16(area.topLeft.x), Wrap16(area.topLeft.y);
        var ex, ey := Wrap16(br.value.x), Wrap16(br.value.y);
        SetPixels(sx, sy, ex, ey, taken);
      }
    }

    /** `fill_solid`. */
    method FillSolid(area: Rectangle, color: u16)
      modifies this`calls
      ensures calls == old(calls) + SolidCalls(orientation, area, color)
    {
      var clipped := Intersect(area, FramebufferBoundingBox());
      var br := BottomRight(clipped);
      if br.Some? {
        var max := Area32(clipped.size);
        var sx, sy := Wrap16(clipped.topLeft.x), Wrap16(clipped.topLeft.y);
        var ex, ey := Wrap16(br.value.x), Wrap16(br.value.y);
        SetPixels(sx, sy, ex, ey, Repeat(color, max));
      }
    }

    /** `clear`. */
    method Clear(color: u16)
      modifies this`calls
      ensures calls == old(calls) + ClearCalls(orientation, color)
    {
      var colors := Repeat(color, 240 * 320);
      match orientation
      case Portrait => SetPixels(0, 0, 239, 319, colors);
      case PortraitSwapped => SetPixels(0, 0, 239, 319, colors);
      case Landscape => SetPixels(0, 0, 319, 239, colors);
      case LandscapeSwapped => SetPixels(0, 0, 319, 239, colors);
    }
  }
}
