/**
  The embedded-graphics values the ST7789 drawing code works with (points, sizes,
  rectangles, pixels), and what filling a window of the panel paints.

  `Rectangle::bottom_right` and `Rectangle::intersection` belong to the embedded-graphics
  library, which is not part of this model; they are written here from their documented
  meaning. Coordinates are unbounded integers: the library's i32 arithmetic is assumed not
  to overflow. A coordinate handed to the driver is cast `as u16`, which keeps its low 16
  bits (`Wrap16`).
 */
module Geometry {
  import opened Bytes
  import opened Wrappers
  import opened Slices
  import opened Arith

  datatype Point = Point(x: int, y: int)
  datatype Size = Size(width: u32, height: u32)
  datatype Rectangle = Rectangle(topLeft: Point, size: Size)

  /** A pixel to draw: where, and its RGB565 value (`RawU16::from(color).into_inner()`). */
  datatype Pixel = Pixel(at: Point, color: u16)

  const Zero := Rectangle(Point(0, 0), Size(0, 0))

  /** Whether the point lies inside the rectangle. */
  predicate Contains(r: Rectangle, x: int, y: int) {
    r.topLeft.x <= x < r.topLeft.x + r.size.width && r.topLeft.y <= y < r.topLeft.y + r.size.height
  }

  /** `Rectangle::bottom_right`: the last column and row, inclusive; none for a rectangle
      with no area. */
  function BottomRight(r: Rectangle): (p: Option<Point>)
    ensures p.None? <==> r.size.width == 0 || r.size.height == 0
    ensures p.Some? ==> Contains(r, p.value.x, p.value.y)
    ensures p.Some? ==> forall x, y :: Contains(r, x, y) ==> x <= p.value.x && y <= p.value.y
  {
    if r.size.width > 0 && r.size.height > 0 then
      Some(Point(r.topLeft.x + r.size.width - 1, r.topLeft.y + r.size.height - 1))
    else None
  }

  function Max(a: int, b: int): int { if a >= b then a else b }

  /** `Rectangle::intersection`: the overlap, or a rectangle with no area when there is none. */
  function Intersect(a: Rectangle, b: Rectangle): (r: Rectangle)
  {
    if a.size.width == 0 || a.size.height == 0 || b.size.width == 0 || b.size.height == 0 then Zero
    else
      var left, top := Max(a.topLeft.x, b.topLeft.x), Max(a.topLeft.y, b.topLeft.y);
      var right := Min(a.topLeft.x + a.size.width, b.topLeft.x + b.size.width);
      var bottom := Min(a.topLeft.y + a.size.height, b.topLeft.y + b.size.height);
      if left < right && top < bottom then Rectangle(Point(left, top), Size(right - left, bottom - top))
      else Zero
  }

  /** A point is in the intersection exactly when it is in both rectangles. */
  lemma IntersectContains(a: Rectangle, b: Rectangle, x: int, y: int)
    ensures Contains(Intersect(a, b), x, y) <==> Contains(a, x, y) && Contains(b, x, y)
  {
  }

  /** The intersection is no larger than either rectangle. */
  lemma IntersectSize(a: Rectangle, b: Rectangle)
    ensures Intersect(a, b).size.width <= a.size.width && Intersect(a, b).size.width <= b.size.width
    ensures Intersect(a, b).size.height <= a.size.height && Intersect(a, b).size.height <= b.size.height
  {
  }

  // ---------------------------------------------------------------------------------
  // What a window fill paints

  /** One pixel of panel memory written: column, row, colour. */
  datatype Dot = Dot(x: u16, y: u16, color: u16)

  /** How the panel reads a pixel's coordinates (`coord.x as u16`, `coord.y as u16`). */
  function DotOf(p: Pixel): Dot {
    Dot(Wrap16(p.at.x), Wrap16(p.at.y), p.color)
  }

  function DotsOf(pixels: seq<Pixel>): (ds: seq<Dot>)
    ensures |ds| == |pixels|
  {
    seq(|pixels|, i requires 0 <= i < |pixels| => DotOf(pixels[i]))
  }

  /** The number of columns of the inclusive window from column sx to column ex (u16
      arithmetic, wrapping). */
  function Width(sx: u16, ex: u16): (w: nat)
    ensures 1 <= w <= 0x1_0000
  {
    Wrap16(ex - sx) + 1
  }

  /** Colours written along row y from column x on, one column each. */
  function RowDots(x: u16, y: u16, colors: seq<u16>): (ds: seq<Dot>)
    ensures |ds| == |colors|
  {
    seq(|colors|, k requires 0 <= k < |colors| => Dot(Wrap16(x + k), y, colors[k]))
  }

  /** The rows of a window fill: colour row j goes to row sy + j. */
  function WindowLines(sx: u16, sy: u16, pieces: seq<seq<u16>>): (lines: seq<seq<Dot>>)
    ensures |lines| == |pieces|
  {
    seq(|pieces|, j requires 0 <= j < |pieces| => RowDots(sx, Wrap16(sy + j), pieces[j]))
  }

  /** A window fill (`set_pixels(sx, sy, ex, ey, colors)`): the panel lays the colours out
      row by row from the top-left corner, `Width(sx, ex)` to a row. */
  function WindowDots(sx: u16, sy: u16, ex: u16, colors: seq<u16>): seq<Dot> {
    Concat(WindowLines(sx, sy, Chunks(colors, Width(sx, ex))))
  }

  /** Filling a window one row high paints the colours along that row. */
  lemma OneLine(sx: u16, sy: u16, ex: u16, colors: seq<u16>)
    requires 0 < |colors| <= Width(sx, ex)
    ensures WindowDots(sx, sy, ex, colors) == RowDots(sx, sy, colors)
  {
    var lines := WindowLines(sx, sy, Chunks(colors, Width(sx, ex)));
    assert lines == [RowDots(sx, sy, colors)];
    assert Concat(lines) == lines[0] + Concat(lines[1..]);
  }

  /** Each colour lands on its own pixel: in a w-wide window, colour j·w + k is painted at
      column sx + k of row sy + j. */
  lemma {:induction false} WindowDotAt(sx: u16, sy: u16, ex: u16, colors: seq<u16>, j: nat, k: nat)
    requires k < Width(sx, ex) && Mul(j, Width(sx, ex)) + k < |colors|
    ensures |WindowDots(sx, sy, ex, colors)| == |colors|
    ensures var i := Mul(j, Width(sx, ex)) + k;
      WindowDots(sx, sy, ex, colors)[i] == Dot(Wrap16(sx + k), Wrap16(sy + j), colors[i])
    decreases j
  {
    var w := Width(sx, ex);
    WindowDotsLength(sx, sy, ex, colors);
    if j == 0 {
      FirstLine(sx, sy, ex, colors, k);
    } else {
      var rest, next, m := colors[w..], Wrap16(sy + 1), j - 1;
      assert Mul(j, w) == Mul(m, w) + w;
      WindowDotAt(sx, next, ex, rest, m, k);
      DropLine(sx, sy, ex, colors);
      assert Wrap16(next + m) == Wrap16(sy + j);
    }
  }

  /** The first w colours of a w-wide window fill its top row. */
  lemma FirstLine(sx: u16, sy: u16, ex: u16, colors: seq<u16>, k: nat)
    requires k < Width(sx, ex) && k < |colors|
    ensures k < |WindowDots(sx, sy, ex, colors)|
    ensures WindowDots(sx, sy, ex, colors)[k] == Dot(Wrap16(sx + k), sy, colors[k])
  {
    var w := Width(sx, ex);
    var pieces := Chunks(colors, w);
    var lines := WindowLines(sx, sy, pieces);
    assert Concat(lines) == lines[0] + Concat(lines[1..]);
    if |colors| <= w {
      assert pieces[0] == colors;
    } else {
      assert pieces[0] == colors[..w];
    }
    assert Wrap16(sy + 0) == sy;
  }

  /** Past its first w colours, a w-wide fill goes on as a fill of the rest, one row lower. */
  lemma DropLine(sx: u16, sy: u16, ex: u16, colors: seq<u16>)
    requires Width(sx, ex) < |colors|
    ensures |WindowDots(sx, sy, ex, colors)| == |colors|
    ensures WindowDots(sx, sy, ex, colors)[Width(sx, ex)..] == WindowDots(sx, Wrap16(sy + 1), ex, colors[Width(sx, ex)..])
  {
    var w := Width(sx, ex);
    var pieces := Chunks(colors, w);
    assert pieces == [colors[..w]] + Chunks(colors[w..], w);
    var lines := WindowLines(sx, sy, pieces);
    LinesShift(sx, sy, pieces);
    assert Concat(lines) == lines[0] + Concat(lines[1..]);
    assert |lines[0]| == w;
    WindowDotsLength(sx, sy, ex, colors);
  }

  /** A window fill paints one pixel per colour. */
  lemma {:induction false} WindowDotsLength(sx: u16, sy: u16, ex: u16, colors: seq<u16>)
    ensures |WindowDots(sx, sy, ex, colors)| == |colors|
    decreases |colors|
  {
    var w := Width(sx, ex);
    if colors == [] {
    } else if |colors| <= w {
      OneLine(sx, sy, ex, colors);
    } else {
      var rest, next := colors[w..], Wrap16(sy + 1);
      var pieces := Chunks(colors, w);
      assert pieces == [colors[..w]] + Chunks(rest, w);
      var lines := WindowLines(sx, sy, pieces);
      LinesShift(sx, sy, pieces);
      assert Concat(lines) == lines[0] + Concat(lines[1..]);
      WindowDotsLength(sx, next, ex, rest);
    }
  }

  /** One more colour row adds one more row of the fill, below the others. */
  lemma LinesSnoc(sx: u16, sy: u16, pieces: seq<seq<u16>>, piece: seq<u16>)
    ensures WindowLines(sx, sy, pieces + [piece]) == WindowLines(sx, sy, pieces) + [RowDots(sx, Wrap16(sy + |pieces|), piece)]
  {
  }

  /** Dropping the first colour row moves the rest of the fill one row down. */
  lemma LinesShift(sx: u16, sy: u16, pieces: seq<seq<u16>>)
    requires |pieces| > 0
    ensures WindowLines(sx, sy, pieces)[1..] == WindowLines(sx, Wrap16(sy + 1), pieces[1..])
  {
    var a, b := WindowLines(sx, sy, pieces)[1..], WindowLines(sx, Wrap16(sy + 1), pieces[1..]);
    forall j | 0 <= j < |b|
      ensures a[j] == b[j]
    {
      assert Wrap16(sy + (j + 1)) == Wrap16(Wrap16(sy + 1) + j);
    }
  }
}
