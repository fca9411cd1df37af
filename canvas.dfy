/**
  The RGB565 framebuffer `Canvas` of usb_screen/src/canvas.rs, its copy in
  usb_screen/src/splash/canvas.rs (which owns its buffer) and the `Canvas` of
  usb_screen/src/imageproc.rs:413-435.

  `draw_image` copies the rows of an image into the buffer: row r starts at
  y·width + x + r·width and is cut at the end of the buffer, never at the right edge of
  the canvas. `Painted` is what the copy loop leaves behind; `PaintedAt` and
  `PaintedOutside` say which index holds what.
 */
module Canvas {
  import opened Bytes
  import opened Arith
  import opened Slices

  /** The rows in the opposite order (`chunks(..).rev()`). */
  function Reversed(rows: seq<seq<u16>>): (out: seq<seq<u16>>)
    ensures |out| == |rows|
  {
    seq(|rows|, r requires 0 <= r < |rows| => rows[|rows| - 1 - r])
  }

  /** Every row back to front (`row.to_vec()` then `row.reverse()`). */
  function Mirrored(rows: seq<seq<u16>>): (out: seq<seq<u16>>)
    ensures |out| == |rows|
  {
    seq(|rows|, r requires 0 <= r < |rows| =>
      seq(|rows[r]|, j requires 0 <= j < |rows[r]| => rows[r][|rows[r]| - 1 - j]))
  }

  /** `run` written over `buf` from index `at` on. */
  function Overwrite(buf: seq<u16>, at: nat, run: seq<u16>): (out: seq<u16>)
    requires at + |run| <= |buf|
    ensures |out| == |buf|
  {
    buf[..at] + run + buf[at + |run|..]
  }

  /** The buffer after the copy loop of `draw_image`, `begin` being where the next row goes
      and `stride` the canvas width. A row that starts past the end of the buffer writes
      nothing, and neither does any row after it. */
  function Painted(buf: seq<u16>, stride: nat, begin: nat, w: nat, rows: seq<seq<u16>>): (out: seq<u16>)
    requires RowsOf(rows, w)
    ensures |out| == |buf|
    decreases |rows|
  {
    if rows == [] || begin > |buf| then buf
    else
      var end := Min(begin + w, |buf|);
      Painted(Overwrite(buf, begin, rows[0][..end - begin]), stride, begin + stride, w, rows[1..])
  }

  /** Painting row r of the remaining rows leaves the rows after it to paint. */
  lemma PaintedNext(target: seq<u16>, before: seq<u16>, after: seq<u16>, stride: nat, begin: nat, w: nat,
                    rows: seq<seq<u16>>, r: nat, next: nat, end: nat)
    requires RowsOf(rows, w) && r < |rows| && next == r + 1
    requires begin <= |before| && end == Min(begin + w, |before|)
    requires target == Painted(before, stride, begin, w, rows[r..])
    requires after == Overwrite(before, begin, rows[r][..end - begin])
    ensures target == Painted(after, stride, begin + stride, w, rows[next..])
  {
    assert rows[r..][1..] == rows[next..];
  }

  /** An index that no row's run covers keeps its value; this holds however the runs overlap. */
  lemma {:induction false} PaintedOutside(buf: seq<u16>, stride: nat, begin: nat, w: nat, rows: seq<seq<u16>>, k: nat)
    requires RowsOf(rows, w) && k < |buf|
    requires forall r :: 0 <= r < |rows| ==> !(begin + Mul(r, stride) <= k < begin + Mul(r, stride) + w)
    ensures Painted(buf, stride, begin, w, rows)[k] == buf[k]
    decreases |rows|
  {
    if rows != [] && begin <= |buf| {
      var end := Min(begin + w, |buf|);
      var next := Overwrite(buf, begin, rows[0][..end - begin]);
      assert Mul(0, stride) == 0;
      assert next[k] == buf[k];
      forall r | 0 <= r < |rows| - 1
        ensures !(begin + stride + Mul(r, stride) <= k < begin + stride + Mul(r, stride) + w)
      {
        assert Mul(r + 1, stride) == Mul(r, stride) + stride;
      }
      PaintedOutside(next, stride, begin + stride, w, rows[1..], k);
    }
  }

  /** When the rows are no longer than the stride their runs do not overlap, so pixel j of
      row r is found at begin + r·stride + j whenever that is inside the buffer. */
  lemma {:induction false} PaintedAt(buf: seq<u16>, stride: nat, begin: nat, w: nat, rows: seq<seq<u16>>, r: nat, j: nat, k: nat)
    requires RowsOf(rows, w) && w <= stride && r < |rows| && j < w
    requires k == begin + Mul(r, stride) + j && k < |buf|
    ensures Painted(buf, stride, begin, w, rows)[k] == rows[r][j]
    decreases r
  {
    var end := Min(begin + w, |buf|);
    var next := Overwrite(buf, begin, rows[0][..end - begin]);
    if r == 0 {
      assert next[k] == rows[0][j];
      forall r' | 0 <= r' < |rows| - 1
        ensures !(begin + stride + Mul(r', stride) <= k < begin + stride + Mul(r', stride) + w)
      {
      }
      PaintedOutside(next, stride, begin + stride, w, rows[1..], k);
    } else {
      PaintedAt(next, stride, begin + stride, w, rows[1..], r - 1, j, k);
    }
  }

  /** In canvas coordinates: pixel i of row r lands in canvas line y + r, column x + i. */
  lemma PlacedAt(buf: seq<u16>, width: nat, x: nat, y: nat, w: nat, rows: seq<seq<u16>>, r: nat, i: nat)
    requires RowsOf(rows, w) && w <= width && r < |rows| && i < w
    requires Mul(y + r, width) + x + i < |buf|
    ensures Painted(buf, width, Mul(y, width) + x, w, rows)[Mul(y + r, width) + x + i] == rows[r][i]
  {
    MulAdd(y, r, width);
    PaintedAt(buf, width, Mul(y, width) + x, w, rows, r, i, Mul(y + r, width) + x + i);
  }

  /** `draw_image`: image pixel (i, r) is canvas pixel (x + i, y + r) when that index is
      inside the buffer (for images no wider than the canvas). */
  lemma DrawnPixel(buf: seq<u16>, width: nat, x: nat, y: nat, image: seq<u16>, w: nat, r: nat, i: nat)
    requires 0 < w <= width && |image| % w == 0 && r < |image| / w && i < w
    requires Mul(y + r, width) + x + i < |buf|
    ensures Mul(r, w) + i < |image| && RowsOf(Chunks(image, w), w)
    ensures Painted(buf, width, Mul(y, width) + x, w, Chunks(image, w))[Mul(y + r, width) + x + i]
      == image[Mul(r, w) + i]
  {
    RowCount(|image|, w);
    ChunksShape(image, w, |image| / w);
    ChunksRow(image, w, |image| / w, r);
    PlacedAt(buf, width, x, y, w, Chunks(image, w), r, i);
  }

  /** No clip at the right edge: a pixel at or past column `width` of line y + r is written to
      line y + r + 1, column x + i - width. */
  lemma DrawnPixelSpills(buf: seq<u16>, width: nat, x: nat, y: nat, image: seq<u16>, w: nat, r: nat, i: nat)
    requires 0 < w <= width && |image| % w == 0 && r < |image| / w && i < w && x + i >= width
    requires Mul(y + r + 1, width) + (x + i - width) < |buf|
    ensures Mul(r, w) + i < |image| && RowsOf(Chunks(image, w), w)
    ensures Painted(buf, width, Mul(y, width) + x, w, Chunks(image, w))[Mul(y + r + 1, width) + (x + i - width)]
      == image[Mul(r, w) + i]
  {
    assert Mul(y + r + 1, width) + (x + i - width) == Mul(y + r, width) + x + i;
    DrawnPixel(buf, width, x, y, image, w, r, i);
  }

  /** `draw_image_flip_y`: canvas line y + r holds image row n - 1 - r. */
  lemma DrawnPixelFlipY(buf: seq<u16>, width: nat, x: nat, y: nat, image: seq<u16>, w: nat, r: nat, i: nat)
    requires 0 < w <= width && |image| % w == 0 && r < |image| / w && i < w
    requires Mul(y + r, width) + x + i < |buf|
    ensures Mul(|image| / w - 1 - r, w) + i < |image| && RowsOf(Reversed(Chunks(image, w)), w)
    ensures Painted(buf, width, Mul(y, width) + x, w, Reversed(Chunks(image, w)))[Mul(y + r, width) + x + i]
      == image[Mul(|image| / w - 1 - r, w) + i]
  {
    var n := |image| / w;
    RowCount(|image|, w);
    ChunksShape(image, w, n);
    ChunksRow(image, w, n, n - 1 - r);
    PlacedAt(buf, width, x, y, w, Reversed(Chunks(image, w)), r, i);
  }

  /** Mirrored rows keep their width. */
  lemma MirroredRows(rows: seq<seq<u16>>, w: nat)
    requires RowsOf(rows, w)
    ensures RowsOf(Mirrored(rows), w)
  {
  }

  /** `draw_image_flip_x`: column x + i of canvas line y + r holds pixel w - 1 - i of image
      row r. */
  lemma DrawnPixelFlipX(buf: seq<u16>, width: nat, x: nat, y: nat, image: seq<u16>, w: nat, r: nat, i: nat)
    requires 0 < w <= width && |image| % w == 0 && r < |image| / w && i < w
    requires Mul(y + r, width) + x + i < |buf|
    ensures Mul(r, w) + (w - 1 - i) < |image| && RowsOf(Mirrored(Chunks(image, w)), w)
    ensures Painted(buf, width, Mul(y, width) + x, w, Mirrored(Chunks(image, w)))[Mul(y + r, width) + x + i]
      == image[Mul(r, w) + (w - 1 - i)]
  {
    RowCount(|image|, w);
    ChunksShape(image, w, |image| / w);
    ChunksRow(image, w, |image| / w, r);
    MirroredRows(Chunks(image, w), w);
    assert Mirrored(Chunks(image, w))[r][i] == Chunks(image, w)[r][w - 1 - i];
    PlacedAt(buf, width, x, y, w, Mirrored(Chunks(image, w)), r, i);
  }

  /** Any drawing leaves a canvas index alone unless some row's run, at line y + r from
      column x on, covers it. */
  lemma DrawnOutside(buf: seq<u16>, width: nat, x: nat, y: nat, w: nat, rows: seq<seq<u16>>, k: nat)
    requires RowsOf(rows, w) && k < |buf|
    requires forall l :: y <= l < y + |rows| ==> !(Mul(l, width) + x <= k < Mul(l, width) + x + w)
    ensures Painted(buf, width, Mul(y, width) + x, w, rows)[k] == buf[k]
  {
    forall r | 0 <= r < |rows|
      ensures !(Mul(y, width) + x + Mul(r, width) <= k < Mul(y, width) + x + Mul(r, width) + w)
    {
      MulAdd(y, r, width);
      assert !(Mul(y + r, width) + x <= k < Mul(y + r, width) + x + w);
    }
    PaintedOutside(buf, width, Mul(y, width) + x, w, rows, k);
  }

  /** A start past the end of the buffer writes nothing at all. */
  lemma StartPastEnd(buf: seq<u16>, width: nat, x: nat, y: nat, w: nat, rows: seq<seq<u16>>)
    requires RowsOf(rows, w) && Mul(y, width) + x > |buf|
    ensures Painted(buf, width, Mul(y, width) + x, w, rows) == buf
  {
  }

  class Canvas {
    const buf: array<u16>
    const width: nat
    const height: nat

    /** The struct literal of canvas.rs and imageproc.rs over a borrowed buffer. */
    constructor (buf: array<u16>, width: nat, height: nat)
      ensures this.buf == buf && this.width == width && this.height == height
    {
      this.buf := buf;
      this.width := width;
      this.height := height;
    }

    /** `Canvas::new` of splash/canvas.rs: a zeroed WINDOW_WIDTH × WINDOW_HEIGHT buffer. */
    constructor New()
      ensures fresh(buf) && width == 160 && height == 128 && buf.Length == 160 * 128
      ensures forall k :: 0 <= k < buf.Length ==> buf[k] == 0
    {
      buf := new u16[160 * 128](_ => 0);
      width := 160;
      height := 128;
    }

    /** `clear`: `buf.fill(color)`. */
    method Clear(color: u16)
      modifies buf
      ensures forall k :: 0 <= k < buf.Length ==> buf[k] == color
    {
      forall k | 0 <= k < buf.Length {
        buf[k] := color;
      }
    }

    /** `draw_image` of canvas.rs and splash/canvas.rs (`DrawnPixel`, `DrawnPixelSpills`,
        `DrawnOutside` and `StartPastEnd` say what the result holds). */
    method DrawImage(x: nat, y: nat, image: seq<u16>, imageWidth: nat)
      requires imageWidth > 0 && |image| % imageWidth == 0
      modifies buf
      ensures RowsOf(Chunks(image, imageWidth), imageWidth)
      ensures buf[..] == Painted(old(buf[..]), width, Mul(y, width) + x, imageWidth, Chunks(image, imageWidth))
    {
      RowCount(|image|, imageWidth);
      ChunksShape(image, imageWidth, |image| / imageWidth);
      CopyRows(Mul(y, width) + x, Chunks(image, imageWidth), imageWidth);
    }

    /** `draw_image_flip_y`: the same loop over the rows in reverse order. */
    method DrawImageFlipY(x: nat, y: nat, image: seq<u16>, imageWidth: nat)
      requires imageWidth > 0 && |image| % imageWidth == 0
      modifies buf
      ensures RowsOf(Reversed(Chunks(image, imageWidth)), imageWidth)
      ensures buf[..] == Painted(old(buf[..]), width, Mul(y, width) + x, imageWidth, Reversed(Chunks(image, imageWidth)))
    {
      RowCount(|image|, imageWidth);
      ChunksShape(image, imageWidth, |image| / imageWidth);
      CopyRows(Mul(y, width) + x, Reversed(Chunks(image, imageWidth)), imageWidth);
    }

    /** `draw_image_flip_x`: the same loop, each row reversed before it is copied. */
    method DrawImageFlipX(x: nat, y: nat, image: seq<u16>, imageWidth: nat)
      requires imageWidth > 0 && |image| % imageWidth == 0
      modifies buf
      ensures RowsOf(Mirrored(Chunks(image, imageWidth)), imageWidth)
      ensures buf[..] == Painted(old(buf[..]), width, Mul(y, width) + x, imageWidth, Mirrored(Chunks(image, imageWidth)))
    {
      RowCount(|image|, imageWidth);
      ChunksShape(image, imageWidth, |image| / imageWidth);
      CopyRows(Mul(y, width) + x, Mirrored(Chunks(image, imageWidth)), imageWidth);
    }

    /** The loop shared by the three `draw_image*` methods. The length is `end - begin` as a
        signed number: a row that would start past the end is skipped without advancing
        `begin`, and once `begin` has passed the end the loop stops. */
    method CopyRows(begin0: nat, rows: seq<seq<u16>>, w: nat)
      requires RowsOf(rows, w)
      modifies buf
      ensures buf[..] == Painted(old(buf[..]), width, begin0, w, rows)
    {
      ghost var target := Painted(buf[..], width, begin0, w, rows);
      var begin: nat := begin0;
      for r := 0 to |rows|
        invariant target == Painted(buf[..], width, begin, w, rows[r..])
      {
        var row := rows[r];
        var end := begin + w;
        if end > buf.Length {
          end := buf.Length;
        }
        var len: int := end - begin;
        if len < 0 {
          continue;
        }
        assert rows[r..][1..] == rows[r + 1..];
        CopyRun(begin, row[..len]);
        begin := begin + width;
        if begin > buf.Length {
          break;
        }
      }
    }

    /** `buf[begin..end].copy_from_slice(run)`. */
    method CopyRun(begin: nat, run: seq<u16>)
      requires begin + |run| <= buf.Length
      modifies buf
      ensures buf[..] == Overwrite(old(buf[..]), begin, run)
    {
      forall k | begin <= k < begin + |run| {
        buf[k] := run[k - begin];
      }
      assert buf[..] == Overwrite(old(buf[..]), begin, run);
    }

    /** `draw_image_at` of imageproc.rs: the same copy, with an unsigned length and no early
        exit. A row starting past the end of the buffer panics there, so every row must
        start at or before the end; then the result is the one `draw_image` computes. */
    method DrawImageAt(x: nat, y: nat, image: seq<u16>, imageWidth: nat)
      requires imageWidth > 0 && |image| % imageWidth == 0
      requires |image| == 0 || Mul(y, width) + x + Mul(|image| / imageWidth - 1, width) <= buf.Length
      modifies buf
      ensures RowsOf(Chunks(image, imageWidth), imageWidth)
      ensures buf[..] == Painted(old(buf[..]), width, Mul(y, width) + x, imageWidth, Chunks(image, imageWidth))
    {
      var n := |image| / imageWidth;
      RowCount(|image|, imageWidth);
      ChunksShape(image, imageWidth, n);
      CopyAllRows(Mul(y, width) + x, Chunks(image, imageWidth), imageWidth);
    }

    /** The loop of `draw_image_at`. */
    method CopyAllRows(begin0: nat, rows: seq<seq<u16>>, w: nat)
      requires RowsOf(rows, w)
      requires |rows| == 0 || begin0 + Mul(|rows| - 1, width) <= buf.Length
      modifies buf
      ensures buf[..] == Painted(old(buf[..]), width, begin0, w, rows)
    {
      ghost var target := Painted(buf[..], width, begin0, w, rows);
      var begin: nat := begin0;
      var r := 0;
      while r < |rows|
        invariant r <= |rows| && begin == begin0 + Mul(r, width)
        invariant target == Painted(buf[..], width, begin, w, rows[r..])
      {
        var next := r + 1;
        MulMono(r, |rows| - 1, width);
        CopyOneRow(begin, rows, w, r, next, target);
        assert Mul(next, width) == Mul(r, width) + width;
        begin := begin + width;
        r := next;
      }
    }

    /** One pass of the loop of `draw_image_at`: row r goes to `begin`, clipped at the end. */
    method CopyOneRow(begin: nat, rows: seq<seq<u16>>, w: nat, r: nat, next: nat, ghost target: seq<u16>)
      requires RowsOf(rows, w) && r < |rows| && next == r + 1 && begin <= buf.Length
      requires target == Painted(buf[..], width, begin, w, rows[r..])
      modifies buf
      ensures target == Painted(buf[..], width, begin + width, w, rows[next..])
    {
      var end := begin + w;
      if end > buf.Length {
        end := buf.Length;
      }
      ghost var before := buf[..];
      CopyRun(begin, rows[r][..end - begin]);
      PaintedNext(target, before, buf[..], width, begin, w, rows, r, next, end);
    }
  }
}
