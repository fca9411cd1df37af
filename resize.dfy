/**
  `magnify_rgb565` of usb_screen/src/resize.rs: a w×h RGB565 image becomes a 2w×2h one in
  which every pixel is a 2×2 block.

  Row offsets are written with `Mul` (see Arith), in the code as in the contracts.
 */
module Resize {
  import opened Bytes
  import opened Arith

  /** Output row for input row y: each of its pixels twice. */
  function DoubledRow(input: seq<u16>, w: nat, y: nat): (row: seq<u16>)
    requires Mul(y, w) + w <= |input|
    ensures |row| == 2 * w
  {
    seq(2 * w, i requires 0 <= i < 2 * w => input[Mul(y, w) + i / 2])
  }

  /** The first n input rows magnified: each doubled row appears twice. */
  function MagRows(input: seq<u16>, w: nat, n: nat): (out: seq<u16>)
    requires Mul(n, w) <= |input|
    ensures |out| == 4 * Mul(n, w)
  {
    if n == 0 then []
    else MagRows(input, w, n - 1) + DoubledRow(input, w, n - 1) + DoubledRow(input, w, n - 1)
  }

  /** Both output rows of input row r copy its pixels, each twice. */
  lemma {:induction false} MagRowsAt(input: seq<u16>, w: nat, n: nat, r: nat, i: nat)
    requires Mul(n, w) <= |input| && r < n && i < 2 * w
    ensures 4 * Mul(r, w) + 2 * w + i < 4 * Mul(n, w) && Mul(r, w) + i / 2 < |input|
    ensures MagRows(input, w, n)[4 * Mul(r, w) + i] == input[Mul(r, w) + i / 2]
    ensures MagRows(input, w, n)[4 * Mul(r, w) + 2 * w + i] == input[Mul(r, w) + i / 2]
    decreases n
  {
    MulMono(r + 1, n, w);
    var prev, row := MagRows(input, w, n - 1), DoubledRow(input, w, n - 1);
    assert MagRows(input, w, n) == prev + row + row;
    if r < n - 1 {
      MulMono(r + 1, n - 1, w);
      MagRowsAt(input, w, n - 1, r, i);
      assert 4 * Mul(r, w) + 2 * w + i < |prev|;
    } else {
      assert 4 * Mul(r, w) == |prev|;
    }
  }

  /** Output rows 2r and 2r + 1 of a 2w-wide image start at 4rw and 4rw + 2w. */
  lemma RowStarts(r: nat, w: nat)
    ensures Mul(2 * r, 2 * w) == 4 * Mul(r, w)
    ensures Mul(2 * r + 1, 2 * w) == 4 * Mul(r, w) + 2 * w
  {
    MulDoubled(r, w);
    assert Mul(2 * r + 1, 2 * w) == Mul(2 * r, 2 * w) + 2 * w;
  }

  /** Output pixel (i, j) of the magnified image is input pixel (i / 2, j / 2): row j of the
      2w-wide output starts at j·2w, and for j = 2r and j = 2r + 1 alike the pixel is read from
      r·w + i/2. */
  lemma MagRowsPixel(input: seq<u16>, w: nat, h: nat, r: nat, i: nat)
    requires Mul(h, w) <= |input| && r < h && i < 2 * w
    ensures Mul(2 * r + 1, 2 * w) + i < 4 * Mul(h, w) && Mul(r, w) + i / 2 < |input|
    ensures MagRows(input, w, h)[Mul(2 * r, 2 * w) + i] == input[Mul(r, w) + i / 2]
    ensures MagRows(input, w, h)[Mul(2 * r + 1, 2 * w) + i] == input[Mul(r, w) + i / 2]
  {
    RowStarts(r, w);
    MagRowsAt(input, w, h, r, i);
  }

  /** Read block by block: input pixel (x, y) lands on the four outputs (2x, 2y), (2x + 1, 2y),
      (2x, 2y + 1) and (2x + 1, 2y + 1). */
  lemma MagRowsBlock(input: seq<u16>, w: nat, h: nat, x: nat, y: nat)
    requires Mul(h, w) <= |input| && x < w && y < h
    ensures var m, d, s := MagRows(input, w, h), Mul(2 * y, 2 * w) + 2 * x, Mul(y, w) + x;
      d + 2 * w + 1 < |m| && s < |input|
      && m[d] == input[s] && m[d + 1] == input[s] && m[d + 2 * w] == input[s] && m[d + 2 * w + 1] == input[s]
  {
    RowStarts(y, w);
    var base, s := 4 * Mul(y, w), Mul(y, w) + x;
    assert Mul(2 * y, 2 * w) + 2 * x == base + 2 * x;
    MagRowsAt(input, w, h, y, 2 * x);
    MagRowsAt(input, w, h, y, 2 * x + 1);
    assert (2 * x) / 2 == x && (2 * x + 1) / 2 == x;
  }

  /** The first 4wh outputs are the magnified image (`MagRowsPixel` and `MagRowsBlock` say
      what it holds); nothing at or past 4wh is written, and the input is only read. */
  method MagnifyRgb565(input: array<u16>, width: nat, height: nat, output: array<u16>)
    requires input != output
    requires input.Length >= Mul(height, width) && output.Length >= 4 * Mul(height, width)
    modifies output
    ensures output[..4 * Mul(height, width)] == MagRows(input[..], width, height)
    ensures output[4 * Mul(height, width)..] == old(output[4 * Mul(height, width)..])
    ensures input[..] == old(input[..])
  {
    ghost var source := input[..];
    ghost var rowBase := 0;
    var y := 0;
    while y < height
      invariant 0 <= y <= height && rowBase == 4 * Mul(y, width)
      invariant Mul(y, width) <= Mul(height, width)
      invariant forall k :: 0 <= k < input.Length ==> input[k] == source[k]
      invariant output[..rowBase] == MagRows(source, width, y)
      invariant forall k :: rowBase <= k < output.Length ==> output[k] == old(output[k])
    {
      MulMono(y + 1, height, width);
      ghost var before := output[..];
      MagnifyRow(input, width, output, y, source, rowBase);
      RowDone(before, output[..], source, width, y, rowBase);
      rowBase := rowBase + 4 * width;
      y := y + 1;
    }
    assert input[..] == source;
  }

  /** One pass of the outer loop of `magnify_rgb565`: input row y, doubled, fills output rows
      2y and 2y + 1, which start at `rowBase`; nothing else is written. */
  method MagnifyRow(input: array<u16>, width: nat, output: array<u16>, y: nat, ghost source: seq<u16>, ghost rowBase: nat)
    requires input != output && rowBase == 4 * Mul(y, width)
    requires input.Length == |source| && forall k :: 0 <= k < input.Length ==> input[k] == source[k]
    requires Mul(y, width) + width <= |source| && rowBase + 4 * width <= output.Length
    modifies output
    ensures forall k :: 0 <= k < rowBase ==> output[k] == old(output[k])
    ensures forall i :: 0 <= i < 2 * width ==> output[rowBase + i] == DoubledRow(source, width, y)[i]
    ensures forall i :: 0 <= i < 2 * width ==> output[rowBase + 2 * width + i] == DoubledRow(source, width, y)[i]
    ensures forall k :: rowBase + 4 * width <= k < output.Length ==> output[k] == old(output[k])
  {
    ghost var row := DoubledRow(source, width, y);
    var newWidth := width * 2;
    MulDoubled(y, width);
    assert Mul(y * 2, newWidth) == Mul(2 * y, 2 * width);
    var x := 0;
    while x < width
      invariant 0 <= x <= width
      invariant forall i :: 0 <= i < 2 * x ==> output[rowBase + i] == row[i]
      invariant forall i :: 0 <= i < 2 * x ==> output[rowBase + 2 * width + i] == row[i]
      invariant forall k ::
        (0 <= k < output.Length && !(rowBase <= k < rowBase + 2 * x) && !(rowBase + 2 * width <= k < rowBase + 2 * width + 2 * x))
        ==> output[k] == old(output[k])
    {
      var srcIndex := Mul(y, width) + x;
      var dstStart := Mul(y * 2, newWidth) + (x * 2);
      PutBlock(output, dstStart, newWidth, input[srcIndex]);
      x := x + 1;
    }
  }

  /** The body of the inner loop: one input pixel written to its 2×2 block. */
  method PutBlock(output: array<u16>, at: nat, rowWidth: nat, v: u16)
    requires at + rowWidth + 1 < output.Length
    modifies output
    ensures output[at] == v && output[at + 1] == v && output[at + rowWidth] == v && output[at + rowWidth + 1] == v
    ensures forall k :: 0 <= k < output.Length && k != at && k != at + 1 && k != at + rowWidth && k != at + rowWidth + 1 ==>
      output[k] == old(output[k])
  {
    output[at] := v;
    output[at + 1] := v;
    output[at + rowWidth] := v;
    output[at + rowWidth + 1] := v;
  }

  /** After one pass of the outer loop the magnified prefix covers one more input row. */
  lemma RowDone(before: seq<u16>, after: seq<u16>, source: seq<u16>, w: nat, y: nat, rowBase: nat)
    requires Mul(y, w) + w <= |source| && rowBase == 4 * Mul(y, w) && rowBase + 4 * w <= |after|
    requires rowBase <= |before| && before[..rowBase] == MagRows(source, w, y)
    requires forall k :: 0 <= k < rowBase ==> after[k] == before[k]
    requires forall i :: 0 <= i < 2 * w ==> after[rowBase + i] == DoubledRow(source, w, y)[i]
    requires forall i :: 0 <= i < 2 * w ==> after[rowBase + 2 * w + i] == DoubledRow(source, w, y)[i]
    ensures after[..rowBase + 4 * w] == MagRows(source, w, y + 1)
  {
    assert after[..rowBase] == before[..rowBase];
    Extend3(after, MagRows(source, w, y), DoubledRow(source, w, y));
  }

  /** A prefix followed by two copies of a row, found in place, extends the prefix. */
  lemma Extend3(out: seq<u16>, done: seq<u16>, row: seq<u16>)
    requires |done| + 2 * |row| <= |out| && out[..|done|] == done
    requires forall i :: 0 <= i < |row| ==> out[|done| + i] == row[i]
    requires forall i :: 0 <= i < |row| ==> out[|done| + |row| + i] == row[i]
    ensures out[..|done| + 2 * |row|] == done + row + row
  {
    var n := |done|;
    var m := |row|;
    forall k | 0 <= k < n + 2 * m
      ensures out[k] == (done + row + row)[k]
    {
      if k < n {
        assert out[k] == out[..n][k];
      } else if k < n + m {
        assert out[n + (k - n)] == row[k - n];
      } else {
        assert out[n + m + (k - n - m)] == row[k - n - m];
      }
    }
  }
}
