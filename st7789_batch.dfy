/**
  The pixel batcher of usb_screen/src/st7789/batch.rs.

  Pixels to draw are grouped into Pixel Rows (runs of pixels on one row, each one column
  right of the last, at most 50 of them), and the rows into Pixel Blocks (rows stacked one
  under the other with the same columns, at most 100 colours), so that each block can be
  sent as one window fill.

  `RowsFrom` and `BlocksFrom` are the reference definitions: the rows (blocks) still to
  come, given the one being built and the input not read yet. The two iterator classes are
  proved to return exactly those, one per call to `Next`. The lemmas say what the rows and
  blocks are: nothing dropped, duplicated or moved (`RowsCover`, `BlocksCover`), their
  shapes and sizes, and where one ends and the next begins.
 */
module St7789Batch {
  import opened Bytes
  import opened Wrappers
  import opened Slices
  import opened Arith
  import opened Geometry

  /** Max number of pixels per Pixel Row. */
  const MAX_ROW_SIZE: nat := 50
  /** Max number of pixels per Pixel Block. */
  const MAX_BLOCK_SIZE: nat := 100

  datatype PixelRow = PixelRow(xLeft: u16, xRight: u16, y: u16, colors: seq<u16>)
  datatype PixelBlock = PixelBlock(xLeft: u16, xRight: u16, yTop: u16, yBottom: u16, colors: seq<u16>)

  // ---------------------------------------------------------------------------------
  // Rows

  /** A row holding one pixel. */
  function StartRow(p: Pixel): PixelRow {
    PixelRow(DotOf(p).x, DotOf(p).x, DotOf(p).y, [p.color])
  }

  /** The test of `RowIterator::next` for adding a pixel to the row: one column right of its
      last pixel (u16 addition, wrapping), on the same row, and room left in the row. */
  predicate Adjacent(row: PixelRow, p: Pixel) {
    DotOf(p).x == Wrap16(row.xRight + 1) && DotOf(p).y == row.y && |row.colors| < MAX_ROW_SIZE
  }

  function Extend(row: PixelRow, p: Pixel): PixelRow {
    PixelRow(row.xLeft, DotOf(p).x, row.y, row.colors + [p.color])
  }

  /** The rows still to come when `pending` is being built and `rest` is unread. */
  function RowsFrom(pending: Option<PixelRow>, rest: seq<Pixel>): seq<PixelRow>
    decreases |rest|
  {
    if rest == [] then (if pending.None? then [] else [pending.value])
    else if pending.None? then RowsFrom(Some(StartRow(rest[0])), rest[1..])
    else if Adjacent(pending.value, rest[0]) then RowsFrom(Some(Extend(pending.value, rest[0])), rest[1..])
    else [pending.value] + RowsFrom(Some(StartRow(rest[0])), rest[1..])
  }

  /** `to_rows`: the rows of a pixel sequence. */
  function Rows(pixels: seq<Pixel>): seq<PixelRow> {
    RowsFrom(None, pixels)
  }

  /** 1 to 50 colours, in consecutive columns (wrapping) from x_left to x_right. */
  predicate RowShaped(row: PixelRow) {
    1 <= |row.colors| <= MAX_ROW_SIZE && row.xRight == Wrap16(row.xLeft + |row.colors| - 1)
  }

  predicate AllRowShaped(rows: seq<PixelRow>) {
    forall i :: 0 <= i < |rows| ==> RowShaped(rows[i])
  }

  /** Row b starts where the first pixel of b would still have been added to row a. */
  predicate Continues(a: PixelRow, b: PixelRow) {
    b.xLeft == Wrap16(a.xRight + 1) && b.y == a.y && |a.colors| < MAX_ROW_SIZE
  }

  /** The pixels a row paints. */
  function RowDotsOf(row: PixelRow): seq<Dot> {
    RowDots(row.xLeft, row.y, row.colors)
  }

  function RowLines(rows: seq<PixelRow>): (lines: seq<seq<Dot>>)
    decreases |rows|
  {
    if rows == [] then [] else [RowDotsOf(rows[0])] + RowLines(rows[1..])
  }

  function RowColors(rows: seq<PixelRow>): (lists: seq<seq<u16>>)
    decreases |rows|
  {
    if rows == [] then [] else [rows[0].colors] + RowColors(rows[1..])
  }

  function Colors(pixels: seq<Pixel>): (cs: seq<u16>)
    ensures |cs| == |pixels|
  {
    seq(|pixels|, i requires 0 <= i < |pixels| => pixels[i].color)
  }

  function PendingDots(pending: Option<PixelRow>): seq<Dot> {
    if pending.None? then [] else RowDotsOf(pending.value)
  }

  function PendingColors(pending: Option<PixelRow>): seq<u16> {
    if pending.None? then [] else pending.value.colors
  }

  lemma RowsCons(r: PixelRow, rows: seq<PixelRow>)
    ensures Concat(RowLines([r] + rows)) == RowDotsOf(r) + Concat(RowLines(rows))
    ensures Concat(RowColors([r] + rows)) == r.colors + Concat(RowColors(rows))
  {
    assert ([r] + rows)[1..] == rows;
    assert RowLines([r] + rows) == [RowDotsOf(r)] + RowLines(rows);
    assert RowColors([r] + rows) == [r.colors] + RowColors(rows);
  }

  lemma PixelsCons(rest: seq<Pixel>)
    requires rest != []
    ensures DotsOf(rest) == [DotOf(rest[0])] + DotsOf(rest[1..])
    ensures Colors(rest) == [rest[0].color] + Colors(rest[1..])
  {
  }

  /** A one-pixel row paints that pixel. */
  lemma StartRowDots(p: Pixel)
    ensures RowShaped(StartRow(p)) && RowDotsOf(StartRow(p)) == [DotOf(p)]
  {
    assert Wrap16(DotOf(p).x + 0) == DotOf(p).x;
  }

  /** Adding an adjacent pixel paints it right after the row. */
  lemma ExtendDots(row: PixelRow, p: Pixel)
    requires RowShaped(row) && Adjacent(row, p)
    ensures RowShaped(Extend(row, p)) && RowDotsOf(Extend(row, p)) == RowDotsOf(row) + [DotOf(p)]
  {
    var n := |row.colors|;
    assert Wrap16(row.xLeft + n) == DotOf(p).x;
  }

  /** Every row has 1 to 50 colours in consecutive columns of one row. */
  lemma {:induction false} RowsShaped(pending: Option<PixelRow>, rest: seq<Pixel>)
    requires pending.Some? ==> RowShaped(pending.value)
    ensures AllRowShaped(RowsFrom(pending, rest))
    decreases |rest|
  {
    if rest != [] {
      var p := rest[0];
      StartRowDots(p);
      if pending.None? {
        RowsShaped(Some(StartRow(p)), rest[1..]);
      } else if Adjacent(pending.value, p) {
        ExtendDots(pending.value, p);
        RowsShaped(Some(Extend(pending.value, p)), rest[1..]);
      } else {
        RowsShaped(Some(StartRow(p)), rest[1..]);
      }
    }
  }

  /** The rows paint exactly the pixels, in order: each pixel at its own column and row,
      with its colour, none dropped or repeated. */
  lemma {:induction false} RowsCover(pending: Option<PixelRow>, rest: seq<Pixel>)
    requires pending.Some? ==> RowShaped(pending.value)
    ensures Concat(RowLines(RowsFrom(pending, rest))) == PendingDots(pending) + DotsOf(rest)
    decreases |rest|
  {
    if rest == [] {
      if pending.Some? {
        RowsCons(pending.value, []);
      }
    } else {
      var p, more := rest[0], rest[1..];
      PixelsCons(rest);
      StartRowDots(p);
      if pending.None? {
        RowsCover(Some(StartRow(p)), more);
      } else if Adjacent(pending.value, p) {
        ExtendDots(pending.value, p);
        RowsCover(Some(Extend(pending.value, p)), more);
      } else {
        RowsCover(Some(StartRow(p)), more);
        RowsCons(pending.value, RowsFrom(Some(StartRow(p)), more));
      }
    }
  }

  /** Concatenating the rows' colours gives the pixels' colours, in order. */
  lemma {:induction false} RowsKeepColors(pending: Option<PixelRow>, rest: seq<Pixel>)
    ensures Concat(RowColors(RowsFrom(pending, rest))) == PendingColors(pending) + Colors(rest)
    decreases |rest|
  {
    if rest == [] {
      if pending.Some? {
        RowsCons(pending.value, []);
      }
    } else {
      var p, more := rest[0], rest[1..];
      PixelsCons(rest);
      if pending.None? {
        RowsKeepColors(Some(StartRow(p)), more);
      } else if Adjacent(pending.value, p) {
        RowsKeepColors(Some(Extend(pending.value, p)), more);
      } else {
        RowsKeepColors(Some(StartRow(p)), more);
        RowsCons(pending.value, RowsFrom(Some(StartRow(p)), more));
      }
    }
  }

  /** The next row begins where the row being built does. */
  lemma {:induction false} RowsHead(row: PixelRow, rest: seq<Pixel>)
    ensures RowsFrom(Some(row), rest) != []
    ensures RowsFrom(Some(row), rest)[0].xLeft == row.xLeft && RowsFrom(Some(row), rest)[0].y == row.y
    decreases |rest|
  {
    if rest != [] && Adjacent(row, rest[0]) {
      RowsHead(Extend(row, rest[0]), rest[1..]);
    }
  }

  /** A row ends only where the next pixel could not have been added to it: consecutive rows
      never continue one another. */
  lemma {:induction false} RowsMaximal(pending: Option<PixelRow>, rest: seq<Pixel>, i: nat)
    requires i + 1 < |RowsFrom(pending, rest)|
    ensures !Continues(RowsFrom(pending, rest)[i], RowsFrom(pending, rest)[i + 1])
    decreases |rest|
  {
    var p, more := rest[0], rest[1..];
    if pending.None? {
      RowsMaximal(Some(StartRow(p)), more, i);
    } else if Adjacent(pending.value, p) {
      RowsMaximal(Some(Extend(pending.value, p)), more, i);
    } else if i == 0 {
      RowsHead(StartRow(p), more);
    } else {
      RowsMaximal(Some(StartRow(p)), more, i - 1);
    }
  }

  /** No pixels, no rows; and some pixels, some rows. */
  lemma RowsEmpty(pixels: seq<Pixel>)
    ensures Rows(pixels) == [] <==> pixels == []
  {
    if pixels != [] {
      RowsHead(StartRow(pixels[0]), pixels[1..]);
    }
  }

  // ---------------------------------------------------------------------------------
  // Blocks

  function BlockOf(row: PixelRow): PixelBlock {
    PixelBlock(row.xLeft, row.xRight, row.y, row.y, row.colors)
  }

  /** The test of `BlockIterator::next` for adding a row to the block: the row right below
      (u16 addition, wrapping), the same columns, and room for its colours. */
  predicate Merges(b: PixelBlock, row: PixelRow) {
    row.y == Wrap16(b.yBottom + 1) && row.xLeft == b.xLeft && row.xRight == b.xRight
    && |b.colors| + |row.colors| <= MAX_BLOCK_SIZE
  }

  function Grow(b: PixelBlock, row: PixelRow): PixelBlock {
    PixelBlock(b.xLeft, b.xRight, b.yTop, row.y, b.colors + row.colors)
  }

  /** The blocks still to come when `pending` is being built and `rest` is unread. */
  function BlocksFrom(pending: Option<PixelBlock>, rest: seq<PixelRow>): seq<PixelBlock>
    decreases |rest|
  {
    if rest == [] then (if pending.None? then [] else [pending.value])
    else if pending.None? then BlocksFrom(Some(BlockOf(rest[0])), rest[1..])
    else if Merges(pending.value, rest[0]) then BlocksFrom(Some(Grow(pending.value, rest[0])), rest[1..])
    else [pending.value] + BlocksFrom(Some(BlockOf(rest[0])), rest[1..])
  }

  /** `to_blocks`: the blocks of a row sequence. */
  function Blocks(rows: seq<PixelRow>): seq<PixelBlock> {
    BlocksFrom(None, rows)
  }

  /** The block's colours fill its window exactly: n + 1 rows (y_top to y_bottom, wrapping)
      of the window's width each, at most 50 wide and 100 colours in all. */
  predicate BlockShaped(b: PixelBlock) {
    var w, n := Width(b.xLeft, b.xRight), Wrap16(b.yBottom - b.yTop);
    w <= MAX_ROW_SIZE && |b.colors| <= MAX_BLOCK_SIZE && |b.colors| == Mul(n + 1, w)
  }

  /** What sending the block as a window fill paints. */
  function BlockDotsOf(b: PixelBlock): seq<Dot> {
    WindowDots(b.xLeft, b.yTop, b.xRight, b.colors)
  }

  function BlockLines(blocks: seq<PixelBlock>): (lines: seq<seq<Dot>>)
    decreases |blocks|
  {
    if blocks == [] then [] else [BlockDotsOf(blocks[0])] + BlockLines(blocks[1..])
  }

  function BlockColors(blocks: seq<PixelBlock>): (lists: seq<seq<u16>>)
    decreases |blocks|
  {
    if blocks == [] then [] else [blocks[0].colors] + BlockColors(blocks[1..])
  }

  function PendingBlockDots(pending: Option<PixelBlock>): seq<Dot> {
    if pending.None? then [] else BlockDotsOf(pending.value)
  }

  function PendingBlockColors(pending: Option<PixelBlock>): seq<u16> {
    if pending.None? then [] else pending.value.colors
  }

  lemma BlocksCons(b: PixelBlock, blocks: seq<PixelBlock>)
    ensures Concat(BlockLines([b] + blocks)) == BlockDotsOf(b) + Concat(BlockLines(blocks))
    ensures Concat(BlockColors([b] + blocks)) == b.colors + Concat(BlockColors(blocks))
  {
    assert ([b] + blocks)[1..] == blocks;
    assert BlockLines([b] + blocks) == [BlockDotsOf(b)] + BlockLines(blocks);
    assert BlockColors([b] + blocks) == [b.colors] + BlockColors(blocks);
  }

  lemma RowsTail(rest: seq<PixelRow>)
    requires rest != []
    ensures Concat(RowLines(rest)) == RowDotsOf(rest[0]) + Concat(RowLines(rest[1..]))
    ensures Concat(RowColors(rest)) == rest[0].colors + Concat(RowColors(rest[1..]))
  {
    RowsCons(rest[0], rest[1..]);
    assert [rest[0]] + rest[1..] == rest;
  }

  /** A row spans as many columns as it has colours. */
  lemma RowWidth(row: PixelRow)
    requires RowShaped(row)
    ensures Width(row.xLeft, row.xRight) == |row.colors|
  {
  }

  /** A block of one row paints that row. */
  lemma BlockOfDots(row: PixelRow)
    requires RowShaped(row)
    ensures BlockShaped(BlockOf(row)) && BlockDotsOf(BlockOf(row)) == RowDotsOf(row)
  {
    RowWidth(row);
    OneLine(row.xLeft, row.y, row.xRight, row.colors);
    assert Wrap16(row.y - row.y) == 0;
    assert Mul(1, |row.colors|) == |row.colors|;
  }

  /** With n == y_bottom - y_top (wrapping), the row below the block is row n + 1 of it. */
  lemma NextRowOfBlock(top: u16, bottom: u16)
    ensures Wrap16(top + (Wrap16(bottom - top) + 1)) == Wrap16(bottom + 1)
  {
  }

  lemma RowsBelowTop(top: u16, bottom: u16, n: nat)
    requires n == Wrap16(bottom - top) && n + 1 < 0x1_0000
    ensures Wrap16(Wrap16(bottom + 1) - top) == n + 1
  {
  }

  /** A merged row is painted right below the block. */
  lemma GrowDots(b: PixelBlock, row: PixelRow)
    requires BlockShaped(b) && RowShaped(row) && Merges(b, row)
    ensures BlockShaped(Grow(b, row)) && BlockDotsOf(Grow(b, row)) == BlockDotsOf(b) + RowDotsOf(row)
  {
    GrowShaped(b, row);
    var w: nat, n: nat := Width(b.xLeft, b.xRight), Wrap16(b.yBottom - b.yTop);
    RowWidth(row);
    var pieces := Chunks(b.colors, w);
    ChunksLength(b.colors, w, n + 1);
    ChunksSnoc(b.colors, row.colors, w, n + 1);
    LinesSnoc(b.xLeft, b.yTop, pieces, row.colors);
    NextRowOfBlock(b.yTop, b.yBottom);
    ConcatSnoc(WindowLines(b.xLeft, b.yTop, pieces), RowDots(b.xLeft, row.y, row.colors));
  }

  /** A merged row keeps the block's window full: one more row of the same width. */
  lemma GrowShaped(b: PixelBlock, row: PixelRow)
    requires BlockShaped(b) && RowShaped(row) && Merges(b, row)
    ensures BlockShaped(Grow(b, row))
  {
    var w: nat, n: nat := Width(b.xLeft, b.xRight), Wrap16(b.yBottom - b.yTop);
    RowWidth(row);
    MulAtLeast(n + 1, w);
    RowsBelowTop(b.yTop, b.yBottom, n);
    assert Mul(n + 2, w) == Mul(n + 1, w) + w;
  }

  predicate PendingShaped(pending: Option<PixelBlock>) {
    pending.Some? ==> BlockShaped(pending.value)
  }

  /** Every block fills its window exactly (see `BlockShaped`). */
  lemma {:induction false} BlocksShaped(pending: Option<PixelBlock>, rest: seq<PixelRow>)
    requires PendingShaped(pending) && AllRowShaped(rest)
    ensures forall i :: 0 <= i < |BlocksFrom(pending, rest)| ==> BlockShaped(BlocksFrom(pending, rest)[i])
    decreases |rest|
  {
    if rest != [] {
      var row, more := rest[0], rest[1..];
      assert RowShaped(rest[0]);
      BlockOfDots(row);
      if pending.None? {
        BlocksShaped(Some(BlockOf(row)), more);
      } else if Merges(pending.value, row) {
        GrowDots(pending.value, row);
        BlocksShaped(Some(Grow(pending.value, row)), more);
      } else {
        BlocksShaped(Some(BlockOf(row)), more);
      }
    }
  }

  /** The block being built once `row` has been read. */
  function Advance(pending: Option<PixelBlock>, row: PixelRow): PixelBlock {
    if pending.Some? && Merges(pending.value, row) then Grow(pending.value, row) else BlockOf(row)
  }

  /** The block returned when `row` is read: the one being built, if `row` does not fit it. */
  function Emitted(pending: Option<PixelBlock>, row: PixelRow): seq<PixelBlock> {
    if pending.Some? && !Merges(pending.value, row) then [pending.value] else []
  }

  /** `BlocksFrom` one row at a time. */
  lemma BlocksStep(pending: Option<PixelBlock>, rest: seq<PixelRow>)
    requires rest != []
    ensures BlocksFrom(pending, rest) == Emitted(pending, rest[0]) + BlocksFrom(Some(Advance(pending, rest[0])), rest[1..])
  {
    if Emitted(pending, rest[0]) == [] {
      assert [] + BlocksFrom(Some(Advance(pending, rest[0])), rest[1..]) == BlocksFrom(Some(Advance(pending, rest[0])), rest[1..]);
    }
  }

  /** Reading a row: what the block being built paints, followed by the row, is what the
      returned block (if any) and the new block being built paint. */
  lemma StepDots(pending: Option<PixelBlock>, row: PixelRow)
    requires PendingShaped(pending) && RowShaped(row)
    ensures BlockShaped(Advance(pending, row))
    ensures PendingBlockDots(pending) + RowDotsOf(row) == Concat(BlockLines(Emitted(pending, row))) + BlockDotsOf(Advance(pending, row))
  {
    BlockOfDots(row);
    if pending.None? {
      assert Concat(BlockLines([])) == [];
    } else if Merges(pending.value, row) {
      GrowDots(pending.value, row);
      assert Concat(BlockLines([])) == [];
    } else {
      BlocksCons(pending.value, []);
      assert [pending.value] + [] == [pending.value];
    }
  }

  lemma EmittedLines(e: seq<PixelBlock>, blocks: seq<PixelBlock>)
    requires |e| <= 1
    ensures Concat(BlockLines(e + blocks)) == Concat(BlockLines(e)) + Concat(BlockLines(blocks))
  {
    if e == [] {
      assert e + blocks == blocks;
    } else {
      BlocksCons(e[0], blocks);
      BlocksCons(e[0], []);
      assert [e[0]] + [] == e;
    }
  }

  /** The blocks paint exactly what the rows paint, in order. */
  lemma {:induction false} BlocksCover(pending: Option<PixelBlock>, rest: seq<PixelRow>)
    requires PendingShaped(pending) && AllRowShaped(rest)
    ensures Concat(BlockLines(BlocksFrom(pending, rest))) == PendingBlockDots(pending) + Concat(RowLines(rest))
    decreases |rest|
  {
    if rest == [] {
      if pending.Some? {
        BlocksCons(pending.value, []);
      }
    } else {
      var row, more := rest[0], rest[1..];
      assert RowShaped(rest[0]);
      var e, next := Emitted(pending, row), Advance(pending, row);
      BlocksStep(pending, rest);
      StepDots(pending, row);
      BlocksCover(Some(next), more);
      EmittedLines(e, BlocksFrom(Some(next), more));
      RowsTail(rest);
      AppendAssoc(Concat(BlockLines(e)), BlockDotsOf(next), Concat(RowLines(more)));
      AppendAssoc(PendingBlockDots(pending), RowDotsOf(row), Concat(RowLines(more)));
    }
  }

  /** Each block's colours are its rows' colours one after another, and so concatenating
      the blocks' colours gives the rows' colours, in order. */
  lemma {:induction false} BlocksKeepColors(pending: Option<PixelBlock>, rest: seq<PixelRow>)
    ensures Concat(BlockColors(BlocksFrom(pending, rest))) == PendingBlockColors(pending) + Concat(RowColors(rest))
    decreases |rest|
  {
    if rest == [] {
      if pending.Some? {
        BlocksCons(pending.value, []);
      }
    } else {
      var row, more := rest[0], rest[1..];
      RowsTail(rest);
      if pending.None? {
        BlocksKeepColors(Some(BlockOf(row)), more);
      } else if Merges(pending.value, row) {
        BlocksKeepColors(Some(Grow(pending.value, row)), more);
      } else {
        BlocksKeepColors(Some(BlockOf(row)), more);
        BlocksCons(pending.value, BlocksFrom(Some(BlockOf(row)), more));
      }
    }
  }

  /** Block b starts with the row that would still have been added to block a: right below
      it, with the same columns, and room for one more row of that width. */
  predicate Stacks(a: PixelBlock, b: PixelBlock) {
    b.yTop == Wrap16(a.yBottom + 1) && b.xLeft == a.xLeft && b.xRight == a.xRight
    && |a.colors| + Width(b.xLeft, b.xRight) <= MAX_BLOCK_SIZE
  }

  /** The next block begins where the block being built does. */
  lemma {:induction false} BlocksHead(b: PixelBlock, rest: seq<PixelRow>)
    ensures BlocksFrom(Some(b), rest) != []
    ensures var first := BlocksFrom(Some(b), rest)[0];
      first.xLeft == b.xLeft && first.xRight == b.xRight && first.yTop == b.yTop
    decreases |rest|
  {
    if rest != [] && Merges(b, rest[0]) {
      BlocksHead(Grow(b, rest[0]), rest[1..]);
    }
  }

  /** A block ends only where the next row could not have been added to it: consecutive
      blocks never stack. */
  lemma {:induction false} BlocksMaximal(pending: Option<PixelBlock>, rest: seq<PixelRow>, i: nat)
    requires AllRowShaped(rest) && i + 1 < |BlocksFrom(pending, rest)|
    ensures !Stacks(BlocksFrom(pending, rest)[i], BlocksFrom(pending, rest)[i + 1])
    decreases |rest|
  {
    var row, more := rest[0], rest[1..];
    assert RowShaped(rest[0]);
    assert AllRowShaped(more);
    if pending.None? {
      BlocksMaximal(Some(BlockOf(row)), more, i);
    } else if Merges(pending.value, row) {
      BlocksMaximal(Some(Grow(pending.value, row)), more, i);
    } else if i == 0 {
      RowWidth(row);
      BlocksHead(BlockOf(row), more);
    } else {
      BlocksMaximal(Some(BlockOf(row)), more, i - 1);
    }
  }

  /** No rows, no blocks; and some rows, some blocks. */
  lemma BlocksEmpty(rows: seq<PixelRow>)
    ensures Blocks(rows) == [] <==> rows == []
  {
    if rows != [] {
      BlocksNonEmpty(BlockOf(rows[0]), rows[1..]);
    }
  }

  lemma {:induction false} BlocksNonEmpty(b: PixelBlock, rest: seq<PixelRow>)
    ensures BlocksFrom(Some(b), rest) != []
    decreases |rest|
  {
    if rest != [] {
      if Merges(b, rest[0]) {
        BlocksNonEmpty(Grow(b, rest[0]), rest[1..]);
      } else {
        BlocksNonEmpty(BlockOf(rest[0]), rest[1..]);
      }
    }
  }

  // ---------------------------------------------------------------------------------
  // The iterators

  /** `RowIterator`: reads pixels until a row is complete. */
  class RowIterator {
    /** The pixels to batch; the first `next` of them have been read. */
    const pixels: seq<Pixel>
    var next: nat
    var xLeft: u16
    var xRight: u16
    var y: u16
    var colors: seq<u16>
    var firstPixel: bool

    ghost predicate Valid()
      reads this
    {
      next <= |pixels|
    }

    /** The row being built, if any. */
    function Pending(): Option<PixelRow>
      reads this
    {
      if firstPixel then None else Some(PixelRow(xLeft, xRight, y, colors))
    }

    /** The rows still to come. */
    ghost function Remaining(): seq<PixelRow>
      reads this
      requires Valid()
    {
      RowsFrom(Pending(), pixels[next..])
    }

    /** `to_rows`. */
    constructor (pixels: seq<Pixel>)
      ensures Valid() && this.pixels == pixels && Remaining() == Rows(pixels)
    {
      this.pixels := pixels;
      next := 0;
      xLeft, xRight, y := 0, 0, 0;
      colors := [];
      firstPixel := true;
    }

    /** `RowIterator::next`: the next row of `Remaining()`, or none when it is empty. */
    method Next() returns (row: Option<PixelRow>)
      requires Valid()
      modifies this
      ensures Valid()
      ensures old(Remaining()) == [] ==> row.None? && Remaining() == []
      ensures old(Remaining()) != [] ==> row == Some(old(Remaining())[0]) && Remaining() == old(Remaining())[1..]
    {
      ghost var todo := Remaining();
      while true
        invariant Valid() && Remaining() == todo
        decreases |pixels| - next
      {
        if next == |pixels| {
          if firstPixel {
            row := None;
            return;
          }
          row := Some(PixelRow(xLeft, xRight, y, colors));
          colors := [];
          firstPixel := true;
          return;
        }
        ghost var rest := pixels[next..];
        var p := pixels[next];
        next := next + 1;
        assert rest[0] == p && rest[1..] == pixels[next..];
        var px, py := Wrap16(p.at.x), Wrap16(p.at.y);
        if firstPixel {
          firstPixel := false;
          xLeft, xRight, y := px, px, py;
          colors := [p.color];
          continue;
        }
        if px == Wrap16(xRight as int + 1) && py == y && |colors| < MAX_ROW_SIZE {
          colors := colors + [p.color];
          xRight := px;
          continue;
        }
        row := Some(PixelRow(xLeft, xRight, y, colors));
        xLeft, xRight, y := px, px, py;
        colors := [p.color];
        return;
      }
    }
  }

  /** `BlockIterator`: reads rows until a block is complete. */
  class BlockIterator {
    /** Where the rows come from. */
    const rows: RowIterator
    var xLeft: u16
    var xRight: u16
    var yTop: u16
    var yBottom: u16
    var colors: seq<u16>
    var firstRow: bool

    ghost predicate Valid()
      reads this, rows
    {
      rows.Valid()
    }

    /** The block being built, if any. */
    function Pending(): Option<PixelBlock>
      reads this
    {
      if firstRow then None else Some(PixelBlock(xLeft, xRight, yTop, yBottom, colors))
    }

    /** The blocks still to come. */
    ghost function Remaining(): seq<PixelBlock>
      reads this, rows
      requires Valid()
    {
      BlocksFrom(Pending(), rows.Remaining())
    }

    /** `to_blocks`. */
    constructor (rows: RowIterator)
      requires rows.Valid()
      ensures Valid() && this.rows == rows && Remaining() == Blocks(rows.Remaining())
    {
      this.rows := rows;
      xLeft, xRight, yTop, yBottom := 0, 0, 0, 0;
      colors := [];
      firstRow := true;
    }

    /** `BlockIterator::next`: the next block of `Remaining()`, or none when it is empty. */
    method Next() returns (block: Option<PixelBlock>)
      requires Valid()
      modifies this, rows
      ensures Valid()
      ensures old(Remaining()) == [] ==> block.None? && Remaining() == []
      ensures old(Remaining()) != [] ==> block == Some(old(Remaining())[0]) && Remaining() == old(Remaining())[1..]
    {
      ghost var todo := Remaining();
      while true
        invariant Valid() && Remaining() == todo
        decreases |rows.Remaining()|
      {
        ghost var rest := rows.Remaining();
        var nextRow := rows.Next();
        if nextRow.None? {
          if firstRow {
            block := None;
            return;
          }
          block := Some(PixelBlock(xLeft, xRight, yTop, yBottom, colors));
          colors := [];
          firstRow := true;
          return;
        }
        var r := nextRow.value;
        assert rest[0] == r && rest[1..] == rows.Remaining();
        if firstRow {
          firstRow := false;
          xLeft, xRight, yTop, yBottom := r.xLeft, r.xRight, r.y, r.y;
          colors := r.colors;
          continue;
        }
        if r.y == Wrap16(yBottom as int + 1) && r.xLeft == xLeft && r.xRight == xRight {
          if |colors| + |r.colors| <= MAX_BLOCK_SIZE {
            colors := colors + r.colors;
            yBottom := r.y;
            continue;
          }
        }
        block := Some(PixelBlock(xLeft, xRight, yTop, yBottom, colors));
        xLeft, xRight, yTop, yBottom := r.xLeft, r.xRight, r.y, r.y;
        colors := r.colors;
        return;
      }
    }
  }

  /** Batching paints exactly the pixels asked for, in order: the window fills of all blocks
      together write each pixel's colour at the pixel's column and row, nothing else. */
  lemma BatchCovers(pixels: seq<Pixel>)
    ensures Concat(BlockLines(Blocks(Rows(pixels)))) == DotsOf(pixels)
    ensures Concat(BlockColors(Blocks(Rows(pixels)))) == Colors(pixels)
  {
    RowsShaped(None, pixels);
    RowsCover(None, pixels);
    RowsKeepColors(None, pixels);
    BlocksCover(None, Rows(pixels));
    BlocksKeepColors(None, Rows(pixels));
  }
}
