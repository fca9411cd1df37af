/**
  The SPI display interface of the ST7789 driver (usb_screen/src/st7789/interface.rs, and
  its copy in usb_screen/src/st7789_240x240.rs): a data/command pin and an SPI device, and
  `send_u8`, which turns each `DataFormat` into SPI writes. Also the interface file's
  drawing helpers, which hand an image or a solid colour to the driver.

  The target is the little-endian RP2040: `u16::to_le` changes nothing, `u16::to_be`
  exchanges the two bytes, and a `u16` buffer seen as bytes (`as_byte_slice`) holds each
  word low byte first.
 */
module St7789Interface {
  import opened Bytes
  import opened Slices
  import opened Arith
  import opened Bus
  import opened St7789

  /** `display_interface::DataFormat`; `Other` stands for the variants `send_u8` does not
      handle. The two slice variants are mutable and are converted in place. */
  datatype DataFormat =
    | U8(bytes: seq<u8>)
    | U16(words: seq<u16>)
    | U16LE(slice: array<u16>)
    | U16BE(slice: array<u16>)
    | U8Iter(items: seq<u8>)
    | U16LEIter(values: seq<u16>)
    | U16BEIter(values: seq<u16>)
    | Other

  /** `u16::to_le` on a little-endian target. */
  function ToLe(v: u16): (r: u16)
    ensures U16ToLe(r) == U16ToLe(v)
  {
    v
  }

  /** `u16::to_be` on a little-endian target: in memory, the word's big-endian bytes. */
  function ToBe(v: u16): (r: u16)
    ensures U16ToLe(r) == U16ToBe(v)
  {
    Swap16(v)
  }

  /** Each word passed through `f`, as an iterator's `map` or an in-place loop does. */
  function MapWords(ws: seq<u16>, f: u16 -> u16): (r: seq<u16>)
    ensures |r| == |ws|
  {
    seq(|ws|, i requires 0 <= i < |ws| => f(ws[i]))
  }

  /** A byte buffer as bytes. */
  function Raw(bytes: seq<u8>): seq<u8> {
    bytes
  }

  /** One SPI write per piece, each piece seen as bytes through `asBytes`. */
  function PieceWrites<T>(pieces: seq<seq<T>>, asBytes: seq<T> -> seq<u8>): (t: seq<Event>)
    ensures |t| == |pieces| && AllWrites(t)
  {
    seq(|pieces|, i requires 0 <= i < |pieces| => Write(asBytes(pieces[i])))
  }

  /** The writes `send_u8` makes for a format; `contents` is what a U16LE/U16BE slice held
      when the call began. The iterator formats go through a 32-byte, 32-word or 64-word
      buffer, flushed when full and once more at the end if anything is left. */
  function SendWrites(f: DataFormat, contents: seq<u16>): seq<Event> {
    match f
    case U8(bytes) => [Write(bytes)]
    case U16(words) => [Write(WordsLe(words))]
    case U16LE(_) => [Write(WordsLe(MapWords(contents, ToLe)))]
    case U16BE(_) => [Write(WordsLe(MapWords(contents, ToBe)))]
    case U8Iter(items) => PieceWrites(Chunks(items, 32), Raw)
    case U16LEIter(values) => PieceWrites(Chunks(MapWords(values, ToLe), 32), WordsLe)
    case U16BEIter(values) => PieceWrites(Chunks(MapWords(values, ToBe), 64), WordsLe)
    case Other => []
  }

  /** What each format means to send: its bytes, or its words in the byte order it names
      (`U16` in native order). `Other` sends nothing. */
  function Payload(f: DataFormat, contents: seq<u16>): seq<u8> {
    match f
    case U8(bytes) => bytes
    case U16(words) => WordsLe(words)
    case U16LE(_) => WordsLe(contents)
    case U16BE(_) => WordsBe(contents)
    case U8Iter(items) => items
    case U16LEIter(values) => WordsLe(values)
    case U16BEIter(values) => WordsBe(values)
    case Other => []
  }

  /** The size of the buffer of an iterator format, in bytes. */
  function BufferBytes(f: DataFormat): nat {
    match f
    case U8Iter(_) => 32
    case U16LEIter(_) => 64
    case U16BEIter(_) => 128
    case _ => 0
  }

  predicate IsIter(f: DataFormat) {
    f.U8Iter? || f.U16LEIter? || f.U16BEIter?
  }

  /** The arrays `send_u8` may change. */
  function SliceOf(f: DataFormat): set<object> {
    if f.U16LE? || f.U16BE? then {f.slice} else {}
  }

  /** What a U16LE/U16BE slice holds now. */
  function Contents(f: DataFormat): seq<u16>
    reads SliceOf(f)
  {
    if f.U16LE? || f.U16BE? then f.slice[..] else []
  }

  // ---------------------------------------------------------------------------------
  // What the writes carry

  /** The first piece's write, then the writes of the others. */
  lemma PieceWritesTail<T>(pieces: seq<seq<T>>, asBytes: seq<T> -> seq<u8>)
    requires pieces != []
    ensures PieceWrites(pieces, asBytes)[0] == Write(asBytes(pieces[0]))
    ensures PieceWrites(pieces, asBytes)[1..] == PieceWrites(pieces[1..], asBytes)
  {
  }

  lemma {:induction false} RawPiecesWritten(pieces: seq<seq<u8>>)
    ensures Written(PieceWrites(pieces, Raw)) == Concat(pieces)
    decreases |pieces|
  {
    if pieces != [] {
      var t := PieceWrites(pieces, Raw);
      RawPiecesWritten(pieces[1..]);
      PieceWritesTail(pieces, Raw);
      assert Written(t) == t[0].bytes + Written(t[1..]);
    }
  }

  lemma {:induction false} WordPiecesWritten(pieces: seq<seq<u16>>)
    ensures Written(PieceWrites(pieces, WordsLe)) == WordsLe(Concat(pieces))
    decreases |pieces|
  {
    if pieces != [] {
      var t, rest := PieceWrites(pieces, WordsLe), pieces[1..];
      WordPiecesWritten(rest);
      PieceWritesTail(pieces, WordsLe);
      assert Written(t) == t[0].bytes + Written(t[1..]);
      WordsLeAppend(pieces[0], Concat(rest));
      assert Concat(pieces) == pieces[0] + Concat(rest);
    }
  }

  /** `to_le` leaves a word's in-memory bytes alone. */
  lemma LeUnchanged(ws: seq<u16>)
    ensures MapWords(ws, ToLe) == ws
  {
    forall i | 0 <= i < |ws|
      ensures MapWords(ws, ToLe)[i] == ws[i]
    {
      assert MapWords(ws, ToLe)[i] == ToLe(ws[i]);
    }
  }

  /** A word converted with `to_be` lies in memory as its big-endian bytes: so a buffer of
      such words, seen as bytes, is the words' big-endian image. */
  lemma {:induction false} BeInMemory(ws: seq<u16>)
    ensures WordsLe(MapWords(ws, ToBe)) == WordsBe(ws)
    decreases |ws|
  {
    if ws != [] {
      var init, last, m := ws[..|ws| - 1], ws[|ws| - 1], MapWords(ws, ToBe);
      BeInMemory(init);
      assert m[..|ws| - 1] == MapWords(init, ToBe);
      assert m[|ws| - 1] == ToBe(last);
      assert WordsLe(m) == WordsLe(m[..|ws| - 1]) + U16ToLe(ToBe(last));
      assert WordsBe(ws) == WordsBe(init) + U16ToBe(last);
    }
  }

  /** The writes of `send_u8` carry exactly the format's payload, in order, with nothing
      dropped or repeated. */
  lemma SendCarriesPayload(f: DataFormat, contents: seq<u16>)
    ensures AllWrites(SendWrites(f, contents))
    ensures Written(SendWrites(f, contents)) == Payload(f, contents)
  {
    match f
    case U8(bytes) =>
      assert Written([Write(bytes)]) == bytes + Written([]);
    case U16(words) =>
      assert Written([Write(WordsLe(words))]) == WordsLe(words) + Written([]);
    case U16LE(_) =>
      LeUnchanged(contents);
      assert Written([Write(WordsLe(contents))]) == WordsLe(contents) + Written([]);
    case U16BE(_) =>
      BeInMemory(contents);
      var w := Write(WordsLe(MapWords(contents, ToBe)));
      assert Written([w]) == w.bytes + Written([]);
    case U8Iter(items) =>
      RawPiecesWritten(Chunks(items, 32));
      ChunksConcat(items, 32);
    case U16LEIter(values) =>
      LeUnchanged(values);
      WordPiecesWritten(Chunks(values, 32));
      ChunksConcat(values, 32);
    case U16BEIter(values) =>
      var swapped := MapWords(values, ToBe);
      WordPiecesWritten(Chunks(swapped, 64));
      ChunksConcat(swapped, 64);
      BeInMemory(values);
    case Other =>
  }

  /** Every write but the last carries n bytes, and the last one 1 to n. */
  predicate BufferedShape(t: seq<Event>, n: nat) {
    (forall i :: 0 <= i < |t| - 1 ==> t[i].Write? && |t[i].bytes| == n)
    && (t != [] ==> t[|t| - 1].Write? && 0 < |t[|t| - 1].bytes| <= n)
  }

  /** For an iterator format, every write but the last fills the whole buffer, the last
      one holds at least one byte and at most a buffer, and nothing is written at all
      exactly when the iterator is empty. */
  lemma SendBufferSizes(f: DataFormat, contents: seq<u16>)
    requires IsIter(f)
    ensures SendWrites(f, contents) == [] <==> Payload(f, contents) == []
    ensures BufferedShape(SendWrites(f, contents), BufferBytes(f))
  {
    match f
    case U8Iter(items) =>
      ByteIterSizes(items);
    case U16LEIter(values) =>
      WordIterSizes(MapWords(values, ToLe), 32);
    case U16BEIter(values) =>
      WordIterSizes(MapWords(values, ToBe), 64);
  }

  lemma ByteIterSizes(items: seq<u8>)
    ensures PieceWrites(Chunks(items, 32), Raw) == [] <==> items == []
    ensures BufferedShape(PieceWrites(Chunks(items, 32), Raw), 32)
  {
    ChunksFull(items, 32);
    RawPieceSizes(Chunks(items, 32));
  }

  lemma WordIterSizes(words: seq<u16>, size: nat)
    requires size > 0
    ensures PieceWrites(Chunks(words, size), WordsLe) == [] <==> words == []
    ensures BufferedShape(PieceWrites(Chunks(words, size), WordsLe), 2 * size)
  {
    ChunksFull(words, size);
    WordPieceSizes(Chunks(words, size));
  }

  /** A piece of bytes is written as it is. */
  lemma RawPieceSizes(pieces: seq<seq<u8>>)
    ensures forall i :: 0 <= i < |pieces| ==> |PieceWrites(pieces, Raw)[i].bytes| == |pieces[i]|
  {
    forall i | 0 <= i < |pieces|
      ensures |PieceWrites(pieces, Raw)[i].bytes| == |pieces[i]|
    {
      assert PieceWrites(pieces, Raw)[i].bytes == Raw(pieces[i]);
    }
  }

  /** A piece of words is written as two bytes a word. */
  lemma WordPieceSizes(pieces: seq<seq<u16>>)
    ensures forall i :: 0 <= i < |pieces| ==> |PieceWrites(pieces, WordsLe)[i].bytes| == 2 * |pieces[i]|
  {
    forall i | 0 <= i < |pieces|
      ensures |PieceWrites(pieces, WordsLe)[i].bytes| == 2 * |pieces[i]|
    {
      assert PieceWrites(pieces, WordsLe)[i].bytes == WordsLe(pieces[i]);
    }
  }

  // ---------------------------------------------------------------------------------
  // The interface

  /** `SPIDeviceInterface`: the data/command pin and the SPI device share one trace. */
  class SpiInterface {
    /** Everything done to the pin and the bus so far. */
    var trace: seq<Event>

    constructor ()
      ensures trace == []
    {
      trace := [];
    }

    method Emit(e: Event)
      modifies this`trace
      ensures trace == old(trace) + [e]
    {
      trace := trace + [e];
    }

    /** `send_commands`: DC low (command), then the bytes. False: `send_u8` panicked. */
    method SendCommands(cmds: DataFormat) returns (ok: bool)
      modifies this`trace, SliceOf(cmds)
      ensures ok <==> !cmds.Other?
      ensures trace == old(trace) + [Dc(false)] + SendWrites(cmds, old(Contents(cmds)))
      ensures cmds.U16LE? ==> cmds.slice[..] == MapWords(old(cmds.slice[..]), ToLe)
      ensures cmds.U16BE? ==> cmds.slice[..] == MapWords(old(cmds.slice[..]), ToBe)
    {
      Emit(Dc(false));
      ok := SendU8(cmds);
    }

    /** `send_data`: DC high (data), then the bytes. False: `send_u8` panicked. */
    method SendData(buf: DataFormat) returns (ok: bool)
      modifies this`trace, SliceOf(buf)
      ensures ok <==> !buf.Other?
      ensures trace == old(trace) + [Dc(true)] + SendWrites(buf, old(Contents(buf)))
      ensures buf.U16LE? ==> buf.slice[..] == MapWords(old(buf.slice[..]), ToLe)
      ensures buf.U16BE? ==> buf.slice[..] == MapWords(old(buf.slice[..]), ToBe)
    {
      Emit(Dc(true));
      ok := SendU8(buf);
    }

    /** `send_u8`. False: the format is not handled (`unimplemented!`, a panic). */
    method SendU8(words: DataFormat) returns (ok: bool)
      modifies this`trace, SliceOf(words)
      ensures ok <==> !words.Other?
      ensures trace == old(trace) + SendWrites(words, old(Contents(words)))
      ensures words.U16LE? ==> words.slice[..] == MapWords(old(words.slice[..]), ToLe)
      ensures words.U16BE? ==> words.slice[..] == MapWords(old(words.slice[..]), ToBe)
    {
      ok := true;
      match words
      case U8(bytes) =>
        Emit(Write(bytes));
      case U16(ws) =>
        Emit(Write(WordsLe(ws)));
      case U16LE(slice) =>
        MapInPlace(slice, ToLe);
        Emit(Write(WordsLe(slice[..])));
      case U16BE(slice) =>
        MapInPlace(slice, ToBe);
        Emit(Write(WordsLe(slice[..])));
      case U8Iter(items) =>
        WriteBuffered(items, 32, Raw);
      case U16LEIter(values) =>
        WriteBuffered(MapWords(values, ToLe), 32, WordsLe);
      case U16BEIter(values) =>
        WriteBuffered(MapWords(values, ToBe), 64, WordsLe);
      case Other =>
        ok := false;
    }

    /** The loop of an iterator format: each item goes into a buffer of `size`; a full
        buffer is written and emptied; what is left at the end is written if it is not
        empty. */
    method WriteBuffered<T(0)>(items: seq<T>, size: nat, asBytes: seq<T> -> seq<u8>)
      requires size > 0
      modifies this`trace
      ensures trace == old(trace) + PieceWrites(Chunks(items, size), asBytes)
    {
      var buf := new T[size];
      var i := 0;
      ghost var full, start := 0, 0;
      ghost var t0 := trace;
      var n := 0;
      while n < |items|
        invariant start == Mul(full, size) && n == start + i <= |items| && i < size
        invariant forall m :: 0 <= m < i ==> buf[m] == items[start + m]
        invariant trace == t0 + PieceWrites(Chunks(items[..start], size), asBytes)
      {
        buf[i] := items[n];
        i, n := i + 1, n + 1;
        if i == buf.Length {
          assert buf[..] == items[start..n];
          Flush(items, size, full, start, n, buf[..], asBytes, t0);
          full, start := full + 1, n;
          i := 0;
        }
      }
      assert items[..|items|] == items;
      if i > 0 {
        assert buf[..i] == items[start..|items|];
        Flush(items, size, full, start, |items|, buf[..i], asBytes, t0);
      }
    }

    /** The `spi.write` of a buffer: after `full` whole buffers, the writes so far become
        those of the items up to the end of this piece. */
    method Flush<T>(ghost items: seq<T>, size: nat, ghost full: nat, ghost start: nat, ghost next: nat,
                    piece: seq<T>, asBytes: seq<T> -> seq<u8>, ghost t0: seq<Event>)
      requires size > 0 && 0 < |piece| <= size && start == Mul(full, size) && next == start + |piece| <= |items|
      requires piece == items[start..next]
      requires trace == t0 + PieceWrites(Chunks(items[..start], size), asBytes)
      modifies this`trace
      ensures trace == t0 + PieceWrites(Chunks(items[..next], size), asBytes)
    {
      FlushStep(items, size, full, start, piece, asBytes);
      AppendAssoc(t0, PieceWrites(Chunks(items[..start], size), asBytes), [Write(asBytes(piece))]);
      Emit(Write(asBytes(piece)));
    }

    /** `for v in slice.as_mut() { *v = f(*v) }`. */
    method MapInPlace(slice: array<u16>, f: u16 -> u16)
      modifies slice
      ensures slice[..] == MapWords(old(slice[..]), f)
    {
      for i := 0 to slice.Length
        invariant slice[..i] == MapWords(old(slice[..i]), f)
        invariant slice[i..] == old(slice[i..])
      {
        assert slice[i] == old(slice[i]);
        slice[i] := f(slice[i]);
        assert slice[..i + 1] == MapWords(old(slice[..i + 1]), f);
      }
    }
  }

  /** Flushing the buffer after `full` whole buffers adds the buffer's write: the writes
      so far are those of the items so far, cut into buffers. */
  lemma FlushStep<T>(items: seq<T>, size: nat, full: nat, start: nat, piece: seq<T>, asBytes: seq<T> -> seq<u8>)
    requires size > 0 && 0 < |piece| <= size && start == Mul(full, size) && start + |piece| <= |items|
    requires piece == items[start..start + |piece|]
    ensures PieceWrites(Chunks(items[..start + |piece|], size), asBytes)
      == PieceWrites(Chunks(items[..start], size), asBytes) + [Write(asBytes(piece))]
  {
    var done := items[..start];
    assert done + piece == items[..start + |piece|];
    ChunksSnoc(done, piece, size, full);
    var pieces := Chunks(done, size);
    assert PieceWrites(pieces + [piece], asBytes) == PieceWrites(pieces, asBytes) + [Write(asBytes(piece))];
  }

  // ---------------------------------------------------------------------------------
  // The drawing helpers of interface.rs. Each passes (x, y, width, height) where the
  // driver's `set_pixels` takes the window's corners; what the driver makes of that is
  // not modelled, so only the arguments and colours are stated.

  /** `draw_rgb565_le`: the image's byte pairs read little-endian. False: the image has an
      odd length, and reading the last pair panics. */
  method DrawRgb565Le(display: ST7789, image: seq<u8>, x: u16, y: u16, width: u16, height: u16) returns (ok: bool)
    modifies display`calls
    ensures ok <==> |image| % 2 == 0
    ensures ok ==> display.calls == old(display.calls) + [Call.SetPixels(x, y, width, height, LePairs(image))]
    ensures !ok ==> display.calls == old(display.calls)
  {
    if |image| % 2 != 0 {
      return false;
    }
    display.SetPixels(x, y, width, height, LePairs(image));
    ok := true;
  }

  /** `draw_rgb565_u8`: the image bytes, as they are, to `set_pixels_u8`. */
  method DrawRgb565U8(display: ST7789, image: seq<u8>, x: u16, y: u16, width: u16, height: u16)
    modifies display`calls
    ensures display.calls == old(display.calls) + [Call.SetPixelsU8(x, y, width, height, image)]
  {
    display.SetPixelsU8(x, y, width, height, image);
  }

  /** `clear_rect`: width·height copies of the colour. */
  method ClearRect(display: ST7789, color: u16, x: u16, y: u16, width: u16, height: u16)
    modifies display`calls
    ensures display.calls == old(display.calls) + [Call.SetPixels(x, y, width, height, Repeat(color, width * height))]
  {
    display.SetPixels(x, y, width, height, Repeat(color, width * height));
  }
}
