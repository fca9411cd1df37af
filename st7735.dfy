/**
  The ST7735 panel driver of usb_screen/src/st7735.rs.

  The driver's only effect is on the hardware: the data/command pin, the reset pin, SPI
  writes and delays. Each of those is an `Event` appended to `trace`. `Run` reads a
  trace the way the controller does (bytes clocked in while DC is low are commands, bytes
  clocked in while it is high are parameters of the last command), so each method's
  contract gives both the exact events and the commands the panel receives.
 */
module St7735 {
  import opened Bytes
  import opened Slices
  import opened Arith
  import opened Bus

  const SWRESET: u8 := 0x01
  const SLPOUT: u8 := 0x11
  const INVOFF: u8 := 0x20
  const INVON: u8 := 0x21
  const DISPON: u8 := 0x29
  const CASET: u8 := 0x2A
  const RASET: u8 := 0x2B
  const RAMWR: u8 := 0x2C
  const MADCTL: u8 := 0x36
  const COLMOD: u8 := 0x3A
  const FRMCTR1: u8 := 0xB1
  const FRMCTR2: u8 := 0xB2
  const FRMCTR3: u8 := 0xB3
  const INVCTR: u8 := 0xB4
  const PWCTR1: u8 := 0xC0
  const PWCTR2: u8 := 0xC1
  const PWCTR3: u8 := 0xC2
  const PWCTR4: u8 := 0xC3
  const PWCTR5: u8 := 0xC4
  const VMCTR1: u8 := 0xC5

  datatype Orientation = Portrait | Landscape | PortraitSwapped | LandscapeSwapped

  function OrientationCode(o: Orientation): u8 {
    match o
    case Portrait => 0x00
    case Landscape => 0x60
    case PortraitSwapped => 0xC0
    case LandscapeSwapped => 0xA0
  }

  /** The MADCTL parameter of `set_orientation`: the orientation's code, or'd with 0x08
      (BGR order) when the panel is not RGB. */
  function MadctlParam(o: Orientation, rgb: bool): (p: u8)
    ensures rgb ==> p == OrientationCode(o)
  {
    if rgb then OrientationCode(o) else ((OrientationCode(o) as bv8) | 0x08) as int
  }

  /** Bit 3 of the MADCTL parameter is set exactly when the panel is BGR, and the other bits
      are the orientation's code. */
  lemma MadctlBits(o: Orientation, rgb: bool)
    ensures (MadctlParam(o, rgb) as bv8) & 0xF7 == OrientationCode(o) as bv8
    ensures ((MadctlParam(o, rgb) as bv8) & 0x08 != 0) <==> !rgb
  {
    match o
    case Portrait =>
    case Landscape =>
    case PortraitSwapped =>
    case LandscapeSwapped =>
  }

  // ---------------------------------------------------------------------------------
  // What the controller receives

  /** A command byte with the parameter bytes that followed it. */
  datatype Command = Command(code: u8, params: seq<u8>)

  /** The controller's view of the bus so far: the DC level and the commands received. */
  datatype Panel = Panel(dataMode: bool, commands: seq<Command>)

  const Idle := Panel(false, [])

  /** Parameter bytes extend the last command; with no command yet they are ignored. */
  function WithParams(cmds: seq<Command>, bytes: seq<u8>): (r: seq<Command>)
    ensures |r| == |cmds|
  {
    if cmds == [] then []
    else cmds[..|cmds| - 1] + [Command(cmds[|cmds| - 1].code, cmds[|cmds| - 1].params + bytes)]
  }

  /** Bytes clocked in with DC low are commands, one per byte. */
  function AsCommands(bytes: seq<u8>): (r: seq<Command>)
    ensures |r| == |bytes|
  {
    seq(|bytes|, i requires 0 <= i < |bytes| => Command(bytes[i], []))
  }

  function Step(p: Panel, e: Event): Panel {
    match e
    case Dc(high) => Panel(high, p.commands)
    case Write(bytes) =>
      if p.dataMode then Panel(true, WithParams(p.commands, bytes))
      else Panel(false, p.commands + AsCommands(bytes))
    case Reset(_) => p
    case Delay(_) => p
  }

  /** The controller after a trace. */
  function Run(p: Panel, trace: seq<Event>): Panel
    decreases |trace|
  {
    if trace == [] then p else Run(Step(p, trace[0]), trace[1..])
  }

  lemma {:induction false} RunAppend(p: Panel, a: seq<Event>, b: seq<Event>)
    ensures Run(p, a + b) == Run(Run(p, a), b)
    decreases |a|
  {
    if a == [] {
      assert a + b == b;
    } else {
      assert (a + b)[1..] == a[1..] + b;
      RunAppend(Step(p, a[0]), a[1..], b);
    }
  }

  lemma RunSnoc(p: Panel, t: seq<Event>, e: Event)
    ensures Run(p, t + [e]) == Step(Run(p, t), e)
  {
    RunAppend(p, t, [e]);
    assert [e][1..] == [];
  }

  lemma WithParamsLast(cmds: seq<Command>, c: Command, bytes: seq<u8>)
    ensures WithParams(cmds + [c], bytes) == cmds + [Command(c.code, c.params + bytes)]
  {
    assert (cmds + [c])[..|cmds|] == cmds;
  }

  lemma WithParamsNone(cmds: seq<Command>)
    ensures WithParams(cmds, []) == cmds
  {
    if cmds != [] {
      var last := cmds[|cmds| - 1];
      assert last.params + [] == last.params;
    }
  }

  lemma WithParamsTwice(cmds: seq<Command>, a: seq<u8>, b: seq<u8>)
    ensures WithParams(WithParams(cmds, a), b) == WithParams(cmds, a + b)
  {
    if cmds != [] {
      var init, last := cmds[..|cmds| - 1], cmds[|cmds| - 1];
      assert cmds == init + [last];
      WithParamsLast(init, last, a);
      WithParamsLast(init, Command(last.code, last.params + a), b);
      assert last.params + a + b == last.params + (a + b);
    }
  }

  // ---------------------------------------------------------------------------------
  // The event sequences of the driver's methods

  /** `write_command`: DC low, the command byte, then DC high and the parameters only if
      there are any. */
  function CommandEvents(c: u8, params: seq<u8>): seq<Event> {
    [Dc(false), Write([c])] + if params == [] then [] else [Dc(true), Write(params)]
  }

  /** Whatever the bus held before, the panel then has command c with exactly `params`. */
  lemma CommandSeen(p: Panel, c: u8, params: seq<u8>)
    ensures Run(p, CommandEvents(c, params)) == Panel(params != [], p.commands + [Command(c, params)])
  {
    var q := Panel(false, p.commands + [Command(c, [])]);
    assert AsCommands([c]) == [Command(c, [])];
    RunAppend(p, [Dc(false)], [Write([c])]);
    assert Run(p, [Dc(false), Write([c])]) == q by {
      assert [Dc(false), Write([c])] == [Dc(false)] + [Write([c])];
      RunSnoc(p, [], Dc(false));
      RunSnoc(Panel(false, p.commands), [], Write([c]));
    }
    if params != [] {
      RunAppend(p, [Dc(false), Write([c])], [Dc(true), Write(params)]);
      RunSnoc(q, [Dc(true)], Write(params));
      RunSnoc(q, [], Dc(true));
      assert [Dc(true)] + [Write(params)] == [Dc(true), Write(params)];
      WithParamsLast(p.commands, Command(c, []), params);
      assert [] + params == params;
    } else {
      assert CommandEvents(c, params) == [Dc(false), Write([c])];
    }
  }

  /** The writes `write_words_buffered` makes of `bytes`: a write of 32 bytes each time the
      buffer fills, then one of whatever is left, possibly nothing. */
  function Buffered(bytes: seq<u8>): (trace: seq<Event>)
    decreases |bytes|
  {
    if |bytes| < 32 then [Write(bytes)] else [Write(bytes[..32])] + Buffered(bytes[32..])
  }

  /** The full 32-byte writes of a length that 32 divides. */
  function Blocks(bytes: seq<u8>): (trace: seq<Event>)
    decreases |bytes|
  {
    if |bytes| < 32 then [] else [Write(bytes[..32])] + Blocks(bytes[32..])
  }

  /** Only writes; every one but the last is exactly 32 bytes, the last is shorter (possibly
      empty), and together they are the bytes, in order. */
  lemma {:induction false} BufferedShape(bytes: seq<u8>)
    ensures var t := Buffered(bytes);
      && |t| == |bytes| / 32 + 1
      && (forall i :: 0 <= i < |t| ==> t[i].Write?)
      && (forall i :: 0 <= i < |t| - 1 ==> |t[i].bytes| == 32)
      && |t[|t| - 1].bytes| < 32
      && Written(t) == bytes
    decreases |bytes|
  {
    if |bytes| < 32 {
      assert Written([Write(bytes)]) == bytes + Written([]);
    } else {
      var rest := bytes[32..];
      BufferedShape(rest);
      var t := Buffered(bytes);
      assert t == [Write(bytes[..32])] + Buffered(rest);
      assert t[1..] == Buffered(rest);
      assert bytes == bytes[..32] + rest;
    }
  }

  lemma {:induction false} BlocksSnoc(done: seq<u8>, block: seq<u8>)
    requires |done| % 32 == 0 && |block| == 32
    ensures Blocks(done + block) == Blocks(done) + [Write(block)]
    decreases |done|
  {
    if |done| == 0 {
      assert done + block == block;
      assert block[..32] == block;
      assert block[32..] == [];
    } else {
      assert (done + block)[..32] == done[..32];
      assert (done + block)[32..] == done[32..] + block;
      BlocksSnoc(done[32..], block);
    }
  }

  /** Storing word i's two bytes after the first `index` buffered bytes buffers one more word. */
  lemma PushWord(words: seq<u16>, i: nat, flushed: seq<u8>, before: seq<u8>, after: seq<u8>, index: nat)
    requires i < |words| && index + 2 <= |before| == |after|
    requires WordsBe(words[..i]) == flushed + before[..index]
    requires forall k :: 0 <= k < index ==> after[k] == before[k]
    requires after[index] == U16ToBe(words[i])[0] && after[index + 1] == U16ToBe(words[i])[1]
    ensures WordsBe(words[..i + 1]) == flushed + after[..index + 2]
  {
    WordsBeAppend(words[..i], [words[i]]);
    assert words[..i + 1] == words[..i] + [words[i]];
    assert WordsBe([words[i]]) == WordsBe([]) + U16ToBe(words[i]);
    assert after[..index + 2] == before[..index] + U16ToBe(words[i]);
  }

  lemma {:induction false} BufferedSplit(done: seq<u8>, rest: seq<u8>)
    requires |done| % 32 == 0 && |rest| < 32
    ensures Buffered(done + rest) == Blocks(done) + [Write(rest)]
    decreases |done|
  {
    if |done| == 0 {
      assert done + rest == rest;
    } else {
      assert (done + rest)[..32] == done[..32];
      assert (done + rest)[32..] == done[32..] + rest;
      BufferedSplit(done[32..], rest);
    }
  }

  /** One write per word (`write_pixels`). */
  function WordWrites(words: seq<u16>): (trace: seq<Event>)
    ensures |trace| == |words|
    decreases |words|
  {
    if words == [] then [] else WordWrites(words[..|words| - 1]) + [Write(U16ToBe(words[|words| - 1]))]
  }

  /** A command sent without parameters, DC high, then data writes: how the driver streams
      a command's parameters. */
  function StreamEvents(c: u8, writes: seq<Event>): seq<Event> {
    CommandEvents(c, []) + [Dc(true)] + writes
  }

  /** `set_address_window`: CASET with the columns, RASET with the rows, each a pair of
      big-endian words moved by the offset (u16 additions, wrapping). */
  function WindowEvents(dx: u16, dy: u16, sx: u16, sy: u16, ex: u16, ey: u16): seq<Event> {
    StreamEvents(CASET, [Write(U16ToBe(Wrap16(sx + dx))), Write(U16ToBe(Wrap16(ex + dx)))])
    + StreamEvents(RASET, [Write(U16ToBe(Wrap16(sy + dy))), Write(U16ToBe(Wrap16(ey + dy)))])
  }

  function WindowCommands(dx: u16, dy: u16, sx: u16, sy: u16, ex: u16, ey: u16): seq<Command> {
    [ Command(CASET, U16ToBe(Wrap16(sx + dx)) + U16ToBe(Wrap16(ex + dx))),
      Command(RASET, U16ToBe(Wrap16(sy + dy)) + U16ToBe(Wrap16(ey + dy))) ]
  }

  /** `set_pixel`: a one-pixel window, RAMWR and the colour. */
  function PixelEvents(dx: u16, dy: u16, x: u16, y: u16, color: u16): seq<Event> {
    WindowEvents(dx, dy, x, y, x, y) + StreamEvents(RAMWR, [Write(U16ToBe(color))])
  }

  /** `set_pixels`: the window, RAMWR, then one write per colour. */
  function UnbufferedEvents(dx: u16, dy: u16, sx: u16, sy: u16, ex: u16, ey: u16, colors: seq<u16>): seq<Event> {
    WindowEvents(dx, dy, sx, sy, ex, ey) + StreamEvents(RAMWR, WordWrites(colors))
  }

  /** `set_pixels_buffered`: the window, RAMWR, then the colours as buffered words. */
  function PixelsEvents(dx: u16, dy: u16, sx: u16, sy: u16, ex: u16, ey: u16, colors: seq<u16>): seq<Event> {
    WindowEvents(dx, dy, sx, sy, ex, ey) + StreamEvents(RAMWR, Buffered(WordsBe(colors)))
  }

  function PixelsCommands(dx: u16, dy: u16, sx: u16, sy: u16, ex: u16, ey: u16, colors: seq<u16>): seq<Command> {
    WindowCommands(dx, dy, sx, sy, ex, ey) + [Command(RAMWR, WordsBe(colors))]
  }

  // What those sequences deliver to the controller

  /** One write per word carries the words' big-endian bytes. */
  lemma {:induction false} WordWritesBytes(words: seq<u16>)
    ensures AllWrites(WordWrites(words)) && Written(WordWrites(words)) == WordsBe(words)
    decreases |words|
  {
    if words != [] {
      var init, last := words[..|words| - 1], words[|words| - 1];
      WordWritesBytes(init);
      WrittenAppend(WordWrites(init), [Write(U16ToBe(last))]);
      assert Written([Write(U16ToBe(last))]) == U16ToBe(last) + Written([]);
      assert words == init + [last];
      WordsBeAppend(init, [last]);
      assert WordsBe([last]) == WordsBe([]) + U16ToBe(last);
    }
  }

  /** In data mode, writes only add parameter bytes to the last command. */
  lemma {:induction false} WritesSeen(p: Panel, writes: seq<Event>)
    requires p.dataMode && AllWrites(writes)
    ensures Run(p, writes) == Panel(true, WithParams(p.commands, Written(writes)))
    decreases |writes|
  {
    if writes == [] {
      WithParamsNone(p.commands);
    } else {
      var q := Step(p, writes[0]);
      WritesSeen(q, writes[1..]);
      WithParamsTwice(p.commands, writes[0].bytes, Written(writes[1..]));
    }
  }

  /** Whatever the bus held before, a streamed command reaches the panel with everything
      written after it as its parameters. */
  lemma StreamSeen(p: Panel, c: u8, writes: seq<Event>)
    requires AllWrites(writes)
    ensures Run(p, StreamEvents(c, writes)) == Panel(true, p.commands + [Command(c, Written(writes))])
  {
    RunAppend(p, CommandEvents(c, []) + [Dc(true)], writes);
    RunSnoc(p, CommandEvents(c, []), Dc(true));
    CommandSeen(p, c, []);
    WritesSeen(Panel(true, p.commands + [Command(c, [])]), writes);
    WithParamsLast(p.commands, Command(c, []), Written(writes));
    assert [] + Written(writes) == Written(writes);
  }

  lemma TwoWrites(a: seq<u8>, b: seq<u8>)
    ensures AllWrites([Write(a), Write(b)]) && Written([Write(a), Write(b)]) == a + b
  {
    assert [Write(a), Write(b)][1..] == [Write(b)];
    assert Written([Write(b)]) == b + Written([]);
  }

  /** The controller gets CASET with the two column words, then RASET with the two row
      words (the offset added, wrapping). */
  lemma WindowSeen(p: Panel, dx: u16, dy: u16, sx: u16, sy: u16, ex: u16, ey: u16)
    ensures Run(p, WindowEvents(dx, dy, sx, sy, ex, ey)) == Panel(true, p.commands + WindowCommands(dx, dy, sx, sy, ex, ey))
  {
    var a, b := U16ToBe(Wrap16(sx + dx)), U16ToBe(Wrap16(ex + dx));
    var c, d := U16ToBe(Wrap16(sy + dy)), U16ToBe(Wrap16(ey + dy));
    RunAppend(p, StreamEvents(CASET, [Write(a), Write(b)]), StreamEvents(RASET, [Write(c), Write(d)]));
    TwoWrites(a, b);
    TwoWrites(c, d);
    StreamSeen(p, CASET, [Write(a), Write(b)]);
    StreamSeen(Panel(true, p.commands + [Command(CASET, a + b)]), RASET, [Write(c), Write(d)]);
  }

  /** `set_pixel` reaches the panel as a one-pixel window and a RAMWR holding the colour. */
  lemma PixelSeen(p: Panel, dx: u16, dy: u16, x: u16, y: u16, color: u16)
    ensures Run(p, PixelEvents(dx, dy, x, y, color))
      == Panel(true, p.commands + WindowCommands(dx, dy, x, y, x, y) + [Command(RAMWR, U16ToBe(color))])
  {
    var w := WindowEvents(dx, dy, x, y, x, y);
    RunAppend(p, w, StreamEvents(RAMWR, [Write(U16ToBe(color))]));
    WindowSeen(p, dx, dy, x, y, x, y);
    assert Written([Write(U16ToBe(color))]) == U16ToBe(color) + Written([]);
    assert Written([Write(U16ToBe(color))]) == U16ToBe(color);
    StreamSeen(Run(p, w), RAMWR, [Write(U16ToBe(color))]);
  }

  /** `set_pixels` and `set_pixels_buffered` deliver the same commands: the window, then a
      RAMWR whose parameters are the colours, big-endian. */
  lemma PixelsSeen(p: Panel, dx: u16, dy: u16, sx: u16, sy: u16, ex: u16, ey: u16, colors: seq<u16>)
    ensures Run(p, PixelsEvents(dx, dy, sx, sy, ex, ey, colors)) == Panel(true, p.commands + PixelsCommands(dx, dy, sx, sy, ex, ey, colors))
    ensures Run(p, UnbufferedEvents(dx, dy, sx, sy, ex, ey, colors)) == Panel(true, p.commands + PixelsCommands(dx, dy, sx, sy, ex, ey, colors))
  {
    var w := WindowEvents(dx, dy, sx, sy, ex, ey);
    WindowSeen(p, dx, dy, sx, sy, ex, ey);
    BufferedShape(WordsBe(colors));
    RunAppend(p, w, StreamEvents(RAMWR, Buffered(WordsBe(colors))));
    StreamSeen(Run(p, w), RAMWR, Buffered(WordsBe(colors)));
    WordWritesBytes(colors);
    RunAppend(p, w, StreamEvents(RAMWR, WordWrites(colors)));
    StreamSeen(Run(p, w), RAMWR, WordWrites(colors));
  }

  function HardResetEvents(hasRst: bool): seq<Event> {
    if hasRst then [Reset(true), Delay(10), Reset(false), Delay(10), Reset(true)] else []
  }

  /** One command of `init`: its code, its parameters and the delay after it (0 for none). */
  datatype InitStep = InitStep(code: u8, params: seq<u8>, delay: nat)

  /** The command sequence of `init`, in order. */
  function InitTable(k: nat, inverted: bool, rgb: bool): InitStep
    requires k < 16
  {
    if k == 0 then InitStep(SWRESET, [], 200)
    else if k == 1 then InitStep(SLPOUT, [], 200)
    else if k == 2 then InitStep(FRMCTR1, [0x01, 0x2C, 0x2D], 0)
    else if k == 3 then InitStep(FRMCTR2, [0x01, 0x2C, 0x2D], 0)
    else if k == 4 then InitStep(FRMCTR3, [0x01, 0x2C, 0x2D, 0x01, 0x2C, 0x2D], 0)
    else if k == 5 then InitStep(INVCTR, [0x07], 0)
    else if k == 6 then InitStep(PWCTR1, [0xA2, 0x02, 0x84], 0)
    else if k == 7 then InitStep(PWCTR2, [0xC5], 0)
    else if k == 8 then InitStep(PWCTR3, [0x0A, 0x00], 0)
    else if k == 9 then InitStep(PWCTR4, [0x8A, 0x2A], 0)
    else if k == 10 then InitStep(PWCTR5, [0x8A, 0xEE], 0)
    else if k == 11 then InitStep(VMCTR1, [0x0E], 0)
    else if k == 12 then InitStep(if inverted then INVON else INVOFF, [], 0)
    else if k == 13 then InitStep(MADCTL, [if rgb then 0x00 else 0x08], 0)
    else if k == 14 then InitStep(COLMOD, [0x05], 0)
    else InitStep(DISPON, [], 200)
  }

  function StepEvents(s: InitStep): seq<Event> {
    CommandEvents(s.code, s.params) + if s.delay == 0 then [] else [Delay(s.delay)]
  }

  /** The events of the first n commands of `init`. */
  function InitSteps(n: nat, inverted: bool, rgb: bool): seq<Event>
    requires n <= 16
  {
    if n == 0 then [] else InitSteps(n - 1, inverted, rgb) + StepEvents(InitTable(n - 1, inverted, rgb))
  }

  /** `init`: the reset, then the command sequence with its delays. */
  function InitEvents(hasRst: bool, inverted: bool, rgb: bool): seq<Event> {
    HardResetEvents(hasRst) + InitSteps(16, inverted, rgb)
  }

  /** The commands of the first n steps of `init`. */
  function InitPrefix(n: nat, inverted: bool, rgb: bool): (cmds: seq<Command>)
    requires n <= 16
    ensures |cmds| == n
  {
    if n == 0 then []
    else InitPrefix(n - 1, inverted, rgb) + [Command(InitTable(n - 1, inverted, rgb).code, InitTable(n - 1, inverted, rgb).params)]
  }

  /** The commands the panel receives from `init`. */
  function InitCommands(inverted: bool, rgb: bool): (cmds: seq<Command>)
    ensures |cmds| == 16
  {
    InitPrefix(16, inverted, rgb)
  }

  lemma {:induction false} InitPrefixAt(n: nat, inverted: bool, rgb: bool, k: nat)
    requires k < n <= 16
    ensures InitPrefix(n, inverted, rgb)[k] == Command(InitTable(k, inverted, rgb).code, InitTable(k, inverted, rgb).params)
    decreases n
  {
    if k < n - 1 {
      InitPrefixAt(n - 1, inverted, rgb, k);
    }
  }

  /** The init sequence switches inversion as configured, selects RGB or BGR order, sets
      16-bit colour, and turns the display on last. */
  lemma InitOrder(inverted: bool, rgb: bool)
    ensures var cmds := InitCommands(inverted, rgb);
      && cmds[0] == Command(SWRESET, []) && cmds[1] == Command(SLPOUT, [])
      && cmds[12] == Command(if inverted then INVON else INVOFF, [])
      && cmds[13] == Command(MADCTL, [MadctlParam(Portrait, rgb)])
      && cmds[14] == Command(COLMOD, [0x05]) && cmds[15] == Command(DISPON, [])
      && forall i :: 0 <= i < 15 ==> cmds[i].code != DISPON
  {
    forall i | 0 <= i < 16 {
      InitPrefixAt(16, inverted, rgb, i);
    }
  }

  /** A trace followed by the events of the first n steps of `init`, appended one call
      at a time as the driver appends them. */
  function AfterSteps(t: seq<Event>, n: nat, inverted: bool, rgb: bool): seq<Event>
    requires n <= 16
  {
    if n == 0 then t else AppendStep(AfterSteps(t, n - 1, inverted, rgb), InitTable(n - 1, inverted, rgb))
  }

  /** A trace followed by the events of one step, appended one call at a time. */
  function AppendStep(prev: seq<Event>, s: InitStep): seq<Event> {
    if s.delay == 0 then prev + CommandEvents(s.code, s.params)
    else prev + CommandEvents(s.code, s.params) + [Delay(s.delay)]
  }

  lemma AppendStepAssoc(t: seq<Event>, p: seq<Event>, s: InitStep)
    ensures AppendStep(t + p, s) == t + (p + StepEvents(s))
  {
  }

  lemma {:induction false} AfterStepsAppend(t: seq<Event>, n: nat, inverted: bool, rgb: bool)
    requires n <= 16
    ensures AfterSteps(t, n, inverted, rgb) == t + InitSteps(n, inverted, rgb)
    decreases n
  {
    if n > 0 {
      var m := n - 1;
      AfterStepsAppend(t, m, inverted, rgb);
      AppendStepAssoc(t, InitSteps(m, inverted, rgb), InitTable(m, inverted, rgb));
    } else {
      assert t + [] == t;
    }
  }

  /** The trace t followed by the command sequence of `init`, written out call by call:
      the first eight commands, then the last eight. */
  function InitTrace(t: seq<Event>, inverted: bool, rgb: bool): seq<Event> {
    InitTail(InitHead(t), inverted, rgb)
  }

  function InitHead(t: seq<Event>): seq<Event> {
    t
    + CommandEvents(SWRESET, []) + [Delay(200)]
    + CommandEvents(SLPOUT, []) + [Delay(200)]
    + CommandEvents(FRMCTR1, [0x01, 0x2C, 0x2D])
    + CommandEvents(FRMCTR2, [0x01, 0x2C, 0x2D])
    + CommandEvents(FRMCTR3, [0x01, 0x2C, 0x2D, 0x01, 0x2C, 0x2D])
    + CommandEvents(INVCTR, [0x07])
    + CommandEvents(PWCTR1, [0xA2, 0x02, 0x84])
    + CommandEvents(PWCTR2, [0xC5])
  }

  function InitTail(t: seq<Event>, inverted: bool, rgb: bool): seq<Event> {
    t
    + CommandEvents(PWCTR3, [0x0A, 0x00])
    + CommandEvents(PWCTR4, [0x8A, 0x2A])
    + CommandEvents(PWCTR5, [0x8A, 0xEE])
    + CommandEvents(VMCTR1, [0x0E])
    + CommandEvents(if inverted then INVON else INVOFF, [])
    + CommandEvents(MADCTL, [if rgb then 0x00 else 0x08])
    + CommandEvents(COLMOD, [0x05])
    + CommandEvents(DISPON, []) + [Delay(200)]
  }

  /** Step k of `init` appends a known command (and the delay after it, if any). */
  lemma AfterStep(t: seq<Event>, k: nat, next: nat, inverted: bool, rgb: bool, c: u8, params: seq<u8>, delay: nat)
    requires k < 16 && next == k + 1 && InitTable(k, inverted, rgb) == InitStep(c, params, delay)
    ensures delay == 0 ==> AfterSteps(t, next, inverted, rgb) == AfterSteps(t, k, inverted, rgb) + CommandEvents(c, params)
    ensures delay > 0 ==> AfterSteps(t, next, inverted, rgb) == AfterSteps(t, k, inverted, rgb) + CommandEvents(c, params) + [Delay(delay)]
  {
  }

  lemma InitTraceChain(t: seq<Event>, inverted: bool, rgb: bool)
    ensures AfterSteps(t, 16, inverted, rgb) == InitTrace(t, inverted, rgb)
  {
    AfterStep(t, 0, 1, inverted, rgb, SWRESET, [], 200);
    AfterStep(t, 1, 2, inverted, rgb, SLPOUT, [], 200);
    AfterStep(t, 2, 3, inverted, rgb, FRMCTR1, [0x01, 0x2C, 0x2D], 0);
    AfterStep(t, 3, 4, inverted, rgb, FRMCTR2, [0x01, 0x2C, 0x2D], 0);
    AfterStep(t, 4, 5, inverted, rgb, FRMCTR3, [0x01, 0x2C, 0x2D, 0x01, 0x2C, 0x2D], 0);
    AfterStep(t, 5, 6, inverted, rgb, INVCTR, [0x07], 0);
    AfterStep(t, 6, 7, inverted, rgb, PWCTR1, [0xA2, 0x02, 0x84], 0);
    AfterStep(t, 7, 8, inverted, rgb, PWCTR2, [0xC5], 0);
    AfterStep(t, 8, 9, inverted, rgb, PWCTR3, [0x0A, 0x00], 0);
    AfterStep(t, 9, 10, inverted, rgb, PWCTR4, [0x8A, 0x2A], 0);
    AfterStep(t, 10, 11, inverted, rgb, PWCTR5, [0x8A, 0xEE], 0);
    AfterStep(t, 11, 12, inverted, rgb, VMCTR1, [0x0E], 0);
    AfterStep(t, 12, 13, inverted, rgb, if inverted then INVON else INVOFF, [], 0);
    AfterStep(t, 13, 14, inverted, rgb, MADCTL, [if rgb then 0x00 else 0x08], 0);
    AfterStep(t, 14, 15, inverted, rgb, COLMOD, [0x05], 0);
    AfterStep(t, 15, 16, inverted, rgb, DISPON, [], 200);
  }

  /** Written out, the sequence is the sixteen steps of the table. */
  lemma InitTraceSteps(t: seq<Event>, inverted: bool, rgb: bool)
    ensures InitTrace(t, inverted, rgb) == t + InitSteps(16, inverted, rgb)
  {
    InitTraceChain(t, inverted, rgb);
    AfterStepsAppend(t, 16, inverted, rgb);
  }

  /** The reset followed by the written-out sequence is the whole of `init`. */
  lemma InitTraceIsInit(t0: seq<Event>, t1: seq<Event>, hasRst: bool, inverted: bool, rgb: bool)
    requires t1 == t0 + HardResetEvents(hasRst)
    ensures InitTail(InitHead(t1), inverted, rgb) == t0 + InitEvents(hasRst, inverted, rgb)
  {
    InitTraceSteps(t1, inverted, rgb);
    AppendAssoc(t0, HardResetEvents(hasRst), InitSteps(16, inverted, rgb));
  }

  /** The reset pin and the delays do not reach the controller. */
  lemma QuietSeen(p: Panel, t: seq<Event>)
    requires forall i :: 0 <= i < |t| ==> t[i].Reset? || t[i].Delay?
    ensures Run(p, t) == p
    decreases |t|
  {
    if t != [] {
      QuietSeen(p, t[1..]);
    }
  }

  /** One step of `init` adds its command with its parameters; its delay adds nothing. */
  lemma StepSeen(q: Panel, s: InitStep)
    ensures Run(q, StepEvents(s)).commands == q.commands + [Command(s.code, s.params)]
  {
    var quiet := if s.delay == 0 then [] else [Delay(s.delay)];
    RunAppend(q, CommandEvents(s.code, s.params), quiet);
    CommandSeen(q, s.code, s.params);
    QuietSeen(Run(q, CommandEvents(s.code, s.params)), quiet);
  }

  lemma {:induction false} InitStepsSeen(p: Panel, n: nat, inverted: bool, rgb: bool)
    requires n <= 16
    ensures Run(p, InitSteps(n, inverted, rgb)).commands == p.commands + InitPrefix(n, inverted, rgb)
    decreases n
  {
    if n > 0 {
      var m := n - 1;
      var prev, step := InitSteps(m, inverted, rgb), InitTable(m, inverted, rgb);
      InitStepsSeen(p, m, inverted, rgb);
      RunAppend(p, prev, StepEvents(step));
      StepSeen(Run(p, prev), step);
    }
  }

  /** Whatever the bus held before, `init` leaves the controller with the command sequence
      appended. */
  lemma InitSeen(p: Panel, hasRst: bool, inverted: bool, rgb: bool)
    ensures Run(p, InitEvents(hasRst, inverted, rgb)).commands == p.commands + InitCommands(inverted, rgb)
  {
    RunAppend(p, HardResetEvents(hasRst), InitSteps(16, inverted, rgb));
    ResetSeen(p, hasRst);
    InitStepsSeen(p, 16, inverted, rgb);
  }

  /** The reset pulse of `hard_reset` sends the controller nothing. */
  lemma ResetSeen(p: Panel, hasRst: bool)
    ensures Run(p, HardResetEvents(hasRst)) == p
  {
    if hasRst {
      var pulse := [Reset(true), Delay(10), Reset(false), Delay(10), Reset(true)];
      assert forall i :: 0 <= i < |pulse| ==> pulse[i].Reset? || pulse[i].Delay?;
      QuietSeen(p, pulse);
    }
  }

  // ---------------------------------------------------------------------------------
  // draw_image_at and clear_screen

  /** Line y + r as a wrapping u16 (`y + y1 as u16`). */
  function LineOf(y: u16, r: nat): u16 {
    Wrap16(y + r)
  }

  /** How many rows `draw_image_at` sends: it stops at the first row r whose line
      `y + r` (as a wrapping u16) is not above the limit. */
  function RowsShown(y: u16, n: nat, limit: u16, r: nat): (k: nat)
    requires r <= n
    ensures r <= k <= n
    decreases n - r
  {
    if r == n || LineOf(y, r) >= limit then r else RowsShown(y, n, limit, r + 1)
  }

  /** Every shown row's line is on screen, and the row after the last shown one, if there
      is one, is not. */
  lemma {:induction false} RowsShownFirst(y: u16, n: nat, limit: u16, r: nat)
    requires r <= n && forall r' :: 0 <= r' < r ==> LineOf(y, r') < limit
    ensures var k := RowsShown(y, n, limit, r);
      (forall r' :: 0 <= r' < k ==> LineOf(y, r') < limit) && (k < n ==> LineOf(y, k) >= limit)
    decreases n - r
  {
    if r < n && LineOf(y, r) < limit {
      RowsShownFirst(y, n, limit, r + 1);
    }
  }

  /** A row is cut to the `height - x` pixels left of the right edge. */
  function LineWidth(len: nat, x: u16, height: nat): (w: nat)
    requires x <= height
    ensures w <= len && x + w <= height
    ensures x + len <= height ==> w == len
    ensures x + len > height ==> x + w == height
  {
    if x + len > height then height - x else len
  }

  /** The `set_pixels_buffered` call for row r of the image: columns x to x + line width
      of line y + r. */
  function RowEvents(dx: u16, dy: u16, x: u16, y: u16, height: nat, rows: seq<seq<u16>>, r: nat): seq<Event>
    requires r < |rows| && x <= height
  {
    var sy, lw := LineOf(y, r), LineWidth(|rows[r]|, x, height);
    PixelsEvents(dx, dy, x, sy, Wrap16(x + lw), Wrap16(sy + 1), rows[r][..lw])
  }

  /** The events of the first n rows of `draw_image_at`. */
  function ImageEvents(dx: u16, dy: u16, x: u16, y: u16, height: nat, rows: seq<seq<u16>>, n: nat): seq<Event>
    requires n <= |rows| && (n > 0 ==> x <= height)
  {
    if n == 0 then [] else ImageEvents(dx, dy, x, y, height, rows, n - 1) + RowEvents(dx, dy, x, y, height, rows, n - 1)
  }

  /** What the first n rows of `draw_image_at` send to the controller: the commands of
      each row (`RowCommands`) one after another. */
  function ImageCommands(dx: u16, dy: u16, x: u16, y: u16, height: nat, rows: seq<seq<u16>>, n: nat): (cmds: seq<Command>)
    requires n <= |rows| && (n > 0 ==> x <= height)
    ensures |cmds| == 3 * n
  {
    var blocks := ImageRows(dx, dy, x, y, height, rows, n);
    ConcatLength(blocks, 3);
    MulIsProduct(n, 3);
    Concat(blocks)
  }

  function ImageRows(dx: u16, dy: u16, x: u16, y: u16, height: nat, rows: seq<seq<u16>>, n: nat): (blocks: seq<seq<Command>>)
    requires n <= |rows| && (n > 0 ==> x <= height)
    ensures |blocks| == n && RowsOf(blocks, 3)
  {
    seq(n, r requires 0 <= r < n => RowCommands(dx, dy, x, y, height, rows, r))
  }

  /** What row r of the image sends to the controller. */
  function RowCommands(dx: u16, dy: u16, x: u16, y: u16, height: nat, rows: seq<seq<u16>>, r: nat): (cmds: seq<Command>)
    requires r < |rows| && x <= height
    ensures |cmds| == 3
  {
    var sy, lw := LineOf(y, r), LineWidth(|rows[r]|, x, height);
    PixelsCommands(dx, dy, x, sy, Wrap16(x + lw), Wrap16(sy + 1), rows[r][..lw])
  }

  /** One more row adds its commands at the end. */
  lemma ImageCommandsSnoc(dx: u16, dy: u16, x: u16, y: u16, height: nat, rows: seq<seq<u16>>, n: nat, m: nat)
    requires 0 < n <= |rows| && x <= height && m == n - 1
    ensures ImageCommands(dx, dy, x, y, height, rows, n)
      == ImageCommands(dx, dy, x, y, height, rows, m) + RowCommands(dx, dy, x, y, height, rows, m)
  {
    var prev, last := ImageRows(dx, dy, x, y, height, rows, m), RowCommands(dx, dy, x, y, height, rows, m);
    assert ImageRows(dx, dy, x, y, height, rows, n) == prev + [last];
    ConcatSnoc(prev, last);
  }

  /** Row r of the image reaches the panel as a one-line window from column x to
      x + line width on line y + r, followed by its first `line width` colours. */
  lemma ImageCommandsAt(dx: u16, dy: u16, x: u16, y: u16, height: nat, rows: seq<seq<u16>>, n: nat, r: nat)
    requires n <= |rows| && x <= height && r < n
    ensures var cmds, lw, sy := ImageCommands(dx, dy, x, y, height, rows, n), LineWidth(|rows[r]|, x, height), LineOf(y, r);
      && cmds[3 * r] == Command(CASET, U16ToBe(Wrap16(x + dx)) + U16ToBe(Wrap16(Wrap16(x + lw) + dx)))
      && cmds[3 * r + 1] == Command(RASET, U16ToBe(Wrap16(sy + dy)) + U16ToBe(Wrap16(Wrap16(sy + 1) + dy)))
      && cmds[3 * r + 2] == Command(RAMWR, WordsBe(rows[r][..lw]))
  {
    PieceOfThree(ImageCommands(dx, dy, x, y, height, rows, n), ImageRows(dx, dy, x, y, height, rows, n), r);
    RowCommandsAre(dx, dy, x, y, height, rows, r);
  }

  lemma RowCommandsAre(dx: u16, dy: u16, x: u16, y: u16, height: nat, rows: seq<seq<u16>>, r: nat)
    requires r < |rows| && x <= height
    ensures var row, lw, sy := RowCommands(dx, dy, x, y, height, rows, r), LineWidth(|rows[r]|, x, height), LineOf(y, r);
      && row[0] == Command(CASET, U16ToBe(Wrap16(x + dx)) + U16ToBe(Wrap16(Wrap16(x + lw) + dx)))
      && row[1] == Command(RASET, U16ToBe(Wrap16(sy + dy)) + U16ToBe(Wrap16(Wrap16(sy + 1) + dy)))
      && row[2] == Command(RAMWR, WordsBe(rows[r][..lw]))
  {
  }

  /** The events of the first n lines of `clear_screen`. */
  function ClearEvents(dx: u16, dy: u16, width: nat, color: u16, n: nat): seq<Event> {
    if n == 0 then []
    else
      var l := Wrap16(n - 1);
      ClearEvents(dx, dy, width, color, n - 1)
      + PixelsEvents(dx, dy, 0, l, Wrap16(width), Wrap16(l + 1), Repeat(color, width))
  }

  /** What the first n lines of `clear_screen` send to the controller. */
  function ClearCommands(dx: u16, dy: u16, width: nat, color: u16, n: nat): (cmds: seq<Command>)
    ensures |cmds| == 3 * n
  {
    var blocks := ClearRows(dx, dy, width, color, n);
    ConcatLength(blocks, 3);
    MulIsProduct(n, 3);
    Concat(blocks)
  }

  function ClearRows(dx: u16, dy: u16, width: nat, color: u16, n: nat): (blocks: seq<seq<Command>>)
    ensures |blocks| == n && RowsOf(blocks, 3)
  {
    seq(n, l requires 0 <= l < n => LineCommands(dx, dy, width, color, l))
  }

  /** What line l of `clear_screen` sends to the controller. */
  function LineCommands(dx: u16, dy: u16, width: nat, color: u16, l: nat): (cmds: seq<Command>)
    ensures |cmds| == 3
  {
    var sy := Wrap16(l);
    PixelsCommands(dx, dy, 0, sy, Wrap16(width), Wrap16(sy as int + 1), Repeat(color, width))
  }

  /** One more line adds its commands at the end. */
  lemma ClearCommandsSnoc(dx: u16, dy: u16, width: nat, color: u16, n: nat, m: nat)
    requires 0 < n && m == n - 1
    ensures ClearCommands(dx, dy, width, color, n) == ClearCommands(dx, dy, width, color, m) + LineCommands(dx, dy, width, color, m)
  {
    var prev, last := ClearRows(dx, dy, width, color, m), LineCommands(dx, dy, width, color, m);
    assert ClearRows(dx, dy, width, color, n) == prev + [last];
    ConcatSnoc(prev, last);
  }

  /** Line l of the screen is cleared by a one-line window (0, l) to (width, l + 1) holding
      `width` copies of the colour. */
  lemma ClearCommandsAt(dx: u16, dy: u16, width: nat, color: u16, n: nat, l: nat)
    requires l < n
    ensures var cmds, sy := ClearCommands(dx, dy, width, color, n), Wrap16(l);
      && cmds[3 * l] == Command(CASET, U16ToBe(Wrap16(0 + dx)) + U16ToBe(Wrap16(Wrap16(width) + dx)))
      && cmds[3 * l + 1] == Command(RASET, U16ToBe(Wrap16(sy + dy)) + U16ToBe(Wrap16(Wrap16(sy + 1) + dy)))
      && cmds[3 * l + 2] == Command(RAMWR, WordsBe(Repeat(color, width)))
  {
    PieceOfThree(ClearCommands(dx, dy, width, color, n), ClearRows(dx, dy, width, color, n), l);
  }

  /** One more `set_pixels_buffered` call after a trace adds its commands to those of the
      trace. */
  lemma PixelsAfter(p: Panel, prev: seq<Event>, cmds: seq<Command>, dx: u16, dy: u16, sx: u16, sy: u16, ex: u16, ey: u16, colors: seq<u16>)
    requires Run(p, prev).commands == p.commands + cmds
    ensures Run(p, prev + PixelsEvents(dx, dy, sx, sy, ex, ey, colors)).commands
      == p.commands + (cmds + PixelsCommands(dx, dy, sx, sy, ex, ey, colors))
  {
    RunAppend(p, prev, PixelsEvents(dx, dy, sx, sy, ex, ey, colors));
    PixelsSeen(Run(p, prev), dx, dy, sx, sy, ex, ey, colors);
  }

  /** One more row of `draw_image_at` extends the events of the rows before it. */
  lemma ImageNext(t0: seq<Event>, before: seq<Event>, after: seq<Event>, dx: u16, dy: u16, x: u16, y: u16, height: nat,
                  rows: seq<seq<u16>>, r: nat)
    requires r < |rows| && x <= height
    requires before == t0 + ImageEvents(dx, dy, x, y, height, rows, r)
    requires after == before + RowEvents(dx, dy, x, y, height, rows, r)
    ensures after == t0 + ImageEvents(dx, dy, x, y, height, rows, r + 1)
  {
    AppendAssoc(t0, ImageEvents(dx, dy, x, y, height, rows, r), RowEvents(dx, dy, x, y, height, rows, r));
  }

  /** One more line of `clear_screen` extends the events of the lines before it. */
  lemma ClearNext(t0: seq<Event>, before: seq<Event>, after: seq<Event>, dx: u16, dy: u16, width: nat, color: u16, n: nat)
    requires before == t0 + ClearEvents(dx, dy, width, color, n)
    requires after == before + PixelsEvents(dx, dy, 0, Wrap16(n), Wrap16(width), Wrap16(Wrap16(n) as int + 1), Repeat(color, width))
    ensures after == t0 + ClearEvents(dx, dy, width, color, n + 1)
  {
    AppendAssoc(t0, ClearEvents(dx, dy, width, color, n), PixelsEvents(dx, dy, 0, Wrap16(n), Wrap16(width), Wrap16(Wrap16(n) as int + 1), Repeat(color, width)));
  }

  /** Whatever the bus held before, the first n rows of `draw_image_at` add exactly
      `ImageCommands` (`ImageCommandsAt` says what each of them is). */
  lemma {:induction false} ImageSeen(p: Panel, dx: u16, dy: u16, x: u16, y: u16, height: nat, rows: seq<seq<u16>>, n: nat)
    requires n <= |rows| && (n > 0 ==> x <= height)
    ensures Run(p, ImageEvents(dx, dy, x, y, height, rows, n)).commands == p.commands + ImageCommands(dx, dy, x, y, height, rows, n)
    decreases n
  {
    if n > 0 {
      var m := n - 1;
      var prev, cmds := ImageEvents(dx, dy, x, y, height, rows, m), ImageCommands(dx, dy, x, y, height, rows, m);
      ImageSeen(p, dx, dy, x, y, height, rows, m);
      RowAfter(p, prev, cmds, dx, dy, x, y, height, rows, m);
      ImageCommandsSnoc(dx, dy, x, y, height, rows, n, m);
    }
  }

  /** One more row of `draw_image_at` after a trace adds its commands to those of the trace. */
  lemma RowAfter(p: Panel, prev: seq<Event>, cmds: seq<Command>, dx: u16, dy: u16, x: u16, y: u16, height: nat, rows: seq<seq<u16>>, r: nat)
    requires r < |rows| && x <= height
    requires Run(p, prev).commands == p.commands + cmds
    ensures Run(p, prev + RowEvents(dx, dy, x, y, height, rows, r)).commands
      == p.commands + (cmds + RowCommands(dx, dy, x, y, height, rows, r))
  {
    var sy, lw := LineOf(y, r), LineWidth(|rows[r]|, x, height);
    PixelsAfter(p, prev, cmds, dx, dy, x, sy, Wrap16(x as int + lw), Wrap16(sy as int + 1), rows[r][..lw]);
  }

  /** Whatever the bus held before, the first n lines of `clear_screen` add exactly
      `ClearCommands` (`ClearCommandsAt` says what each of them is). */
  lemma {:induction false} ClearSeen(p: Panel, dx: u16, dy: u16, width: nat, color: u16, n: nat)
    ensures Run(p, ClearEvents(dx, dy, width, color, n)).commands == p.commands + ClearCommands(dx, dy, width, color, n)
    decreases n
  {
    if n > 0 {
      var l := Wrap16(n - 1);
      ClearSeen(p, dx, dy, width, color, n - 1);
      ClearCommandsSnoc(dx, dy, width, color, n, n - 1);
      PixelsAfter(p, ClearEvents(dx, dy, width, color, n - 1), ClearCommands(dx, dy, width, color, n - 1),
        dx, dy, 0, l, Wrap16(width), Wrap16(l as int + 1), Repeat(color, width));
    }
  }

  // ---------------------------------------------------------------------------------
  // The driver. Each method states the exact events it adds to `trace`; the lemmas above
  // say what the controller makes of them.

  class ST7735 {
    const hasRst: bool
    const rgb: bool
    const inverted: bool
    var dx: u16
    var dy: u16
    const width: u32
    const height: u32
    /** Everything done to the hardware so far. */
    var trace: seq<Event>

    /** `ST7735::new`; `hasRst` says whether a reset pin was given. */
    constructor (hasRst: bool, rgb: bool, inverted: bool, width: u32, height: u32)
      ensures this.hasRst == hasRst && this.rgb == rgb && this.inverted == inverted
      ensures this.width == width && this.height == height
      ensures dx == 0 && dy == 0 && trace == []
    {
      this.hasRst, this.rgb, this.inverted := hasRst, rgb, inverted;
      this.width, this.height := width, height;
      dx, dy := 0, 0;
      trace := [];
    }

    method Emit(e: Event)
      modifies this`trace
      ensures trace == old(trace) + [e]
    {
      trace := trace + [e];
    }

    method Delay(ms: nat)
      modifies this`trace
      ensures trace == old(trace) + [Event.Delay(ms)]
    {
      Emit(Event.Delay(ms));
    }

    /** `hard_reset`: high, low, high on the reset pin, 10 ms apart, if there is one. */
    method HardReset()
      modifies this`trace
      ensures trace == old(trace) + HardResetEvents(hasRst)
    {
      ghost var t0 := trace;
      if hasRst {
        Emit(Reset(true));
        Delay(10);
        Emit(Reset(false));
        Delay(10);
        Emit(Reset(true));
        assert trace == t0 + HardResetEvents(hasRst);
      } else {
        assert trace == t0 + [];
      }
    }

    /** `start_data`: DC high. */
    method StartData()
      modifies this`trace
      ensures trace == old(trace) + [Dc(true)]
    {
      Emit(Dc(true));
    }

    /** `write_data`: one SPI write. */
    method WriteData(data: seq<u8>)
      modifies this`trace
      ensures trace == old(trace) + [Write(data)]
    {
      Emit(Write(data));
    }

    /** `write_word`: the word, big-endian, in one write. */
    method WriteWord(value: u16)
      modifies this`trace
      ensures trace == old(trace) + [Write(U16ToBe(value))]
    {
      WriteData(U16ToBe(value));
    }

    /** `write_command` (`CommandSeen` says what the controller receives). */
    method WriteCommand(c: u8, params: seq<u8>)
      modifies this`trace
      ensures trace == old(trace) + CommandEvents(c, params)
    {
      ghost var t0 := trace;
      Emit(Dc(false));
      Emit(Write([c]));
      if params != [] {
        StartData();
        WriteData(params);
        assert trace == t0 + CommandEvents(c, params);
      } else {
        assert trace == t0 + CommandEvents(c, params);
      }
    }

    /** `write_words_buffered`: the words' big-endian bytes through a 32-byte buffer, with a
        final write of what is left (`BufferedShape` gives the sizes, `WritesSeen` what the
        panel receives). */
    method WriteWordsBuffered(words: seq<u16>)
      modifies this`trace
      ensures trace == old(trace) + Buffered(WordsBe(words))
    {
      var buffer := new u8[32](_ => 0);
      var index: nat := 0;
      ghost var flushed: seq<u8> := [];
      ghost var t0 := trace;
      for i := 0 to |words|
        invariant index % 2 == 0 && index < 32 && |flushed| % 32 == 0
        invariant WordsBe(words[..i]) == flushed + buffer[..index]
        invariant trace == t0 + Blocks(flushed)
      {
        index, flushed := BufferWord(buffer, index, words, i, flushed, t0);
      }
      assert words[..|words|] == words;
      BufferedSplit(flushed, buffer[..index]);
      WriteData(buffer[..index]);
    }

    /** One pass of the loop of `write_words_buffered`: word i goes into the buffer, which is
        written out and emptied when it fills. */
    method BufferWord(buffer: array<u8>, index: nat, words: seq<u16>, i: nat, ghost flushed: seq<u8>, ghost t0: seq<Event>)
      returns (next: nat, ghost flushed': seq<u8>)
      requires buffer.Length == 32 && index % 2 == 0 && index < 32 && |flushed| % 32 == 0
      requires i < |words| && WordsBe(words[..i]) == flushed + buffer[..index]
      requires trace == t0 + Blocks(flushed)
      modifies buffer, this`trace
      ensures next % 2 == 0 && next < 32 && |flushed'| % 32 == 0
      ensures WordsBe(words[..i + 1]) == flushed' + buffer[..next]
      ensures trace == t0 + Blocks(flushed')
    {
      ghost var prior := buffer[..];
      var asBytes := U16ToBe(words[i]);
      buffer[index] := asBytes[0];
      buffer[index + 1] := asBytes[1];
      PushWord(words, i, flushed, prior, buffer[..], index);
      next := index + 2;
      flushed' := flushed;
      if next >= buffer.Length {
        BlocksSnoc(flushed, buffer[..]);
        assert buffer[..next] == buffer[..];
        WriteData(buffer[..]);
        flushed' := flushed + buffer[..];
        next := 0;
      }
    }

    /** `set_orientation`: MADCTL with `MadctlParam`. */
    method SetOrientation(o: Orientation)
      modifies this`trace
      ensures trace == old(trace) + CommandEvents(MADCTL, [MadctlParam(o, rgb)])
    {
      if rgb {
        WriteCommand(MADCTL, [OrientationCode(o)]);
      } else {
        WriteCommand(MADCTL, [((OrientationCode(o) as bv8) | 0x08) as int]);
      }
    }

    /** `set_offset`. */
    method SetOffset(dx: u16, dy: u16)
      modifies this`dx, this`dy
      ensures this.dx == dx && this.dy == dy
    {
      this.dx := dx;
      this.dy := dy;
    }

    /** `set_address_window` (`WindowSeen` says what the controller receives). */
    method SetAddressWindow(sx: u16, sy: u16, ex: u16, ey: u16)
      modifies this`trace
      ensures trace == old(trace) + WindowEvents(dx, dy, sx, sy, ex, ey)
    {
      ghost var t0 := trace;
      WriteCommand(CASET, []);
      StartData();
      WriteWord(Wrap16(sx + dx));
      WriteWord(Wrap16(ex + dx));
      ghost var t1 := trace;
      assert t1 == t0 + StreamEvents(CASET, [Write(U16ToBe(Wrap16(sx + dx))), Write(U16ToBe(Wrap16(ex + dx)))]);
      WriteCommand(RASET, []);
      StartData();
      WriteWord(Wrap16(sy + dy));
      WriteWord(Wrap16(ey + dy));
      assert trace == t1 + StreamEvents(RASET, [Write(U16ToBe(Wrap16(sy + dy))), Write(U16ToBe(Wrap16(ey + dy)))]);
    }

    /** `set_pixel` (`PixelSeen`). */
    method SetPixel(x: u16, y: u16, color: u16)
      modifies this`trace
      ensures trace == old(trace) + PixelEvents(dx, dy, x, y, color)
    {
      SetAddressWindow(x, y, x, y);
      ghost var t1 := trace;
      WriteCommand(RAMWR, []);
      StartData();
      WriteWord(color);
      assert trace == t1 + StreamEvents(RAMWR, [Write(U16ToBe(color))]);
    }

    /** `write_pixels`: RAMWR, then one write per colour (`WordWritesBytes`). */
    method WritePixels(colors: seq<u16>)
      modifies this`trace
      ensures trace == old(trace) + StreamEvents(RAMWR, WordWrites(colors))
    {
      ghost var t0 := trace;
      WriteCommand(RAMWR, []);
      StartData();
      for i := 0 to |colors|
        invariant trace == t0 + StreamEvents(RAMWR, WordWrites(colors[..i]))
      {
        assert colors[..i + 1][..i] == colors[..i];
        WriteWord(colors[i]);
      }
      assert colors[..|colors|] == colors;
    }

    /** `write_pixels_buffered`: RAMWR, then the colours through `write_words_buffered`. */
    method WritePixelsBuffered(colors: seq<u16>)
      modifies this`trace
      ensures trace == old(trace) + StreamEvents(RAMWR, Buffered(WordsBe(colors)))
    {
      WriteCommand(RAMWR, []);
      StartData();
      WriteWordsBuffered(colors);
    }

    /** `set_pixels`: the window, then `write_pixels` (`PixelsSeen`). */
    method SetPixels(sx: u16, sy: u16, ex: u16, ey: u16, colors: seq<u16>)
      modifies this`trace
      ensures trace == old(trace) + UnbufferedEvents(dx, dy, sx, sy, ex, ey, colors)
    {
      SetAddressWindow(sx, sy, ex, ey);
      WritePixels(colors);
    }

    /** `set_pixels_buffered`: the window, then `write_pixels_buffered` (`PixelsSeen`). */
    method SetPixelsBuffered(sx: u16, sy: u16, ex: u16, ey: u16, colors: seq<u16>)
      modifies this`trace
      ensures trace == old(trace) + PixelsEvents(dx, dy, sx, sy, ex, ey, colors)
    {
      SetAddressWindow(sx, sy, ex, ey);
      WritePixelsBuffered(colors);
    }

    /** `init` (`InitSeen` and `InitOrder` say what the controller receives). */
    method Init()
      modifies this`trace
      ensures trace == old(trace) + InitEvents(hasRst, inverted, rgb)
    {
      HardReset();
      ghost var t1 := trace;
      WriteCommand(SWRESET, []);
      Delay(200);
      WriteCommand(SLPOUT, []);
      Delay(200);
      WriteCommand(FRMCTR1, [0x01, 0x2C, 0x2D]);
      WriteCommand(FRMCTR2, [0x01, 0x2C, 0x2D]);
      WriteCommand(FRMCTR3, [0x01, 0x2C, 0x2D, 0x01, 0x2C, 0x2D]);
      WriteCommand(INVCTR, [0x07]);
      WriteCommand(PWCTR1, [0xA2, 0x02, 0x84]);
      WriteCommand(PWCTR2, [0xC5]);
      assert trace == InitHead(t1);
      ghost var t2 := trace;
      WriteCommand(PWCTR3, [0x0A, 0x00]);
      WriteCommand(PWCTR4, [0x8A, 0x2A]);
      WriteCommand(PWCTR5, [0x8A, 0xEE]);
      WriteCommand(VMCTR1, [0x0E]);
      if inverted {
        WriteCommand(INVON, []);
      } else {
        WriteCommand(INVOFF, []);
      }
      if rgb {
        WriteCommand(MADCTL, [0x00]);
      } else {
        WriteCommand(MADCTL, [0x08]);
      }
      WriteCommand(COLMOD, [0x05]);
      WriteCommand(DISPON, []);
      Delay(200);
      assert trace == InitTail(t2, inverted, rgb);
      InitTraceIsInit(old(trace), t1, hasRst, inverted, rgb);
    }

    /** `draw_image_at`: the rows of a `width`-wide image, top-down from line y, each cut at
        the right edge (`height` columns) and sent as a one-line window (`ImageSeen`,
        `ImageCommandsAt`), stopping at the first line not above `self.width`
        (`RowsShownFirst`). An empty image sends nothing. */
    method DrawImageAt(x: u16, y: u16, image: seq<u16>, width: u16)
      requires width > 0
      requires image == [] || y >= Wrap16(this.width) || x <= height
      modifies this`trace
      ensures var rows := Chunks(image, width as nat);
        var k := RowsShown(y, |rows|, Wrap16(this.width), 0);
        && (k > 0 ==> x <= height)
        && trace == old(trace) + ImageEvents(dx, dy, x, y, height, rows, k)
    {
      var rows := Chunks(image, width as nat);
      ghost var limit := Wrap16(this.width);
      ghost var shown := RowsShown(y, |rows|, limit, 0);
      ghost var t0 := trace;
      var r := 0;
      while r < |rows|
        invariant r <= shown == RowsShown(y, |rows|, limit, r)
        invariant r > 0 ==> x <= height
        invariant trace == t0 + ImageEvents(dx, dy, x, y, height, rows, r)
      {
        var sy := LineOf(y, r);
        if sy >= Wrap16(this.width) {
          break;
        }
        assert r == 0 ==> sy == y && image != [];
        var next := r + 1;
        assert shown == RowsShown(y, |rows|, limit, next);
        DrawRow(x, y, rows, r, t0);
        r := next;
      }
    }

    /** One pass of the loop of `draw_image_at`: row r, cut at the right edge, sent as a
        one-line window on line y + r. */
    method DrawRow(x: u16, y: u16, rows: seq<seq<u16>>, r: nat, ghost t0: seq<Event>)
      requires r < |rows| && x <= height
      requires trace == t0 + ImageEvents(dx, dy, x, y, height, rows, r)
      modifies this`trace
      ensures trace == t0 + ImageEvents(dx, dy, x, y, height, rows, r + 1)
    {
      var sy := LineOf(y, r);
      var pixels := rows[r];
      var lineWidth := |pixels|;
      if x + lineWidth > height {
        lineWidth := height - x;
      }
      ghost var before := trace;
      assert lineWidth == LineWidth(|rows[r]|, x, height);
      SetPixelsBuffered(x, sy, Wrap16(x as int + lineWidth), Wrap16(sy as int + 1), pixels[..lineWidth]);
      assert trace == before + RowEvents(dx, dy, x, y, height, rows, r);
      ImageNext(t0, before, trace, dx, dy, x, y, height, rows, r);
    }

    /** `clear_screen`: one one-line window per line, each with `width` copies of the colour
        (`ClearSeen`, `ClearCommandsAt`). */
    method ClearScreen(color: u16)
      modifies this`trace
      ensures trace == old(trace) + ClearEvents(dx, dy, width, color, height)
    {
      var colors := Repeat(color, width as nat);
      ghost var t0 := trace;
      for l := 0 to height
        invariant trace == t0 + ClearEvents(dx, dy, width, color, l)
      {
        ghost var before := trace;
        SetPixelsBuffered(0, Wrap16(l), Wrap16(width), Wrap16(Wrap16(l) + 1), colors);
        ClearNext(t0, before, trace, dx, dy, width, color, l);
      }
    }
  }
}
