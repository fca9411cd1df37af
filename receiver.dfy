/**
  The device-side packet receiver: the body of the read loops of
  `core0_task_usb_serial` and `core0_task_usb_raw` in usb_screen/src/main.rs.

  `Step` is the specification of one loop iteration, `Run` of the whole loop
  over a sequence of endpoint reads; the class `Receiver` holds the loop's
  mutable locals (`image_width`, `image_height`, `image_x`, `image_y` and the
  pending `Vec<u8>`) and its methods are proved against `Step` and `Run`.
 */
module Receiver {
  import opened Bytes
  import opened Wrappers
  import opened Protocol

  /** 320*240*2: a data packet is appended only while the buffer is shorter than this. */
  const MAX_PENDING: nat := 320 * 240 * 2
  /** Both endpoints read into 64-byte buffers. */
  const PACKET_SIZE: nat := 64

  /** The USB function the firmware was built with (`usb-serial` or `usb-raw`). */
  datatype Transport = UsbSerial | UsbRaw
  /** The panel the firmware was built for: ST7789 builds forward the compressed
      bytes to core 1, ST7735 builds decompress on core 0. */
  datatype Panel = St7789 | St7735

  /** A build of the firmware. `decompress` stands for `lz4_flex::decompress_size_prepended`. */
  datatype Config = Config(transport: Transport, panel: Panel, decompress: seq<u8> -> Option<seq<u8>>)

  /** One endpoint read: an error, or the bytes of one packet. */
  datatype Read = ReadError | Packet(bytes: seq<u8>)

  predicate Fits(r: Read) {
    r.Packet? ==> |r.bytes| <= PACKET_SIZE
  }

  predicate AllFit(rs: seq<Read>) {
    forall i :: 0 <= i < |rs| ==> Fits(rs[i])
  }

  /** What one iteration does besides updating the state. `Reboot` (`reset_to_usb_boot`)
      and `Panic` (an index out of range or an `unwrap` on an error; the firmware halts)
      end the loop for good. */
  datatype Outcome = Idle | Send(frame: Frame) | Reboot | Panic

  predicate Terminal(o: Outcome) {
    o.Reboot? || o.Panic?
  }

  predicate Halted(os: seq<Outcome>) {
    os != [] && Terminal(os[|os| - 1])
  }

  /** The loop's state: the last header and the pending buffer. */
  datatype RxState = RxState(width: u16, height: u16, x: u16, y: u16, buf: seq<u8>)

  const Initial: RxState := RxState(0, 0, 0, 0, [])

  /** The bytes the loop indexes: the serial loop slices `buf[..len]`, the raw loop
      reads into a fresh `[0; 64]`, so bytes past the packet read as zero. */
  function View(t: Transport, bytes: seq<u8>): (v: seq<u8>)
    ensures t == UsbRaw && |bytes| <= PACKET_SIZE ==> |v| == PACKET_SIZE && v[..|bytes|] == bytes
    ensures t == UsbRaw ==> forall i :: |bytes| <= i < |v| ==> v[i] == 0
    ensures |v| >= |bytes| && v[..|bytes|] == bytes
    ensures t == UsbRaw ==> |v| >= PACKET_SIZE
    ensures t == UsbSerial ==> v == bytes
  {
    if t == UsbRaw && |bytes| < PACKET_SIZE then bytes + Repeat(0, PACKET_SIZE - |bytes|) else bytes
  }

  /** The frame an end marker hands over: the pending bytes and the stored header. */
  function Pending(s: RxState): Frame {
    Frame(s.buf, s.x, s.y, s.width, s.height)
  }

  /** One iteration of the receive loop on one read. */
  function Step(cfg: Config, s: RxState, r: Read): (RxState, Outcome)
  {
    match r
    case ReadError => (s, Idle)
    case Packet(bytes) =>
      if cfg.transport == UsbSerial && |bytes| < MAGIC_NUM_LEN then (s, Idle)
      else
        var data := View(cfg.transport, bytes);
        match Classify(MarkerOf(data))
        case FrameStart =>
          if |data| < BEGIN_LEN then (s, Panic)
          else
            var h := ParseHeader(data);
            (RxState(h.width, h.height, h.x, h.y, []), Idle)
        case FrameEnd =>
          if cfg.panel == St7789 then (s.(buf := []), Send(Pending(s)))
          else
            var image := cfg.decompress(s.buf);
            if image.Some? then (s.(buf := []), Send(Pending(s).(data := image.value)))
            else if cfg.transport == UsbSerial then (s.(buf := []), Idle)
            else (s, Panic)
        case RebootToBootloader => (s, Reboot)
        case Data =>
          if |s.buf| < MAX_PENDING then (s.(buf := s.buf + bytes), Idle) else (s, Idle)
  }

  /** The loop over a sequence of reads; nothing happens after a terminal outcome. */
  function Run(cfg: Config, s: RxState, rs: seq<Read>): (RxState, seq<Outcome>)
    decreases |rs|
  {
    if rs == [] then (s, [])
    else
      var prev := Run(cfg, s, rs[..|rs| - 1]);
      if Halted(prev.1) then prev
      else
        var next := Step(cfg, prev.0, rs[|rs| - 1]);
        (next.0, prev.1 + [next.1])
  }

  // ---------------------------------------------------------------------------
  // One iteration. The lemmas below state `Step` case by case, one per kind of read,
  // so that the end-to-end proofs can use a case without unfolding `Step` in full.

  /** The pending buffer never grows past 153600 + 63 bytes. */
  lemma StepKeepsBound(cfg: Config, s: RxState, r: Read)
    requires Fits(r) && |s.buf| < MAX_PENDING + PACKET_SIZE
    ensures |Step(cfg, s, r).0.buf| < MAX_PENDING + PACKET_SIZE
  {
  }

  /** A failed read, and on the serial port a packet shorter than a marker, changes nothing. */
  lemma DroppedReads(cfg: Config, s: RxState, r: Read)
    requires Fits(r)
    requires r.ReadError? || (cfg.transport == UsbSerial && |r.bytes| < MAGIC_NUM_LEN)
    ensures Step(cfg, s, r) == (s, Idle)
  {
  }

  /** A begin marker stores the header read from bytes 8..16 of the same packet and
      empties the buffer; on the serial port a begin packet shorter than 16 bytes
      indexes past the slice and panics. */
  lemma StartResets(cfg: Config, s: RxState, bytes: seq<u8>)
    requires |bytes| <= PACKET_SIZE
    requires cfg.transport == UsbSerial ==> |bytes| >= MAGIC_NUM_LEN
    requires Classify(MarkerOf(View(cfg.transport, bytes))) == FrameStart
    ensures var (s', o) := Step(cfg, s, Packet(bytes));
      if cfg.transport == UsbSerial && |bytes| < BEGIN_LEN then s' == s && o == Panic
      else
        var h := ParseHeader(View(cfg.transport, bytes));
        o == Idle && s' == RxState(h.width, h.height, h.x, h.y, [])
  {
  }

  /** On an ST7789 build an end marker sends the buffer with the stored header, whatever
      came before (also with no begin marker: then the header is stale or zero), and
      empties the buffer while keeping the header. */
  lemma EndSends(cfg: Config, s: RxState, bytes: seq<u8>)
    requires |bytes| <= PACKET_SIZE && cfg.panel == St7789
    requires cfg.transport == UsbSerial ==> |bytes| >= MAGIC_NUM_LEN
    requires Classify(MarkerOf(View(cfg.transport, bytes))) == FrameEnd
    ensures Step(cfg, s, Packet(bytes)) == (s.(buf := []), Send(Frame(s.buf, s.x, s.y, s.width, s.height)))
  {
  }

  /** On an ST7735 build the end marker decompresses on core 0: the serial loop sends only
      a successful result and clears the buffer either way; the raw loop's `unwrap` panics. */
  lemma EndDecompresses(cfg: Config, s: RxState, bytes: seq<u8>)
    requires |bytes| <= PACKET_SIZE && cfg.panel == St7735
    requires cfg.transport == UsbSerial ==> |bytes| >= MAGIC_NUM_LEN
    requires Classify(MarkerOf(View(cfg.transport, bytes))) == FrameEnd
    ensures var (s', o) := Step(cfg, s, Packet(bytes));
      match cfg.decompress(s.buf)
      case Some(image) => s' == s.(buf := []) && o == Send(Frame(image, s.x, s.y, s.width, s.height))
      case None => if cfg.transport == UsbSerial then s' == s.(buf := []) && o == Idle else o == Panic
  {
  }

  /** The reboot marker reboots whatever is buffered; nothing is sent. */
  lemma RebootIsTerminal(cfg: Config, s: RxState, bytes: seq<u8>)
    requires |bytes| <= PACKET_SIZE
    requires cfg.transport == UsbSerial ==> |bytes| >= MAGIC_NUM_LEN
    requires Classify(MarkerOf(View(cfg.transport, bytes))) == RebootToBootloader
    ensures Step(cfg, s, Packet(bytes)) == (s, Reboot)
  {
  }

  /** Any other packet is appended whole exactly when the buffer is below the cap. */
  lemma DataAppends(cfg: Config, s: RxState, bytes: seq<u8>)
    requires |bytes| <= PACKET_SIZE
    requires cfg.transport == UsbSerial ==> |bytes| >= MAGIC_NUM_LEN
    requires Classify(MarkerOf(View(cfg.transport, bytes))) == Data
    ensures var (s', o) := Step(cfg, s, Packet(bytes));
      o == Idle && s'.buf == (if |s.buf| < MAX_PENDING then s.buf + bytes else s.buf)
      && s'.width == s.width && s'.height == s.height && s'.x == s.x && s'.y == s.y
  {
  }

  // ---------------------------------------------------------------------------
  // The loop

  /** `Run` on a sequence with one more read at the end. */
  lemma {:induction false} RunSnoc(cfg: Config, s: RxState, rs: seq<Read>, r: Read)
    ensures var prev := Run(cfg, s, rs);
      Run(cfg, s, rs + [r]) == if Halted(prev.1) then prev else
        var next := Step(cfg, prev.0, r); (next.0, prev.1 + [next.1])
  {
    assert (rs + [r])[..|rs|] == rs;
  }

  /** Running a longer read sequence extends the outcomes of a shorter one. */
  lemma {:induction false} RunPrefix(cfg: Config, s: RxState, a: seq<Read>, b: seq<Read>)
    ensures var ra := Run(cfg, s, a);
      Run(cfg, s, a + b) == if Halted(ra.1) then ra else
        var rb := Run(cfg, ra.0, b); (rb.0, ra.1 + rb.1)
    decreases |b|
  {
    if b == [] {
      assert a + b == a;
      var ra := Run(cfg, s, a);
      assert Run(cfg, ra.0, b) == (ra.0, []);
      assert ra.1 + [] == ra.1;
    } else {
      var b', r := b[..|b| - 1], b[|b| - 1];
      var ab' := a + b';
      assert b == b' + [r];
      assert a + b == ab' + [r];
      RunSnoc(cfg, s, ab', r);
      RunPrefix(cfg, s, a, b');
      var ra := Run(cfg, s, a);
      if !Halted(ra.1) {
        var rb' := Run(cfg, ra.0, b');
        RunSnoc(cfg, ra.0, b', r);
        HaltedJoin(ra.1, rb'.1);
        if !Halted(rb'.1) {
          AppendAssoc(ra.1, rb'.1, [Step(cfg, rb'.0, r).1]);
        }
      }
    }
  }

  /** Outcomes after a non-terminal run end the way the later ones do. */
  lemma HaltedJoin(first: seq<Outcome>, later: seq<Outcome>)
    requires !Halted(first)
    ensures Halted(first + later) == Halted(later)
  {
    if later != [] {
      assert (first + later)[|first + later| - 1] == later[|later| - 1];
    }
  }

  /** One pass of the receive loop extends the run by the read it handled. */
  lemma ServeStep(cfg: Config, s0: RxState, rs: seq<Read>, i: nat, next: nat,
                  before: RxState, outs: seq<Outcome>, after: RxState, out: Outcome)
    requires i < |rs| && next == i + 1
    requires (before, outs) == Run(cfg, s0, rs[..i]) && !Halted(outs)
    requires (after, out) == Step(cfg, before, rs[i])
    ensures (after, outs + [out]) == Run(cfg, s0, rs[..next])
  {
    RunSnoc(cfg, s0, rs[..i], rs[i]);
    assert rs[..next] == rs[..i] + [rs[i]];
  }

  /** After a terminal outcome further reads change nothing. */
  lemma {:induction false} RunHaltedStable(cfg: Config, s: RxState, a: seq<Read>, b: seq<Read>)
    requires Halted(Run(cfg, s, a).1)
    ensures Run(cfg, s, a + b) == Run(cfg, s, a)
  {
    RunPrefix(cfg, s, a, b);
  }

  /** The bytes of a sequence of packets, in order. */
  function Concat(cs: seq<seq<u8>>): (r: seq<u8>)
    decreases |cs|
  {
    if cs == [] then [] else Concat(cs[..|cs| - 1]) + cs[|cs| - 1]
  }

  function Packets(cs: seq<seq<u8>>): (rs: seq<Read>)
    ensures |rs| == |cs| && forall i :: 0 <= i < |cs| ==> rs[i] == Packet(cs[i])
  {
    seq(|cs|, i requires 0 <= i < |cs| => Packet(cs[i]))
  }

  /** A packet the loop treats as payload data. */
  predicate IsDataPacket(t: Transport, c: seq<u8>) {
    && |c| <= PACKET_SIZE
    && (t == UsbSerial ==> |c| >= MAGIC_NUM_LEN)
    && Classify(MarkerOf(View(t, c))) == Data
  }

  /** Every packet is appended: the buffer is still below the cap when the last one
      arrives, hence (`ConcatPrefixLength`) before each of them. */
  predicate Accepted(base: nat, cs: seq<seq<u8>>) {
    cs == [] || base + |Concat(cs[..|cs| - 1])| < MAX_PENDING
  }

  lemma {:induction false} ConcatPrefixLength(cs: seq<seq<u8>>, k: nat)
    requires k <= |cs|
    ensures |Concat(cs[..k])| <= |Concat(cs)|
    decreases |cs|
  {
    if k < |cs| {
      assert cs[..|cs| - 1][..k] == cs[..k];
      ConcatPrefixLength(cs[..|cs| - 1], k);
    } else {
      assert cs[..k] == cs;
    }
  }

  /** The packets before an accepted one were accepted too. */
  lemma AcceptedPrefix(base: nat, cs: seq<seq<u8>>)
    requires base + |Concat(cs)| < MAX_PENDING
    ensures Accepted(base, cs)
  {
    if cs != [] {
      ConcatPrefixLength(cs, |cs| - 1);
    }
  }

  lemma PacketsSnoc(cs: seq<seq<u8>>)
    requires cs != []
    ensures Packets(cs) == Packets(cs[..|cs| - 1]) + [Packet(cs[|cs| - 1])]
  {
  }

  /** One more read that leaves the loop idle. */
  lemma {:induction false} RunIdleSnoc(cfg: Config, s: RxState, rs: seq<Read>, r: Read, n: nat)
    requires Run(cfg, s, rs).1 == Repeat(Idle, n)
    requires Step(cfg, Run(cfg, s, rs).0, r).1 == Idle
    ensures Run(cfg, s, rs + [r]) == (Step(cfg, Run(cfg, s, rs).0, r).0, Repeat(Idle, n + 1))
  {
    RunSnoc(cfg, s, rs, r);
    assert n > 0 ==> Repeat(Idle, n)[n - 1] == Idle;
    assert Repeat(Idle, n) + [Idle] == Repeat(Idle, n + 1);
  }

  /** An accepted data packet appends its bytes and leaves the loop idle. */
  lemma DataStep(cfg: Config, s: RxState, c: seq<u8>)
    requires IsDataPacket(cfg.transport, c) && |s.buf| < MAX_PENDING
    ensures Step(cfg, s, Packet(c)) == (s.(buf := s.buf + c), Idle)
  {
    DataAppends(cfg, s, c);
  }

  lemma PacketsPush(cs: seq<seq<u8>>, c: seq<u8>)
    ensures Packets(cs + [c]) == Packets(cs) + [Packet(c)]
  {
  }

  lemma ConcatPush(buf: seq<u8>, cs: seq<seq<u8>>, c: seq<u8>)
    ensures buf + Concat(cs) + c == buf + Concat(cs + [c])
  {
    assert (cs + [c])[..|cs|] == cs;
  }

  /** One more accepted data packet at the end of a data run. */
  lemma {:induction false} DataRunSnoc(cfg: Config, s: RxState, cs: seq<seq<u8>>, c: seq<u8>)
    requires Run(cfg, s, Packets(cs)) == (s.(buf := s.buf + Concat(cs)), Repeat(Idle, |cs|))
    requires IsDataPacket(cfg.transport, c) && |s.buf| + |Concat(cs)| < MAX_PENDING
    ensures Run(cfg, s, Packets(cs + [c])) == (s.(buf := s.buf + Concat(cs + [c])), Repeat(Idle, |cs| + 1))
  {
    DataStep(cfg, s.(buf := s.buf + Concat(cs)), c);
    PacketsPush(cs, c);
    RunIdleSnoc(cfg, s, Packets(cs), Packet(c), |cs|);
    ConcatPush(s.buf, cs, c);
  }

  /** A run of data packets, all accepted, appends their bytes in order and sends nothing. */
  lemma {:induction false} DataRun(cfg: Config, s: RxState, cs: seq<seq<u8>>)
    requires forall i :: 0 <= i < |cs| ==> IsDataPacket(cfg.transport, cs[i])
    requires Accepted(|s.buf|, cs)
    ensures Run(cfg, s, Packets(cs)) == (s.(buf := s.buf + Concat(cs)), Repeat(Idle, |cs|))
    decreases |cs|
  {
    if cs == [] {
      assert Packets(cs) == [];
      assert s.buf + Concat(cs) == s.buf;
    } else {
      var cs', c := cs[..|cs| - 1], cs[|cs| - 1];
      assert cs == cs' + [c];
      AcceptedPrefix(|s.buf|, cs');
      DataRun(cfg, s, cs');
      DataRunSnoc(cfg, s, cs', c);
    }
  }

  /** A data packet arriving when the buffer is full is dropped, not appended. */
  lemma {:induction false} DataPastCapDropped(cfg: Config, s: RxState, cs: seq<seq<u8>>)
    requires forall i :: 0 <= i < |cs| ==> IsDataPacket(cfg.transport, cs[i])
    requires |s.buf| >= MAX_PENDING
    ensures Run(cfg, s, Packets(cs)) == (s, Repeat(Idle, |cs|))
    decreases |cs|
  {
    if cs == [] {
      assert Packets(cs) == [];
    } else {
      var cs' := cs[..|cs| - 1];
      var c := cs[|cs| - 1];
      DataPastCapDropped(cfg, s, cs');
      DataAppends(cfg, s, c);
      PacketsSnoc(cs);
      RunIdleSnoc(cfg, s, Packets(cs'), Packet(c), |cs'|);
    }
  }

  // ---------------------------------------------------------------------------
  // The device state in place

  /** The locals of one receive task. */
  class Receiver {
    const cfg: Config
    var imageWidth: u16
    var imageHeight: u16
    var imageX: u16
    var imageY: u16
    var imageBuf: seq<u8>

    function State(): RxState
      reads this
    {
      RxState(imageWidth, imageHeight, imageX, imageY, imageBuf)
    }

    ghost predicate Valid()
      reads this
    {
      |imageBuf| < MAX_PENDING + PACKET_SIZE
    }

    constructor (cfg: Config)
      ensures this.cfg == cfg && Valid() && State() == Initial
    {
      this.cfg := cfg;
      imageWidth, imageHeight, imageX, imageY := 0, 0, 0, 0;
      imageBuf := [];
    }

    /** One iteration of the loop body after the endpoint read returned `r`. */
    method OnPacket(r: Read) returns (out: Outcome)
      requires Valid() && Fits(r)
      modifies this
      ensures Valid()
      ensures (State(), out) == Step(cfg, old(State()), r)
    {
      StepKeepsBound(cfg, State(), r);
      if r.ReadError? {
        out := Idle;
        return;
      }
      var bytes := r.bytes;
      if cfg.transport == UsbSerial && |bytes| < MAGIC_NUM_LEN {
        out := Idle;
        return;
      }
      var data := View(cfg.transport, bytes);
      var magic := MarkerOf(data);
      if magic == IMAGE_AA {
        if |data| < BEGIN_LEN {
          out := Panic;
          return;
        }
        imageWidth := U16FromBe(data[MAGIC_NUM_LEN], data[MAGIC_NUM_LEN + 1]);
        imageHeight := U16FromBe(data[MAGIC_NUM_LEN + 2], data[MAGIC_NUM_LEN + 3]);
        imageX := U16FromBe(data[MAGIC_NUM_LEN + 4], data[MAGIC_NUM_LEN + 5]);
        imageY := U16FromBe(data[MAGIC_NUM_LEN + 6], data[MAGIC_NUM_LEN + 7]);
        imageBuf := [];
        out := Idle;
      } else if magic == IMAGE_BB {
        if cfg.panel == St7789 {
          out := Send(Frame(imageBuf, imageX, imageY, imageWidth, imageHeight));
          imageBuf := [];
        } else if cfg.transport == UsbSerial {
          var image := cfg.decompress(imageBuf);
          out := Idle;
          if image.Some? {
            out := Send(Frame(image.value, imageX, imageY, imageWidth, imageHeight));
          }
          imageBuf := [];
        } else {
          var image := cfg.decompress(imageBuf);
          if image.None? {
            out := Panic;
            return;
          }
          imageBuf := [];
          out := Send(Frame(image.value, imageX, imageY, imageWidth, imageHeight));
        }
      } else if magic == BOOT_USB {
        out := Reboot;
      } else {
        if |imageBuf| < MAX_PENDING {
          imageBuf := imageBuf + bytes;
        }
        out := Idle;
      }
    }

    /** The inner `loop` of a receive task over the reads it gets, until it reboots or halts. */
    method Serve(rs: seq<Read>) returns (outs: seq<Outcome>)
      requires Valid() && AllFit(rs)
      modifies this
      ensures Valid()
      ensures (State(), outs) == Run(cfg, old(State()), rs)
    {
      ghost var s0 := State();
      outs := [];
      var i := 0;
      assert rs[..0] == [];
      while i < |rs| && !Halted(outs)
        invariant 0 <= i <= |rs| && Valid()
        invariant (State(), outs) == Run(cfg, s0, rs[..i])
      {
        var next := i + 1;
        ghost var before := State();
        var out := OnPacket(rs[i]);
        ServeStep(cfg, s0, rs, i, next, before, outs, State(), out);
        outs := outs + [out];
        i := next;
      }
      if i < |rs| {
        assert rs == rs[..i] + rs[i..];
        RunHaltedStable(cfg, s0, rs[..i], rs[i..]);
      } else {
        assert rs[..i] == rs;
      }
    }
  }
}
