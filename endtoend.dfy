/**
  The host library against the device receiver: what `draw_rgb565` writes is
  what the receive loops parse.

  Each host write is assumed to arrive as whole packets: the begin and end
  packets as one packet each, the payload as a sequence of packets of at most
  64 bytes whose first 8 bytes are not a marker and which, on the serial port,
  are at least 8 bytes long. `ShortLastPacketIgnored` covers a serial payload
  whose last packet is shorter.
 */
module EndToEnd {
  import opened Bytes
  import opened Protocol
  import opened Receiver
  import opened Wrappers
  import Host

  /** The device's parser reads back what the host wrote: the marker is `IMAGE_AA` and
      bytes 8..16 give the same header, on both endpoints (the raw endpoint pads the
      16 bytes with zeros to 64). */
  lemma BeginPacketRoundTrip(t: Transport, h: Header)
    ensures var v := View(t, Host.BeginPacket(h));
      |v| >= BEGIN_LEN && MarkerOf(v) == IMAGE_AA && Classify(MarkerOf(v)) == FrameStart
      && ParseHeader(v) == h
  {
    var p := Host.BeginPacket(h);
    var v := View(t, p);
    assert v[..BEGIN_LEN] == p;
    assert v[..MAGIC_NUM_LEN] == p[..MAGIC_NUM_LEN] == BeBytes(Host.HOST_IMAGE_AA, MAGIC_NUM_LEN);
    BeValueOfBytes(Host.HOST_IMAGE_AA, MAGIC_NUM_LEN);
    BeValueInjective(BeBytes(MarkerOf(v), MAGIC_NUM_LEN), BeBytes(Host.HOST_IMAGE_AA, MAGIC_NUM_LEN));
    BeValueOfBytes(MarkerOf(v), MAGIC_NUM_LEN);
    assert v[8..10] == U16ToBe(h.width) && v[10..12] == U16ToBe(h.height);
    assert v[12..14] == U16ToBe(h.x) && v[14..16] == U16ToBe(h.y);
  }

  /** The end packet is classified as `IMAGE_BB` on both endpoints. */
  lemma EndPacketRecognised(t: Transport)
    ensures var v := View(t, Host.EndPacket());
      |v| >= MAGIC_NUM_LEN && Classify(MarkerOf(v)) == FrameEnd
  {
    var v := View(t, Host.EndPacket());
    assert v[..MAGIC_NUM_LEN] == Host.EndPacket();
    BeValueOfBytes(Host.HOST_IMAGE_BB, MAGIC_NUM_LEN);
    BeValueInjective(BeBytes(MarkerOf(v), MAGIC_NUM_LEN), Host.EndPacket());
    BeValueOfBytes(MarkerOf(v), MAGIC_NUM_LEN);
  }

  /** The host's three markers are the device's. */
  lemma HostMarkersAreDeviceMarkers()
    ensures Host.HOST_IMAGE_AA == IMAGE_AA && Host.HOST_IMAGE_BB == IMAGE_BB && Host.HOST_BOOT_USB == BOOT_USB
  {
  }

  /** The reads the device sees for one frame written by the host. */
  function FrameReads(h: Header, chunks: seq<seq<u8>>): (rs: seq<Read>)
    ensures |rs| == |chunks| + 2
  {
    [Packet(Host.BeginPacket(h))] + Packets(chunks) + [Packet(Host.EndPacket())]
  }

  /** One more payload packet goes just before the end packet. */
  lemma FrameReadsPush(h: Header, chunks: seq<seq<u8>>, c: seq<u8>)
    ensures FrameReads(h, chunks) == [Packet(Host.BeginPacket(h))] + Packets(chunks) + [Packet(Host.EndPacket())]
    ensures FrameReads(h, chunks + [c])
         == [Packet(Host.BeginPacket(h))] + Packets(chunks) + [Packet(c)] + [Packet(Host.EndPacket())]
  {
    PacketsPush(chunks, c);
  }

  /** The begin packet, from any state, stores the header and empties the buffer. */
  lemma BeginFromAnyState(cfg: Config, s: RxState, h: Header)
    ensures Run(cfg, s, [Packet(Host.BeginPacket(h))]) == (RxState(h.width, h.height, h.x, h.y, []), [Idle])
  {
    BeginPacketRoundTrip(cfg.transport, h);
    StartResets(cfg, s, Host.BeginPacket(h));
    var p := Host.BeginPacket(h);
    RunSnoc(cfg, s, [], Packet(p));
    assert [] + [Packet(p)] == [Packet(p)];
    assert Run(cfg, s, []) == (s, []);
    assert !Halted([]);
    var st := Step(cfg, s, Packet(p));
    assert st == (RxState(h.width, h.height, h.x, h.y, []), Idle);
    assert Run(cfg, s, [Packet(p)]) == (st.0, [] + [st.1]);
    assert [] + [st.1] == [Idle];
  }

  /** Up to the end packet: the header stored and the payload buffered, nothing sent. */
  lemma {:induction false} PayloadBuffered(cfg: Config, s: RxState, h: Header, chunks: seq<seq<u8>>)
    requires forall i :: 0 <= i < |chunks| ==> IsDataPacket(cfg.transport, chunks[i])
    requires Accepted(0, chunks)
    ensures Run(cfg, s, [Packet(Host.BeginPacket(h))] + Packets(chunks))
         == (RxState(h.width, h.height, h.x, h.y, Concat(chunks)), Repeat(Idle, |chunks| + 1))
  {
    var start := RxState(h.width, h.height, h.x, h.y, []);
    BeginFromAnyState(cfg, s, h);
    RunPrefix(cfg, s, [Packet(Host.BeginPacket(h))], Packets(chunks));
    DataRun(cfg, start, chunks);
    assert [] + Concat(chunks) == Concat(chunks);
    assert [Idle] + Repeat(Idle, |chunks|) == Repeat(Idle, |chunks| + 1);
  }

  /** Before the end packet nothing is terminal. */
  lemma IdlesNotHalted(n: nat)
    ensures !Halted(Repeat(Idle, n))
  {
    if n > 0 {
      assert Repeat(Idle, n)[n - 1] == Idle;
    }
  }

  /** ST7789 builds: one frame written by the host, split into data packets the buffer
      accepts, reaches the render channel as exactly the payload with the header the host
      wrote; the device is left with that header and an empty buffer. */
  lemma FrameDeliveredSt7789(cfg: Config, s: RxState, h: Header, chunks: seq<seq<u8>>)
    requires cfg.panel == St7789
    requires forall i :: 0 <= i < |chunks| ==> IsDataPacket(cfg.transport, chunks[i])
    requires Accepted(0, chunks)
    ensures Run(cfg, s, FrameReads(h, chunks))
         == (RxState(h.width, h.height, h.x, h.y, []),
             Repeat(Idle, |chunks| + 1) + [Send(Frame(Concat(chunks), h.x, h.y, h.width, h.height))])
  {
    var prefix := [Packet(Host.BeginPacket(h))] + Packets(chunks);
    PayloadBuffered(cfg, s, h, chunks);
    RunSnoc(cfg, s, prefix, Packet(Host.EndPacket()));
    IdlesNotHalted(|chunks| + 1);
    EndPacketRecognised(cfg.transport);
    EndSends(cfg, RxState(h.width, h.height, h.x, h.y, Concat(chunks)), Host.EndPacket());
  }

  /** A read after a run of idle iterations is carried out in the state they left. */
  lemma StepAfterIdles(cfg: Config, s: RxState, rs: seq<Read>, st: RxState, n: nat, r: Read)
    requires Run(cfg, s, rs) == (st, Repeat(Idle, n))
    ensures Run(cfg, s, rs + [r]) == (Step(cfg, st, r).0, Repeat(Idle, n) + [Step(cfg, st, r).1])
  {
    IdlesNotHalted(n);
    RunSnoc(cfg, s, rs, r);
  }

  /** Two runs that reach the same state, one with an extra idle iteration, go on alike. */
  lemma OneIdleMore(cfg: Config, s: RxState, a: seq<Read>, b: seq<Read>, st: RxState, n: nat, r: Read)
    requires Run(cfg, s, a) == (st, Repeat(Idle, n)) && Run(cfg, s, b) == (st, Repeat(Idle, n + 1))
    ensures Run(cfg, s, b + [r]) == (Run(cfg, s, a + [r]).0, [Idle] + Run(cfg, s, a + [r]).1)
  {
    StepAfterIdles(cfg, s, a, st, n, r);
    StepAfterIdles(cfg, s, b, st, n + 1, r);
    IdlesThen(n, Step(cfg, st, r).1);
  }

  lemma IdlesThen(n: nat, o: Outcome)
    ensures [Idle] + (Repeat(Idle, n) + [o]) == Repeat(Idle, n + 1) + [o]
  {
  }

  /** Serial builds: the short packet after the payload leaves the buffer as it was. */
  lemma ShortPacketSkipped(cfg: Config, s: RxState, h: Header, chunks: seq<seq<u8>>, tail: seq<u8>)
    requires cfg.transport == UsbSerial && |tail| < MAGIC_NUM_LEN
    requires forall i :: 0 <= i < |chunks| ==> IsDataPacket(cfg.transport, chunks[i])
    requires Accepted(0, chunks)
    ensures Run(cfg, s, [Packet(Host.BeginPacket(h))] + Packets(chunks) + [Packet(tail)])
         == (RxState(h.width, h.height, h.x, h.y, Concat(chunks)), Repeat(Idle, |chunks| + 2))
  {
    var st := RxState(h.width, h.height, h.x, h.y, Concat(chunks));
    PayloadBuffered(cfg, s, h, chunks);
    DroppedReads(cfg, st, Packet(tail));
    RunIdleSnoc(cfg, s, [Packet(Host.BeginPacket(h))] + Packets(chunks), Packet(tail), |chunks| + 1);
  }

  /** Serial builds: a last packet shorter than the 8-byte marker is skipped by the
      `len < 8` check, so the frame is handled as if those bytes had never been written.
      A payload whose length is 1 to 7 more than a multiple of 64 arrives without its
      last bytes. */
  lemma ShortLastPacketIgnored(cfg: Config, s: RxState, h: Header, chunks: seq<seq<u8>>, tail: seq<u8>)
    requires cfg.transport == UsbSerial && |tail| < MAGIC_NUM_LEN
    requires forall i :: 0 <= i < |chunks| ==> IsDataPacket(cfg.transport, chunks[i])
    requires Accepted(0, chunks)
    ensures Concat(chunks + [tail]) == Concat(chunks) + tail
    ensures var whole := Run(cfg, s, FrameReads(h, chunks));
      Run(cfg, s, FrameReads(h, chunks + [tail])) == (whole.0, [Idle] + whole.1)
  {
    var prefix := [Packet(Host.BeginPacket(h))] + Packets(chunks);
    var longer := prefix + [Packet(tail)];
    var st := RxState(h.width, h.height, h.x, h.y, Concat(chunks));
    var end := Packet(Host.EndPacket());
    var n := |chunks| + 1;
    PayloadBuffered(cfg, s, h, chunks);
    ShortPacketSkipped(cfg, s, h, chunks, tail);
    FrameReadsPush(h, chunks, tail);
    OneIdleMore(cfg, s, prefix, longer, st, n, end);
    assert (chunks + [tail])[..|chunks|] == chunks;
  }

  /** ST7789 serial builds: with a short last packet the channel gets the payload without
      that packet's bytes. */
  lemma ShortLastPacketTruncatesSt7789(cfg: Config, s: RxState, h: Header, chunks: seq<seq<u8>>, tail: seq<u8>)
    requires cfg.transport == UsbSerial && cfg.panel == St7789 && 0 < |tail| < MAGIC_NUM_LEN
    requires forall i :: 0 <= i < |chunks| ==> IsDataPacket(cfg.transport, chunks[i])
    requires Accepted(0, chunks)
    ensures Run(cfg, s, FrameReads(h, chunks + [tail]))
         == (RxState(h.width, h.height, h.x, h.y, []),
             Repeat(Idle, |chunks| + 2) + [Send(Frame(Concat(chunks), h.x, h.y, h.width, h.height))])
    ensures |Concat(chunks)| < |Concat(chunks + [tail])|
  {
    ShortLastPacketIgnored(cfg, s, h, chunks, tail);
    FrameDeliveredSt7789(cfg, s, h, chunks);
    IdlesThen(|chunks| + 1, Send(Frame(Concat(chunks), h.x, h.y, h.width, h.height)));
  }

  /** ST7735 builds: the device decompresses on the end packet and sends the image when
      decompression of the received payload succeeds. */
  lemma FrameDeliveredSt7735(cfg: Config, s: RxState, h: Header, chunks: seq<seq<u8>>, image: seq<u8>)
    requires cfg.panel == St7735 && cfg.decompress(Concat(chunks)) == Some(image)
    requires forall i :: 0 <= i < |chunks| ==> IsDataPacket(cfg.transport, chunks[i])
    requires Accepted(0, chunks)
    ensures Run(cfg, s, FrameReads(h, chunks))
         == (RxState(h.width, h.height, h.x, h.y, []),
             Repeat(Idle, |chunks| + 1) + [Send(Frame(image, h.x, h.y, h.width, h.height))])
  {
    var prefix := [Packet(Host.BeginPacket(h))] + Packets(chunks);
    PayloadBuffered(cfg, s, h, chunks);
    RunSnoc(cfg, s, prefix, Packet(Host.EndPacket()));
    IdlesNotHalted(|chunks| + 1);
    EndPacketRecognised(cfg.transport);
    EndDecompresses(cfg, RxState(h.width, h.height, h.x, h.y, Concat(chunks)), Host.EndPacket());
  }
}
