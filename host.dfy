/**
  The host library in examples/src/usb_screen.rs: the begin packet, the three
  transfers of one frame, the device filters and `clear_screen`.

  The USB interface and the serial port are a `Link` that records every
  operation; whether an operation fails is an input (`status`), since it
  depends on the operating system.
 */
module Host {
  import opened Bytes
  import opened Wrappers
  import opened Protocol

  /** The constants `draw_rgb565` and `draw_rgb565_serial` declare locally. */
  const HOST_IMAGE_AA: u64 := 7596835243154170209
  const HOST_BOOT_USB: u64 := 7093010483740242786
  const HOST_IMAGE_BB: u64 := 7596835243154170466

  /** The 16-byte begin packet: `IMAGE_AA`, width, height, x, y, all big-endian. */
  function BeginPacket(h: Header): (p: seq<u8>)
    ensures |p| == BEGIN_LEN
  {
    BeBytes(HOST_IMAGE_AA, MAGIC_NUM_LEN) + U16ToBe(h.width) + U16ToBe(h.height) + U16ToBe(h.x) + U16ToBe(h.y)
  }

  /** The end packet: the 8 big-endian bytes of `IMAGE_BB`. */
  function EndPacket(): (p: seq<u8>)
    ensures |p| == MAGIC_NUM_LEN
  {
    BeBytes(HOST_IMAGE_BB, MAGIC_NUM_LEN)
  }

  /** `img_begin` assembled with `copy_from_slice` into a zeroed `[u8; 16]`. */
  method BuildBegin(width: u16, height: u16, x: u16, y: u16) returns (packet: seq<u8>)
    ensures packet == BeginPacket(Header(width, height, x, y))
  {
    var img := new u8[BEGIN_LEN](_ => 0);
    var marker := BeBytes(HOST_IMAGE_AA, MAGIC_NUM_LEN);
    var i := 0;
    while i < MAGIC_NUM_LEN
      invariant 0 <= i <= MAGIC_NUM_LEN
      invariant img[..i] == marker[..i]
    {
      img[i] := marker[i];
      i := i + 1;
    }
    var w, hh, xx, yy := U16ToBe(width), U16ToBe(height), U16ToBe(x), U16ToBe(y);
    img[8], img[9] := w[0], w[1];
    img[10], img[11] := hh[0], hh[1];
    img[12], img[13] := xx[0], xx[1];
    img[14], img[15] := yy[0], yy[1];
    packet := img[..];
    assert packet[..8] == marker;
    assert packet == marker + w + hh + xx + yy;
  }

  // ---------------------------------------------------------------------------
  // Transfers

  /** One host-side operation: a bulk OUT transfer, or a serial write or flush. */
  datatype HostOp = BulkOut(bytes: seq<u8>) | Write(bytes: seq<u8>) | Flush

  /** The operations of one frame: begin packet, compressed payload, end packet;
      on the serial port each write is followed by a flush. */
  function FrameOps(serial: bool, payload: seq<u8>, h: Header): (ops: seq<HostOp>)
  {
    if serial then
      [Write(BeginPacket(h)), Flush, Write(payload), Flush, Write(EndPacket()), Flush]
    else
      [BulkOut(BeginPacket(h)), BulkOut(payload), BulkOut(EndPacket())]
  }

  /** How many of k operations starting at position `start` are performed when the
      `?` operator stops at the first failure (the failed one is performed). */
  function Performed(status: nat -> bool, start: nat, k: nat): (n: nat)
    ensures n <= k
    ensures k > 0 ==> n > 0
    decreases k
  {
    if k == 0 then 0 else if !status(start) then 1 else 1 + Performed(status, start + 1, k - 1)
  }

  predicate AllSucceed(status: nat -> bool, start: nat, k: nat) {
    forall i :: start <= i < start + k ==> status(i)
  }

  /** The operations performed before the last one all succeeded; fewer than k are
      performed exactly when the last one performed failed; all k when all succeed. */
  lemma {:induction false} PerformedStopsAtFirstFailure(status: nat -> bool, start: nat, k: nat)
    ensures var n := Performed(status, start, k);
      (n > 0 ==> AllSucceed(status, start, n - 1))
      && (n < k ==> !status(start + n - 1))
      && (AllSucceed(status, start, k) ==> n == k)
    decreases k
  {
    if k > 0 && status(start) {
      PerformedStopsAtFirstFailure(status, start + 1, k - 1);
    }
  }

  /** Conversely, n is the count performed when the first n - 1 succeed and the n-th
      fails, or when n = k and all succeed. */
  lemma {:induction false} PerformedIs(status: nat -> bool, start: nat, k: nat, n: nat)
    requires n <= k
    requires (n == k && AllSucceed(status, start, k))
          || (0 < n && AllSucceed(status, start, n - 1) && !status(start + n - 1))
    ensures Performed(status, start, k) == n
    decreases k
  {
    if k > 0 && status(start) {
      assert n > 1 || n == k;
      if n > 0 {
        PerformedIs(status, start + 1, k - 1, n - 1);
      }
    }
  }

  /** A USB interface or serial port. Operation number n (counted over the link's
      lifetime) succeeds when `status(n)`. */
  class Link {
    const status: nat -> bool
    var ops: seq<HostOp>

    constructor (status: nat -> bool)
      ensures this.status == status && ops == []
    {
      this.status := status;
      ops := [];
    }

    method Do(op: HostOp) returns (ok: bool)
      modifies this
      ensures ops == old(ops) + [op] && ok == status(|old(ops)|)
    {
      ok := status(|ops|);
      ops := ops + [op];
    }

    /** The operations of one frame up to the first failure; Ok when all succeeded. */
    method SendFrame(serial: bool, payload: seq<u8>, h: Header) returns (ok: bool)
      modifies this
      ensures var plan := FrameOps(serial, payload, h);
        var n := Performed(status, |old(ops)|, |plan|);
        ops == old(ops) + plan[..n] && (ok <==> AllSucceed(status, |old(ops)|, |plan|))
    {
      ghost var start := |ops|;
      var plan := FrameOps(serial, payload, h);
      var i := 0;
      ok := true;
      while i < |plan| && ok
        invariant 0 <= i <= |plan| && |ops| == start + i
        invariant ok ==> AllSucceed(status, start, i)
        invariant !ok ==> 0 < i && AllSucceed(status, start, i - 1) && !status(start + i - 1)
        invariant ops == old(ops) + plan[..i]
        decreases |plan| - i
      {
        ok := Do(plan[i]);
        assert plan[..i + 1] == plan[..i] + [plan[i]];
        i := i + 1;
      }
      PerformedIs(status, start, |plan|, i);
      if !ok {
        assert !AllSucceed(status, start, |plan|) by {
          assert start <= start + i - 1 < start + |plan|;
        }
      }
    }

    /** `draw_rgb565` / `draw_rgb565_serial`: compress, then send the frame. */
    method DrawRgb565(serial: bool, compress: seq<u8> -> seq<u8>, rgb565: seq<u8>, x: u16, y: u16,
                      width: u16, height: u16) returns (ok: bool)
      modifies this
      ensures var plan := FrameOps(serial, compress(rgb565), Header(width, height, x, y));
        ops == old(ops) + plan[..Performed(status, |old(ops)|, |plan|)]
        && (ok <==> AllSucceed(status, |old(ops)|, |plan|))
    {
      var payload := compress(rgb565);
      ok := SendFrame(serial, payload, Header(width, height, x, y));
    }

    /** `clear_screen` / `clear_screen_serial`: a width×height image of `color`, converted
        by `toRgb565` (`rgb888_to_rgb565_be`, not part of this model) and drawn at (0, 0). */
    method ClearScreen(serial: bool, compress: seq<u8> -> seq<u8>, toRgb565: seq<Rgb> -> seq<u8>,
                       color: Rgb, width: u16, height: u16) returns (ok: bool)
      modifies this
      ensures var plan := FrameOps(serial, compress(toRgb565(Repeat(color, Area(width, height)))), Header(width, height, 0, 0));
        ops == old(ops) + plan[..Performed(status, |old(ops)|, |plan|)]
        && (ok <==> AllSucceed(status, |old(ops)|, |plan|))
    {
      var img := FillImage(width, height, color);
      assert img == Repeat(color, Area(width, height));
      ok := DrawRgb565(serial, compress, toRgb565(img), 0, 0, width, height);
    }
  }

  /** The number of pixels of a width×height image. */
  function Area(width: u16, height: u16): nat {
    width * height
  }

  /** An RGB888 pixel (`image::Rgb<u8>`). */
  datatype Rgb = Rgb(r: u8, g: u8, b: u8)

  /** `RgbImage::new(width, height)` with every pixel then set to `color`, in raster order. */
  method FillImage(width: u16, height: u16, color: Rgb) returns (pixels: seq<Rgb>)
    ensures |pixels| == width * height
    ensures forall i :: 0 <= i < |pixels| ==> pixels[i] == color
  {
    var img := new Rgb[width * height](_ => Rgb(0, 0, 0));
    var i := 0;
    while i < img.Length
      invariant 0 <= i <= img.Length
      invariant forall k :: 0 <= k < i ==> img[k] == color
    {
      img[i] := color;
      i := i + 1;
    }
    pixels := img[..];
  }

  // ---------------------------------------------------------------------------
  // Device discovery

  /** A serial number marks a screen when it starts with "USBSCR"; a missing one reads as "". */
  predicate IsScreenSerial(serial: Option<string>) {
    var s := if serial.Some? then serial.value else "";
    "USBSCR" <= s
  }

  /** An entry of `serialport::available_ports()`: only USB ports carry a serial number. */
  datatype PortType = UsbPort(serialNumber: Option<string>) | PciPort | BluetoothPort | UnknownPort
  datatype PortInfo = PortInfo(portName: string, portType: PortType)

  predicate IsScreenPort(p: PortInfo) {
    p.portType.UsbPort? && IsScreenSerial(p.portType.serialNumber)
  }

  /** The reference filter: the screen ports, in enumeration order. */
  function ScreenPorts(ports: seq<PortInfo>): (r: seq<PortInfo>)
    decreases |ports|
  {
    if ports == [] then []
    else ScreenPorts(ports[..|ports| - 1]) + (if IsScreenPort(ports[|ports| - 1]) then [ports[|ports| - 1]] else [])
  }

  /** The filter keeps exactly the screen ports. */
  lemma {:induction false} ScreenPortsExact(ports: seq<PortInfo>)
    ensures forall p :: p in ScreenPorts(ports) <==> p in ports && IsScreenPort(p)
    decreases |ports|
  {
    if ports != [] {
      ScreenPortsExact(ports[..|ports| - 1]);
      assert ports == ports[..|ports| - 1] + [ports[|ports| - 1]];
    }
  }

  /** The filter keeps enumeration order: filtering a concatenation concatenates the results. */
  lemma {:induction false} ScreenPortsOrder(a: seq<PortInfo>, b: seq<PortInfo>)
    ensures ScreenPorts(a + b) == ScreenPorts(a) + ScreenPorts(b)
    decreases |b|
  {
    if b == [] {
      assert a + b == a;
    } else {
      assert (a + b)[..|a + b| - 1] == a + b[..|b| - 1];
      ScreenPortsOrder(a, b[..|b| - 1]);
    }
  }

  /** `find_usb_serial_device` over the enumerated ports. */
  method FindUsbSerialDevice(ports: seq<PortInfo>) returns (screens: seq<PortInfo>)
    ensures screens == ScreenPorts(ports)
  {
    screens := [];
    var i := 0;
    while i < |ports|
      invariant 0 <= i <= |ports|
      invariant screens == ScreenPorts(ports[..i])
    {
      assert ports[..i + 1][..i] == ports[..i];
      if IsScreenPort(ports[i]) {
        screens := screens + [ports[i]];
      }
      i := i + 1;
    }
    assert ports[..i] == ports;
  }

  /** An entry of `nusb::list_devices()`. */
  datatype DeviceInfo = DeviceInfo(busNumber: nat, address: nat, serialNumber: Option<string>)

  /** What `open_usb_screen` returns: the error of `list_devices`, `Ok(Some(interface))`,
      `Ok(None)`, or the error of `open` / `claim_interface` on the device it picked. */
  datatype OpenResult = ListFailed | Opened(device: DeviceInfo) | NotFound | OpenFailed(device: DeviceInfo)

  /** `open_usb_screen`: `listed` is what `nusb::list_devices()` returned (None for its
      error); the first device whose serial number starts with "USBSCR" is opened, and
      `canOpen` says whether opening and claiming interface 0 succeed. */
  method OpenUsbScreen(listed: Option<seq<DeviceInfo>>, canOpen: DeviceInfo -> bool) returns (r: OpenResult)
    ensures r == ListFailed <==> listed.None?
    ensures listed.Some? ==>
      (r == NotFound <==> forall i :: 0 <= i < |listed.value| ==> !IsScreenSerial(listed.value[i].serialNumber))
    ensures r.Opened? || r.OpenFailed? ==>
      listed.Some? &&
      (exists i :: 0 <= i < |listed.value| && listed.value[i] == r.device && IsScreenSerial(listed.value[i].serialNumber)
                   && (forall j :: 0 <= j < i ==> !IsScreenSerial(listed.value[j].serialNumber)))
    ensures r.Opened? || r.OpenFailed? ==> (r.Opened? <==> canOpen(r.device))
  {
    if listed.None? {
      return ListFailed;
    }
    var devices := listed.value;
    var i := 0;
    while i < |devices|
      invariant 0 <= i <= |devices|
      invariant forall j :: 0 <= j < i ==> !IsScreenSerial(devices[j].serialNumber)
    {
      var d := devices[i];
      if IsScreenSerial(d.serialNumber) {
        if canOpen(d) {
          return Opened(d);
        }
        return OpenFailed(d);
      }
      i := i + 1;
    }
    return NotFound;
  }
}
