/**
  The wire protocol shared by host and device: the three 8-byte markers, the
  16-byte begin packet and the frame descriptor the device hands to the
  renderer (`ImageInfo` in usb_screen/src/main.rs).
 */
module Protocol {
  import opened Bytes

  /** "image_aa": start of a frame. */
  const IMAGE_AA: u64 := 7596835243154170209
  /** "image_bb": end of a frame. */
  const IMAGE_BB: u64 := 7596835243154170466
  /** "boot_usb": reboot into the USB mass-storage bootloader. */
  const BOOT_USB: u64 := 7093010483740242786
  const MAGIC_NUM_LEN: nat := 8
  /** Length of the begin packet: a marker and four u16 header fields. */
  const BEGIN_LEN: nat := 16

  /** What the first 8 bytes of a packet announce. */
  datatype Marker = FrameStart | FrameEnd | RebootToBootloader | Data

  /** The dispatch of the receive loops: one case per constant, everything else is data. */
  function Classify(m: u64): (k: Marker)
    ensures k == FrameStart <==> m == IMAGE_AA
    ensures k == FrameEnd <==> m == IMAGE_BB
    ensures k == RebootToBootloader <==> m == BOOT_USB
    ensures k == Data <==> m !in {IMAGE_AA, IMAGE_BB, BOOT_USB}
  {
    if m == IMAGE_AA then FrameStart
    else if m == IMAGE_BB then FrameEnd
    else if m == BOOT_USB then RebootToBootloader
    else Data
  }

  /** `u64::from_be_bytes` of bytes 0..8. */
  function MarkerOf(data: seq<u8>): (m: u64)
    requires |data| >= MAGIC_NUM_LEN
    ensures BeBytes(m, MAGIC_NUM_LEN) == data[..MAGIC_NUM_LEN]
  {
    BeValueBound(data[..MAGIC_NUM_LEN]);
    BeBytesOfValue(data[..MAGIC_NUM_LEN]);
    BeValue(data[..MAGIC_NUM_LEN])
  }

  /** The header of a begin packet, in wire order. */
  datatype Header = Header(width: u16, height: u16, x: u16, y: u16)

  /** Bytes 8..16 read as four big-endian u16 values: width, height, x, y. */
  function ParseHeader(data: seq<u8>): (h: Header)
    requires |data| >= BEGIN_LEN
    ensures U16ToBe(h.width) == data[8..10] && U16ToBe(h.height) == data[10..12]
    ensures U16ToBe(h.x) == data[12..14] && U16ToBe(h.y) == data[14..16]
  {
    Header(U16FromBe(data[8], data[9]), U16FromBe(data[10], data[11]),
           U16FromBe(data[12], data[13]), U16FromBe(data[14], data[15]))
  }

  /** What travels through `USB_CHANNEL`: `(bytes, x, y, width, height)`. */
  datatype Frame = Frame(data: seq<u8>, x: u16, y: u16, width: u16, height: u16)

  /** The three marker constants are pairwise distinct, so `Classify` is a partition. */
  lemma MarkersDistinct()
    ensures IMAGE_AA != IMAGE_BB && IMAGE_AA != BOOT_USB && IMAGE_BB != BOOT_USB
  {
  }

  /** `image_aa`: the marker read from its ASCII spelling. */
  lemma ImageAaSpelling()
    ensures BeValue([105, 109, 97, 103, 101, 95, 97, 97]) == IMAGE_AA
    ensures BeBytes(IMAGE_AA, 8) == [105, 109, 97, 103, 101, 95, 97, 97]
  {
    assert BeValue([105]) == 105;
    assert [105, 109][..1] == [105];
    assert BeValue([105, 109]) == 26989;
    assert [105, 109, 97][..2] == [105, 109];
    assert BeValue([105, 109, 97]) == 6909281;
    assert [105, 109, 97, 103][..3] == [105, 109, 97];
    assert BeValue([105, 109, 97, 103]) == 1768776039;
    assert [105, 109, 97, 103, 101][..4] == [105, 109, 97, 103];
    assert BeValue([105, 109, 97, 103, 101]) == 452806666085;
    assert [105, 109, 97, 103, 101, 95][..5] == [105, 109, 97, 103, 101];
    assert BeValue([105, 109, 97, 103, 101, 95]) == 115918506517855;
    assert [105, 109, 97, 103, 101, 95, 97][..6] == [105, 109, 97, 103, 101, 95];
    assert BeValue([105, 109, 97, 103, 101, 95, 97]) == 29675137668570977;
    assert [105, 109, 97, 103, 101, 95, 97, 97][..7] == [105, 109, 97, 103, 101, 95, 97];
    assert BeValue([105, 109, 97, 103, 101, 95, 97, 97]) == 7596835243154170209;
    BeBytesOfValue([105, 109, 97, 103, 101, 95, 97, 97]);
  }

  /** `image_bb`: the marker read from its ASCII spelling. */
  lemma ImageBbSpelling()
    ensures BeValue([105, 109, 97, 103, 101, 95, 98, 98]) == IMAGE_BB
    ensures BeBytes(IMAGE_BB, 8) == [105, 109, 97, 103, 101, 95, 98, 98]
  {
    assert BeValue([105]) == 105;
    assert [105, 109][..1] == [105];
    assert BeValue([105, 109]) == 26989;
    assert [105, 109, 97][..2] == [105, 109];
    assert BeValue([105, 109, 97]) == 6909281;
    assert [105, 109, 97, 103][..3] == [105, 109, 97];
    assert BeValue([105, 109, 97, 103]) == 1768776039;
    assert [105, 109, 97, 103, 101][..4] == [105, 109, 97, 103];
    assert BeValue([105, 109, 97, 103, 101]) == 452806666085;
    assert [105, 109, 97, 103, 101, 95][..5] == [105, 109, 97, 103, 101];
    assert BeValue([105, 109, 97, 103, 101, 95]) == 115918506517855;
    assert [105, 109, 97, 103, 101, 95, 98][..6] == [105, 109, 97, 103, 101, 95];
    assert BeValue([105, 109, 97, 103, 101, 95, 98]) == 29675137668570978;
    assert [105, 109, 97, 103, 101, 95, 98, 98][..7] == [105, 109, 97, 103, 101, 95, 98];
    assert BeValue([105, 109, 97, 103, 101, 95, 98, 98]) == 7596835243154170466;
    BeBytesOfValue([105, 109, 97, 103, 101, 95, 98, 98]);
  }

  /** `boot_usb`: the marker read from its ASCII spelling. */
  lemma BootUsbSpelling()
    ensures BeValue([98, 111, 111, 116, 95, 117, 115, 98]) == BOOT_USB
    ensures BeBytes(BOOT_USB, 8) == [98, 111, 111, 116, 95, 117, 115, 98]
  {
    assert BeValue([98]) == 98;
    assert [98, 111][..1] == [98];
    assert BeValue([98, 111]) == 25199;
    assert [98, 111, 111][..2] == [98, 111];
    assert BeValue([98, 111, 111]) == 6451055;
    assert [98, 111, 111, 116][..3] == [98, 111, 111];
    assert BeValue([98, 111, 111, 116]) == 1651470196;
    assert [98, 111, 111, 116, 95][..4] == [98, 111, 111, 116];
    assert BeValue([98, 111, 111, 116, 95]) == 422776370271;
    assert [98, 111, 111, 116, 95, 117][..5] == [98, 111, 111, 116, 95];
    assert BeValue([98, 111, 111, 116, 95, 117]) == 108230750789493;
    assert [98, 111, 111, 116, 95, 117, 115][..6] == [98, 111, 111, 116, 95, 117];
    assert BeValue([98, 111, 111, 116, 95, 117, 115]) == 27707072202110323;
    assert [98, 111, 111, 116, 95, 117, 115, 98][..7] == [98, 111, 111, 116, 95, 117, 115];
    assert BeValue([98, 111, 111, 116, 95, 117, 115, 98]) == 7093010483740242786;
    BeBytesOfValue([98, 111, 111, 116, 95, 117, 115, 98]);
  }
}
