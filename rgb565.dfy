/** Pixel helpers of usb_screen/src/rgb565.rs. */
module Rgb565 {
  import opened Bytes

  /** The reference byte swap: every complete pair exchanged, a trailing odd byte kept. */
  function SwapPairs(s: seq<u8>): (r: seq<u8>)
    ensures |r| == |s|
  {
    seq(|s|, i requires 0 <= i < |s| =>
      if i % 2 == 0 && i + 1 < |s| then s[i + 1] else if i % 2 == 1 then s[i - 1] else s[i])
  }

  /** Swapping twice restores the buffer. */
  lemma SwapPairsInvolution(s: seq<u8>)
    ensures SwapPairs(SwapPairs(s)) == s
  {
    var t := SwapPairs(s);
    var u := SwapPairs(t);
    forall i | 0 <= i < |s|
      ensures u[i] == s[i]
    {
      if i % 2 == 0 && i + 1 < |s| {
        assert u[i] == t[i + 1] == s[i];
      } else if i % 2 == 1 {
        assert u[i] == t[i - 1] == s[i];
      }
    }
  }

  /** Read as words, the swapped buffer holds the same RGB565 values in the other byte order:
      little-endian pair k becomes big-endian pair k. */
  lemma SwapPairsChangesByteOrder(s: seq<u8>, k: nat)
    requires 2 * k + 1 < |s|
    ensures U16FromBe(SwapPairs(s)[2 * k], SwapPairs(s)[2 * k + 1]) == U16FromLe(s[2 * k], s[2 * k + 1])
  {
  }

  /** `rgb565_le_to_be`: for each 2-byte chunk, decode little-endian and store big-endian.
      A final 1-byte chunk makes `pix[1]` go out of bounds; `ok` is false then, with every
      complete pair already swapped and the last byte untouched. */
  method Rgb565LeToBe(image: array<u8>) returns (ok: bool)
    modifies image
    ensures image[..] == SwapPairs(old(image[..]))
    ensures ok <==> image.Length % 2 == 0
  {
    ghost var orig := image[..];
    var i := 0;
    while i + 1 < image.Length
      invariant 0 <= i <= image.Length && i % 2 == 0
      invariant forall k :: 0 <= k < i ==> image[k] == SwapPairs(orig)[k]
      invariant forall k :: i <= k < image.Length ==> image[k] == orig[k]
    {
      var color := U16FromLe(image[i], image[i + 1]);
      var bytes := U16ToBe(color);
      LeToBeSwaps(image[i], image[i + 1]);
      PairSwapped(orig, i);
      image[i] := bytes[0];
      image[i + 1] := bytes[1];
      i := i + 2;
    }
    ok := i == image.Length;
  }

  /** Decoding a pair little-endian and encoding it big-endian exchanges its bytes. */
  lemma LeToBeSwaps(lo: u8, hi: u8)
    ensures U16ToBe(U16FromLe(lo, hi)) == [hi, lo]
  {
  }

  /** The reference swap at a complete pair starting at an even index. */
  lemma PairSwapped(s: seq<u8>, i: nat)
    requires i % 2 == 0 && i + 1 < |s|
    ensures SwapPairs(s)[i] == s[i + 1] && SwapPairs(s)[i + 1] == s[i]
  {
  }

  /** `rgb_to_rgb565`: red's top five bits into bits 11-15, green's top six into 5-10,
      blue's top five into 0-4. */
  function RgbToRgb565(r: bv8, g: bv8, b: bv8): (c: bv16)
    ensures c >> 11 == (r as bv16) >> 3
    ensures (c >> 5) & 0x3F == (g as bv16) >> 2
    ensures c & 0x1F == (b as bv16) >> 3
  {
    (((r as bv16) & 0xF8) << 8) | (((g as bv16) & 0xFC) << 3) | ((b as bv16) >> 3)
  }

  lemma PureBlue()
    ensures RgbToRgb565(0, 0, 255) == 0x001F
  {
  }

  lemma White()
    ensures RgbToRgb565(255, 255, 255) == 0xFFFF
  {
  }

  /** Zero-extending a byte commutes with shifting it right. */
  lemma WidenShift(x: bv8, y: bv8)
    ensures (x >> 3 == y >> 3) == ((x as bv16) >> 3 == (y as bv16) >> 3)
    ensures (x >> 2 == y >> 2) == ((x as bv16) >> 2 == (y as bv16) >> 2)
  {
  }

  /** The channels of a packed value can be read back, up to the dropped low bits. */
  lemma PackingRecoversTopBits(r: bv8, g: bv8, b: bv8, r': bv8, g': bv8, b': bv8)
    requires RgbToRgb565(r, g, b) == RgbToRgb565(r', g', b')
    ensures r >> 3 == r' >> 3 && g >> 2 == g' >> 2 && b >> 3 == b' >> 3
  {
    WidenShift(r, r');
    WidenShift(g, g');
    WidenShift(b, b');
  }

  /** The masks in `rgb_to_rgb565` keep exactly the top bits of a channel. */
  lemma MaskKeepsTopBits(x: bv8, y: bv8)
    ensures x >> 3 == y >> 3 ==> (x as bv16) & 0xF8 == (y as bv16) & 0xF8
    ensures x >> 2 == y >> 2 ==> (x as bv16) & 0xFC == (y as bv16) & 0xFC
  {
  }

  /** Colours that differ only in the dropped low bits pack to the same value. */
  lemma PackingIgnoresLowBits(r: bv8, g: bv8, b: bv8, r': bv8, g': bv8, b': bv8)
    requires r >> 3 == r' >> 3 && g >> 2 == g' >> 2 && b >> 3 == b' >> 3
    ensures RgbToRgb565(r, g, b) == RgbToRgb565(r', g', b')
  {
    MaskKeepsTopBits(r, r');
    MaskKeepsTopBits(g, g');
    WidenShift(b, b');
  }
}
