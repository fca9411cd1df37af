/**
  The integer RGB888 / YUV 4:2:0 planar conversions of usb_screen/src/rgb2yuv.rs.

  A planar 4:2:0 buffer for a w×h image holds w·h luma bytes, then a U plane and a V plane
  of one sample per 2×2 block each. The encoder takes a block's chroma from its top-left
  pixel; the decoder gives every pixel of a block that block's chroma.

  The shifts `>> 8` act on `i32` values and are arithmetic, so they round down; `/ 256` on
  `int` does the same. No intermediate value comes near the `i32` range, so the model
  computes on `int`.
 */
module Yuv {
  import opened Bytes
  import opened Arith

  function Dist(a: int, b: int): nat {
    if a >= b then a - b else b - a
  }

  /** `clamp_u8`: 255 above 255, 0 below 0, the value itself in between. */
  function ClampU8(x: int): (r: u8)
    ensures x > 255 ==> r == 255
    ensures x < 0 ==> r == 0
    ensures 0 <= x <= 255 ==> r == x
  {
    if x > 255 then 255 else if x < 0 then 0 else x
  }

  /** The clamped value is the byte value nearest to x. */
  lemma ClampIsNearest(x: int, v: int)
    requires 0 <= v <= 255
    ensures Dist(x, ClampU8(x)) <= Dist(x, v)
  {
  }

  /** Clamping keeps the order of its inputs. */
  lemma ClampMonotone(x: int, y: int)
    requires x <= y
    ensures ClampU8(x) <= ClampU8(y)
  {
  }

  /** `yt`, `ut` and `vt` of `rgb_to_yuv420p`, before clamping. */
  function Luma(r: u8, g: u8, b: u8): int {
    (66 * r + 129 * g + 25 * b + 128) / 256 + 16
  }

  function ChromaU(r: u8, g: u8, b: u8): int {
    (-38 * r - 74 * g + 112 * b + 128) / 256 + 128
  }

  function ChromaV(r: u8, g: u8, b: u8): int {
    (112 * r - 94 * g - 18 * b + 128) / 256 + 128
  }

  /** Every colour lands in the studio range 16..235 of luma, and 16..240 of chroma, so the
      encoder's clamps never change a value. */
  lemma EncodedRanges(r: u8, g: u8, b: u8)
    ensures 16 <= Luma(r, g, b) <= 235
    ensures 16 <= ChromaU(r, g, b) <= 240
    ensures 16 <= ChromaV(r, g, b) <= 240
  {
  }

  /** `rt`, `gt` and `bt` of `yuv_420p_to_rgb`, clamped. */
  function Red(y: u8, v: u8): u8 {
    ClampU8((298 * (y - 16) + 408 * (v - 128) + 128) / 256)
  }

  function Green(y: u8, u: u8, v: u8): u8 {
    ClampU8((298 * (y - 16) - 100 * (u - 128) - 208 * (v - 128) + 128) / 256)
  }

  function Blue(y: u8, u: u8): u8 {
    ClampU8((298 * (y - 16) + 516 * (u - 128) + 128) / 256)
  }

  /** The three bytes decoded from one luma and one pair of chroma samples. */
  function RgbOf(y: u8, u: u8, v: u8): (px: seq<u8>)
    ensures |px| == 3
  {
    [Red(y, v), Green(y, u, v), Blue(y, u)]
  }

  /** Black encodes to (16, 128, 128) and decodes back to black. */
  lemma BlackRoundTrip()
    ensures ClampU8(Luma(0, 0, 0)) == 16 && ClampU8(ChromaU(0, 0, 0)) == 128 && ClampU8(ChromaV(0, 0, 0)) == 128
    ensures RgbOf(16, 128, 128) == [0, 0, 0]
  {
    assert (298 * (16 - 16) + 408 * (128 - 128) + 128) / 256 == 0;
    assert (298 * (16 - 16) - 100 * (128 - 128) - 208 * (128 - 128) + 128) / 256 == 0;
    assert (298 * (16 - 16) + 516 * (128 - 128) + 128) / 256 == 0;
  }

  /** White encodes to (235, 128, 128) and decodes back to white. */
  lemma WhiteRoundTrip()
    ensures ClampU8(Luma(255, 255, 255)) == 235 && ClampU8(ChromaU(255, 255, 255)) == 128
    ensures ClampU8(ChromaV(255, 255, 255)) == 128
    ensures RgbOf(235, 128, 128) == [255, 255, 255]
  {
    assert (66 * 255 + 129 * 255 + 25 * 255 + 128) / 256 == 219;
    assert (-38 * 255 - 74 * 255 + 112 * 255 + 128) / 256 == 0;
    assert (112 * 255 - 94 * 255 - 18 * 255 + 128) / 256 == 0;
    assert (298 * (235 - 16) + 408 * (128 - 128) + 128) / 256 == 255;
    assert (298 * (235 - 16) - 100 * (128 - 128) - 208 * (128 - 128) + 128) / 256 == 255;
    assert (298 * (235 - 16) + 516 * (128 - 128) + 128) / 256 == 255;
  }

  // ---------------------------------------------------------------- encoder

  /** Luma of pixel p of a packed RGB888 buffer. */
  function LumaAt(rgb: seq<u8>, p: nat): u8
    requires 3 * p + 2 < |rgb|
  {
    ClampU8(Luma(rgb[3 * p], rgb[3 * p + 1], rgb[3 * p + 2]))
  }

  function UAt(rgb: seq<u8>, p: nat): u8
    requires 3 * p + 2 < |rgb|
  {
    ClampU8(ChromaU(rgb[3 * p], rgb[3 * p + 1], rgb[3 * p + 2]))
  }

  function VAt(rgb: seq<u8>, p: nat): u8
    requires 3 * p + 2 < |rgb|
  {
    ClampU8(ChromaV(rgb[3 * p], rgb[3 * p + 1], rgb[3 * p + 2]))
  }

  /** Pixel (2x, 2y) of a w-wide image. */
  function PairStart(w: nat, y: nat, x: nat): nat {
    Mul(2 * y, w) + 2 * x
  }

  /** The pixels sampled for chroma on even line 2y of a w-wide image: the first of each pair. */
  function PairStarts(w: nat, y: nat): (r: seq<nat>)
    ensures |r| == w / 2
  {
    seq(w / 2, x requires 0 <= x < w / 2 => PairStart(w, y, x))
  }

  /** The pixels sampled for chroma over the first n pairs of lines, in the order the
      encoder visits them. */
  function ChromaSources(w: nat, n: nat): (r: seq<nat>)
    ensures |r| == Mul(n, w / 2)
  {
    if n == 0 then [] else ChromaSources(w, n - 1) + PairStarts(w, n - 1)
  }

  /** Every sampled pixel of the first n pairs of lines lies on those lines. */
  lemma {:induction false} ChromaSourcesBound(w: nat, n: nat)
    requires w % 2 == 0
    ensures forall k :: 0 <= k < |ChromaSources(w, n)| ==> ChromaSources(w, n)[k] < Mul(2 * n, w)
    decreases n
  {
    if n > 0 {
      ChromaSourcesBound(w, n - 1);
      MulMono(2 * n - 2, 2 * n, w);
      assert Mul(2 * n, w) == Mul(2 * (n - 1), w) + w + w;
    }
  }

  /** Chroma sample x of line pair y comes from pixel (2x, 2y), the top-left of its block. */
  lemma {:induction false} ChromaSourcesAt(w: nat, n: nat, y: nat, x: nat)
    requires y < n && x < w / 2
    ensures Mul(y, w / 2) + x < |ChromaSources(w, n)|
    ensures ChromaSources(w, n)[Mul(y, w / 2) + x] == PairStart(w, y, x)
    decreases n
  {
    MulMono(y + 1, n, w / 2);
    var prev := ChromaSources(w, n - 1);
    if y < n - 1 {
      ChromaSourcesAt(w, n - 1, y, x);
      MulMono(y + 1, n - 1, w / 2);
      assert ChromaSources(w, n)[Mul(y, w / 2) + x] == prev[Mul(y, w / 2) + x];
    } else {
      assert Mul(y, w / 2) == |prev|;
    }
  }

  function YPlane(rgb: seq<u8>, n: nat): (ys: seq<u8>)
    requires 3 * n <= |rgb|
    ensures |ys| == n
  {
    seq(n, p requires 0 <= p < n => LumaAt(rgb, p))
  }

  function UPlane(rgb: seq<u8>, srcs: seq<nat>): (us: seq<u8>)
    requires forall k :: 0 <= k < |srcs| ==> 3 * srcs[k] + 2 < |rgb|
    ensures |us| == |srcs|
  {
    seq(|srcs|, k requires 0 <= k < |srcs| => UAt(rgb, srcs[k]))
  }

  function VPlane(rgb: seq<u8>, srcs: seq<nat>): (vs: seq<u8>)
    requires forall k :: 0 <= k < |srcs| ==> 3 * srcs[k] + 2 < |rgb|
    ensures |vs| == |srcs|
  {
    seq(|srcs|, k requires 0 <= k < |srcs| => VAt(rgb, srcs[k]))
  }

  /** The planar image of an even-sized w×h RGB888 buffer: luma of every pixel in raster
      order, then U and V of every 2×2 block. */
  function Encoded(rgb: seq<u8>, w: nat, h: nat): (yuv: seq<u8>)
    requires w % 2 == 0 && h % 2 == 0 && 3 * Mul(h, w) <= |rgb|
    ensures |yuv| == Mul(h, w) + 2 * (Mul(h, w) / 4)
  {
    SourcesInImage(rgb, w, h);
    var srcs := ChromaSources(w, h / 2);
    YPlane(rgb, Mul(h, w)) + UPlane(rgb, srcs) + VPlane(rgb, srcs)
  }

  /** For an even-sized image there is one chroma sample per 2×2 block, each taken from a
      pixel of the image. */
  lemma SourcesInImage(rgb: seq<u8>, w: nat, h: nat)
    requires w % 2 == 0 && h % 2 == 0 && 3 * Mul(h, w) <= |rgb|
    ensures var srcs := ChromaSources(w, h / 2);
      && |srcs| == Mul(h, w) / 4
      && forall k :: 0 <= k < |srcs| ==> 3 * srcs[k] + 2 < |rgb|
  {
    assert h == 2 * (h / 2) && w == 2 * (w / 2);
    MulDoubled(h / 2, w / 2);
    ChromaSourcesBound(w, h / 2);
  }

  lemma EncodedIsPlanes(rgb: seq<u8>, w: nat, h: nat)
    requires w % 2 == 0 && h % 2 == 0 && 3 * Mul(h, w) <= |rgb|
    ensures var srcs := ChromaSources(w, h / 2);
      && (forall k :: 0 <= k < |srcs| ==> 3 * srcs[k] + 2 < |rgb|)
      && Encoded(rgb, w, h) == YPlane(rgb, Mul(h, w)) + UPlane(rgb, srcs) + VPlane(rgb, srcs)
  {
    SourcesInImage(rgb, w, h);
  }

  /** What the encoder has written so far: luma for the first i pixels, U and V for the
      pixels in `srcs`, and nothing else. */
  ghost predicate EncodedUpTo(d: seq<u8>, orig: seq<u8>, rgb: seq<u8>, wh: nat, v0: nat, i: nat, srcs: seq<nat>)
  {
    && |d| == |orig| && i <= wh && wh + |srcs| <= v0 && v0 + |srcs| <= |d| && 3 * wh <= |rgb|
    && (forall p :: 0 <= p < i ==> d[p] == LumaAt(rgb, p))
    && (forall k :: 0 <= k < |srcs| ==> srcs[k] < i && d[wh + k] == UAt(rgb, srcs[k]) && d[v0 + k] == VAt(rgb, srcs[k]))
    && (forall k ::
          (0 <= k < |d| && !(k < i) && !(wh <= k < wh + |srcs|) && !(v0 <= k < v0 + |srcs|))
          ==> d[k] == orig[k])
  }

  /** `rgb_to_yuv420p` for even width and height. The U plane starts at w·h and the V plane
      a quarter of that further on; nothing past the V plane is written. */
  method RgbToYuv420p(destination: array<u8>, rgb: array<u8>, width: nat, height: nat)
    requires destination != rgb
    requires width % 2 == 0 && height % 2 == 0
    requires 3 * Mul(height, width) <= rgb.Length
    requires Mul(height, width) + 2 * (Mul(height, width) / 4) <= destination.Length
    modifies destination
    ensures destination[..Mul(height, width) + 2 * (Mul(height, width) / 4)] == Encoded(rgb[..], width, height)
    ensures forall k :: Mul(height, width) + 2 * (Mul(height, width) / 4) <= k < destination.Length
                        ==> destination[k] == old(destination[k])
  {
    ghost var orig := destination[..];
    ghost var src := rgb[..];
    var imageSize := Mul(height, width);
    var upos := imageSize;
    var vpos := upos + upos / 4;
    var i := 0;
    ghost var srcs: seq<nat> := [];
    MulDoubled(height / 2, width / 2);
    assert imageSize / 4 == Mul(height / 2, width / 2);
    ghost var v0 := imageSize + imageSize / 4;
    ghost var m := 0;
    var line := 0;
    while line < height
      invariant line <= height && i == Mul(line, width) && i <= imageSize
      invariant line == 2 * m || line + 1 == 2 * m
      invariant srcs == ChromaSources(width, m) && m <= height / 2
      invariant upos == imageSize + |srcs| && vpos == v0 + |srcs|
      invariant forall k :: 0 <= k < rgb.Length ==> rgb[k] == src[k]
      invariant EncodedUpTo(destination[..], orig, src, imageSize, v0, i, srcs)
    {
      i, upos, vpos, m, srcs := EncodeLine(destination, rgb, width, height, line, i, upos, vpos,
                                           src, orig, imageSize, v0, m, srcs);
      line := line + 1;
    }
    assert m == height / 2 && |srcs| == imageSize / 4;
    assert rgb[..] == src;
    ghost var d := destination[..];
    YPlaneWritten(d, orig, src, imageSize, v0, srcs);
    ChromaPlanesWritten(d, orig, src, imageSize, v0, srcs);
    EncodedFromPlanes(d, src, width, height, imageSize, v0, srcs);
  }

  /** One pass of the outer loop: an even line emits luma and chroma, an odd one luma only. */
  method EncodeLine(destination: array<u8>, rgb: array<u8>, width: nat, height: nat, line: nat,
                    i0: nat, upos0: nat, vpos0: nat,
                    ghost src: seq<u8>, ghost orig: seq<u8>, ghost wh: nat, ghost v0: nat, ghost m0: nat,
                    ghost srcs0: seq<nat>)
    returns (i: nat, upos: nat, vpos: nat, ghost m: nat, ghost srcs: seq<nat>)
    requires destination != rgb && width % 2 == 0 && height % 2 == 0
    requires wh == Mul(height, width) && wh / 4 == Mul(height / 2, width / 2) && v0 == wh + wh / 4
    requires wh + 2 * (wh / 4) <= destination.Length
    requires rgb.Length == |src| && forall k :: 0 <= k < rgb.Length ==> rgb[k] == src[k]
    requires line < height && i0 == Mul(line, width)
    requires line == 2 * m0 || line + 1 == 2 * m0
    requires srcs0 == ChromaSources(width, m0) && m0 <= height / 2
    requires upos0 == wh + |srcs0| && vpos0 == v0 + |srcs0|
    requires EncodedUpTo(destination[..], orig, src, wh, v0, i0, srcs0)
    modifies destination
    ensures i == Mul(line + 1, width) && i <= wh
    ensures line + 1 == 2 * m || line + 2 == 2 * m
    ensures srcs == ChromaSources(width, m) && m <= height / 2
    ensures upos == wh + |srcs| && vpos == v0 + |srcs|
    ensures EncodedUpTo(destination[..], orig, src, wh, v0, i, srcs)
  {
    LineCounts(width, height, line, m0);
    if line % 2 == 0 {
      i, upos, vpos, srcs := EncodeEvenLine(destination, rgb, width, i0, upos0, vpos0, src, orig, wh, v0, m0, srcs0);
      m := m0 + 1;
    } else {
      i := EncodeOddLine(destination, rgb, width, i0, src, orig, wh, v0, srcs0);
      upos, vpos, m, srcs := upos0, vpos0, m0, srcs0;
    }
  }

  /** Where line `line` starts and ends, and how many chroma samples precede it, given that
      m pairs of lines have been started. */
  lemma LineCounts(w: nat, h: nat, line: nat, m: nat)
    requires w % 2 == 0 && h % 2 == 0 && line < h && (line == 2 * m || line + 1 == 2 * m)
    ensures Mul(line, w) + w == Mul(line + 1, w) <= Mul(h, w)
    ensures line % 2 == 0 ==> line == 2 * m && m + 1 <= h / 2 && Mul(m, w / 2) + w / 2 <= Mul(h / 2, w / 2)
    ensures line % 2 == 1 ==> line + 1 == 2 * m
  {
    MulMono(line + 1, h, w);
    if line % 2 == 0 {
      assert line == 2 * m;
      assert h == 2 * (h / 2);
      MulMono(m + 1, h / 2, w / 2);
    }
  }

  /** One even line: for each pair of pixels, the luma of both and the chroma of the first. */
  method EncodeEvenLine(destination: array<u8>, rgb: array<u8>, width: nat, i0: nat, upos0: nat, vpos0: nat,
                        ghost src: seq<u8>, ghost orig: seq<u8>, ghost wh: nat, ghost v0: nat, ghost y: nat,
                        ghost srcs0: seq<nat>)
    returns (i: nat, upos: nat, vpos: nat, ghost srcs: seq<nat>)
    requires destination != rgb && width % 2 == 0
    requires rgb.Length == |src| && forall k :: 0 <= k < rgb.Length ==> rgb[k] == src[k]
    requires i0 == Mul(2 * y, width) && i0 + width <= wh
    requires upos0 == wh + |srcs0| && vpos0 == v0 + |srcs0| && upos0 + width / 2 <= v0
    requires vpos0 + width / 2 <= destination.Length
    requires EncodedUpTo(destination[..], orig, src, wh, v0, i0, srcs0)
    modifies destination
    ensures i == i0 + width && srcs == srcs0 + PairStarts(width, y)
    ensures upos == wh + |srcs| && vpos == v0 + |srcs|
    ensures EncodedUpTo(destination[..], orig, src, wh, v0, i, srcs)
  {
    i, upos, vpos, srcs := i0, upos0, vpos0, srcs0;
    ghost var pairs := width / 2;
    assert width == 2 * pairs;
    ghost var n := 0;
    var x := 0;
    while x < width
      invariant n <= pairs && x == 2 * n && i == i0 + x
      invariant srcs == srcs0 + PairStarts(width, y)[..n]
      invariant upos == wh + |srcs| && vpos == v0 + |srcs|
      invariant EncodedUpTo(destination[..], orig, src, wh, v0, i, srcs)
    {
      EncodePair(destination, rgb, i, upos, vpos, src, orig, wh, v0, srcs);
      i, upos, vpos := i + 2, upos + 1, vpos + 1;
      assert PairStarts(width, y)[..n + 1] == PairStarts(width, y)[..n] + [i - 2];
      srcs := srcs + [i - 2];
      n := n + 1;
      x := x + 2;
    }
    assert PairStarts(width, y)[..n] == PairStarts(width, y);
  }

  /** The body of the even-line loop: luma of pixels i and i + 1, chroma of pixel i at the
      ends of the U and V planes. */
  method EncodePair(destination: array<u8>, rgb: array<u8>, i: nat, upos: nat, vpos: nat,
                    ghost src: seq<u8>, ghost orig: seq<u8>, ghost wh: nat, ghost v0: nat, ghost srcs: seq<nat>)
    requires destination != rgb
    requires rgb.Length == |src| && forall k :: 0 <= k < rgb.Length ==> rgb[k] == src[k]
    requires i + 2 <= wh && upos == wh + |srcs| && vpos == v0 + |srcs| && upos < v0 && vpos < destination.Length
    requires EncodedUpTo(destination[..], orig, src, wh, v0, i, srcs)
    modifies destination
    ensures EncodedUpTo(destination[..], orig, src, wh, v0, i + 2, srcs + [i])
  {
    ghost var d0 := destination[..];
    var r, g, b := rgb[3 * i], rgb[3 * i + 1], rgb[3 * i + 2];
    destination[i] := ClampU8(Luma(r, g, b));
    LumaStep(d0, destination[..], orig, src, wh, v0, i, srcs);
    ghost var d1 := destination[..];
    destination[upos] := ClampU8(ChromaU(r, g, b));
    destination[vpos] := ClampU8(ChromaV(r, g, b));
    ChromaStep(d1, destination[..], orig, src, wh, v0, i + 1, srcs, i);
    ghost var d2 := destination[..];
    r, g, b := rgb[3 * (i + 1)], rgb[3 * (i + 1) + 1], rgb[3 * (i + 1) + 2];
    destination[i + 1] := ClampU8(Luma(r, g, b));
    LumaStep(d2, destination[..], orig, src, wh, v0, i + 1, srcs + [i]);
  }

  /** One odd line: the luma of every pixel. */
  method EncodeOddLine(destination: array<u8>, rgb: array<u8>, width: nat, i0: nat,
                       ghost src: seq<u8>, ghost orig: seq<u8>, ghost wh: nat, ghost v0: nat, ghost srcs: seq<nat>)
    returns (i: nat)
    requires destination != rgb
    requires rgb.Length == |src| && forall k :: 0 <= k < rgb.Length ==> rgb[k] == src[k]
    requires i0 + width <= wh
    requires EncodedUpTo(destination[..], orig, src, wh, v0, i0, srcs)
    modifies destination
    ensures i == i0 + width
    ensures EncodedUpTo(destination[..], orig, src, wh, v0, i, srcs)
  {
    i := i0;
    var x := 0;
    while x < width
      invariant x <= width && i == i0 + x
      invariant EncodedUpTo(destination[..], orig, src, wh, v0, i, srcs)
    {
      ghost var d0 := destination[..];
      var r, g, b := rgb[3 * i], rgb[3 * i + 1], rgb[3 * i + 2];
      destination[i] := ClampU8(Luma(r, g, b));
      LumaStep(d0, destination[..], orig, src, wh, v0, i, srcs);
      i := i + 1;
      x := x + 1;
    }
  }

  /** Writing the luma of pixel i extends what is written by one pixel. */
  lemma LumaStep(d0: seq<u8>, d1: seq<u8>, orig: seq<u8>, rgb: seq<u8>, wh: nat, v0: nat, i: nat, srcs: seq<nat>)
    requires EncodedUpTo(d0, orig, rgb, wh, v0, i, srcs) && i < wh
    requires |d1| == |d0| && d1[i] == LumaAt(rgb, i)
    requires forall k :: 0 <= k < |d1| && k != i ==> d1[k] == d0[k]
    ensures EncodedUpTo(d1, orig, rgb, wh, v0, i + 1, srcs)
  {
  }

  /** Writing the chroma of pixel p at the ends of both chroma planes adds p to the sampled
      pixels. */
  lemma ChromaStep(d0: seq<u8>, d1: seq<u8>, orig: seq<u8>, rgb: seq<u8>, wh: nat, v0: nat, i: nat,
                   srcs: seq<nat>, p: nat)
    requires EncodedUpTo(d0, orig, rgb, wh, v0, i, srcs) && p < i
    requires wh + |srcs| < v0 && v0 + |srcs| < |d0| && |d1| == |d0|
    requires d1[wh + |srcs|] == UAt(rgb, p) && d1[v0 + |srcs|] == VAt(rgb, p)
    requires forall k :: 0 <= k < |d1| && k != wh + |srcs| && k != v0 + |srcs| ==> d1[k] == d0[k]
    ensures EncodedUpTo(d1, orig, rgb, wh, v0, i, srcs + [p])
  {
  }

  /** Three planes found one after the other make up the planar image. */
  lemma EncodedFromPlanes(d: seq<u8>, rgb: seq<u8>, w: nat, h: nat, wh: nat, v0: nat, srcs: seq<nat>)
    requires w % 2 == 0 && h % 2 == 0 && wh == Mul(h, w) && 3 * wh <= |rgb|
    requires srcs == ChromaSources(w, h / 2) && v0 == wh + |srcs| && v0 + |srcs| <= |d|
    requires forall k :: 0 <= k < |srcs| ==> 3 * srcs[k] + 2 < |rgb|
    requires d[..wh] == YPlane(rgb, wh)
    requires d[wh..wh + |srcs|] == UPlane(rgb, srcs)
    requires d[v0..v0 + |srcs|] == VPlane(rgb, srcs)
    ensures d[..v0 + |srcs|] == Encoded(rgb, w, h)
  {
    EncodedIsPlanes(rgb, w, h);
    Concat3(d, YPlane(rgb, wh), UPlane(rgb, srcs), VPlane(rgb, srcs));
  }

  /** Three stretches found one after the other make up the prefix. */
  lemma Concat3(d: seq<u8>, a: seq<u8>, b: seq<u8>, c: seq<u8>)
    requires |a| + |b| + |c| <= |d|
    requires d[..|a|] == a && d[|a|..|a| + |b|] == b && d[|a| + |b|..|a| + |b| + |c|] == c
    ensures d[..|a| + |b| + |c|] == a + b + c
  {
    assert d[..|a| + |b| + |c|] == d[..|a|] + d[|a|..|a| + |b|] + d[|a| + |b|..|a| + |b| + |c|];
  }

  lemma YPlaneWritten(d: seq<u8>, orig: seq<u8>, rgb: seq<u8>, wh: nat, v0: nat, srcs: seq<nat>)
    requires EncodedUpTo(d, orig, rgb, wh, v0, wh, srcs)
    ensures d[..wh] == YPlane(rgb, wh)
  {
  }

  lemma ChromaPlanesWritten(d: seq<u8>, orig: seq<u8>, rgb: seq<u8>, wh: nat, v0: nat, srcs: seq<nat>)
    requires EncodedUpTo(d, orig, rgb, wh, v0, wh, srcs)
    ensures d[wh..wh + |srcs|] == UPlane(rgb, srcs)
    ensures d[v0..v0 + |srcs|] == VPlane(rgb, srcs)
  {
    SliceIs(d, wh, UPlane(rgb, srcs));
    SliceIs(d, v0, VPlane(rgb, srcs));
  }

  /** A stretch of d that agrees with t element by element is t. */
  lemma SliceIs(d: seq<u8>, off: nat, t: seq<u8>)
    requires off + |t| <= |d| && forall k :: 0 <= k < |t| ==> d[off + k] == t[k]
    ensures d[off..off + |t|] == t
  {
  }

  // ---------------------------------------------------------------- decoder

  /** The chroma sample `yuv_420p_to_rgb` reads for pixel (col, line): `(line/2)*(width/2) + col/2`. */
  function ChromaIndex(w: nat, line: nat, col: nat): nat {
    Mul(line / 2, w / 2) + col / 2
  }

  /** Every chroma read of `yuv_420p_to_rgb` is in bounds (the V read is the larger of the
      two, and luma reads stay below w·h). */
  predicate DecodeReadsFit(len: nat, w: nat, h: nat) {
    forall line: nat, col: nat :: line < h && col < w ==> Mul(h, w) + Mul(h, w) / 4 + ChromaIndex(w, line, col) < len
  }

  /** Reading the last pixel in bounds is enough: its V sample is the furthest one read. */
  lemma DecodeReadsFitLast(len: nat, w: nat, h: nat)
    ensures DecodeReadsFit(len, w, h)
        <==> (h == 0 || w == 0 || Mul(h, w) + Mul(h, w) / 4 + ChromaIndex(w, h - 1, w - 1) < len)
  {
    if h > 0 && w > 0 && Mul(h, w) + Mul(h, w) / 4 + ChromaIndex(w, h - 1, w - 1) < len {
      forall line: nat, col: nat | line < h && col < w
        ensures Mul(h, w) + Mul(h, w) / 4 + ChromaIndex(w, line, col) < len
      {
        ChromaReadBound(w, h, line, col);
      }
    }
  }

  lemma DecodeReadBounds(len: nat, w: nat, h: nat, line: nat, col: nat)
    requires DecodeReadsFit(len, w, h) && line < h && col < w
    ensures Mul(line, w) + col < Mul(h, w)
    ensures Mul(h, w) + Mul(h, w) / 4 + ChromaIndex(w, line, col) < len
  {
    LumaReadBound(w, h, line, col);
  }

  lemma LumaReadBound(w: nat, h: nat, line: nat, col: nat)
    requires line < h && col < w
    ensures Mul(line, w) + col < Mul(h, w)
  {
    MulMono(line + 1, h, w);
  }

  /** The chroma sample of a pixel never lies past the one of the last pixel. */
  lemma ChromaReadBound(w: nat, h: nat, line: nat, col: nat)
    requires line < h && col < w
    ensures ChromaIndex(w, line, col) <= ChromaIndex(w, h - 1, w - 1)
  {
    assert line / 2 <= (h - 1) / 2 && col / 2 <= (w - 1) / 2;
    MulMono(line / 2, (h - 1) / 2, w / 2);
  }

  /** The three bytes `yuv_420p_to_rgb` writes for pixel (col, line). */
  function DecodedPixel(yuv: seq<u8>, w: nat, h: nat, line: nat, col: nat): (px: seq<u8>)
    requires DecodeReadsFit(|yuv|, w, h) && line < h && col < w
    ensures |px| == 3
  {
    DecodeReadBounds(|yuv|, w, h, line, col);
    RgbOf(YSample(yuv, w, line, col), USample(yuv, w, h, line, col), VSample(yuv, w, h, line, col))
  }

  /** The luma sample of pixel (col, line): `line*width + col`. */
  function YSample(yuv: seq<u8>, w: nat, line: nat, col: nat): u8
    requires Mul(line, w) + col < |yuv|
  {
    yuv[Mul(line, w) + col]
  }

  /** The U sample of pixel (col, line), in the plane starting at w·h. */
  function USample(yuv: seq<u8>, w: nat, h: nat, line: nat, col: nat): u8
    requires Mul(h, w) + ChromaIndex(w, line, col) < |yuv|
  {
    yuv[Mul(h, w) + ChromaIndex(w, line, col)]
  }

  /** The V sample of pixel (col, line), in the plane starting at w·h + w·h/4. */
  function VSample(yuv: seq<u8>, w: nat, h: nat, line: nat, col: nat): u8
    requires Mul(h, w) + Mul(h, w) / 4 + ChromaIndex(w, line, col) < |yuv|
  {
    yuv[Mul(h, w) + Mul(h, w) / 4 + ChromaIndex(w, line, col)]
  }

  /** The first n pixels of line `line`, decoded. */
  function DecodedRow(yuv: seq<u8>, w: nat, h: nat, line: nat, n: nat): (out: seq<u8>)
    requires DecodeReadsFit(|yuv|, w, h) && line < h && n <= w
    ensures |out| == 3 * n
  {
    seq(3 * n, k requires 0 <= k < 3 * n => DecodedPixel(yuv, w, h, line, k / 3)[k % 3])
  }

  /** The first n lines, each decoded. */
  function DecodedLines(yuv: seq<u8>, w: nat, h: nat, n: nat): (rows: seq<seq<u8>>)
    requires DecodeReadsFit(|yuv|, w, h) && n <= h
    ensures |rows| == n && forall l :: 0 <= l < n ==> |rows[l]| == 3 * w
  {
    seq(n, l requires 0 <= l < n => DecodedRow(yuv, w, h, l, w))
  }

  /** The first n lines, decoded, one after the other. */
  function Decoded(yuv: seq<u8>, w: nat, h: nat, n: nat): (out: seq<u8>)
    requires DecodeReadsFit(|yuv|, w, h) && n <= h
    ensures |out| == 3 * Mul(n, w)
  {
    FlattenLength(DecodedLines(yuv, w, h, n), 3 * w);
    MulTriple(n, w);
    Flatten(DecodedLines(yuv, w, h, n))
  }

  /** Rows laid out one after the other. */
  function Flatten(rows: seq<seq<u8>>): seq<u8>
    decreases |rows|
  {
    if rows == [] then [] else Flatten(rows[..|rows| - 1]) + rows[|rows| - 1]
  }

  lemma {:induction false} FlattenLength(rows: seq<seq<u8>>, m: nat)
    requires forall l :: 0 <= l < |rows| ==> |rows[l]| == m
    ensures |Flatten(rows)| == Mul(|rows|, m)
    decreases |rows|
  {
    if rows != [] {
      FlattenLength(rows[..|rows| - 1], m);
    }
  }

  /** Byte j of row l of rows of length m sits at l·m + j. */
  lemma {:induction false} FlattenAt(rows: seq<seq<u8>>, m: nat, l: nat, j: nat, k: nat)
    requires forall r :: 0 <= r < |rows| ==> |rows[r]| == m
    requires l < |rows| && j < m && k == Mul(l, m) + j
    ensures k < Mul(|rows|, m) && Mul(|rows|, m) == |Flatten(rows)|
    ensures Flatten(rows)[k] == rows[l][j]
    decreases |rows|
  {
    FlattenLength(rows, m);
    MulMono(l + 1, |rows|, m);
    var init := rows[..|rows| - 1];
    FlattenLength(init, m);
    assert Flatten(rows) == Flatten(init) + rows[|rows| - 1];
    if l < |rows| - 1 {
      FlattenAt(init, m, l, j, k);
    } else {
      assert Mul(l, m) == |Flatten(init)|;
    }
  }

  lemma FlattenSnoc(rows: seq<seq<u8>>, r: seq<u8>)
    ensures Flatten(rows + [r]) == Flatten(rows) + r
  {
    assert (rows + [r])[..|rows|] == rows;
  }

  /** `yuv_420p_to_rgb`: 3·w·h bytes in raster order; nothing past them is written. */
  method Yuv420pToRgb(destination: array<u8>, yuv: array<u8>, width: nat, height: nat)
    requires destination != yuv
    requires DecodeReadsFit(yuv.Length, width, height)
    requires 3 * Mul(height, width) <= destination.Length
    modifies destination
    ensures destination[..3 * Mul(height, width)] == Decoded(yuv[..], width, height, height)
    ensures forall k :: 3 * Mul(height, width) <= k < destination.Length ==> destination[k] == old(destination[k])
  {
    ghost var src := yuv[..];
    ghost var orig := destination[..];
    var i := 0;
    var line := 0;
    while line < height
      invariant line <= height && i == 3 * Mul(line, width) && Mul(line, width) <= Mul(height, width)
      invariant forall k :: 0 <= k < yuv.Length ==> yuv[k] == src[k]
      invariant DecodedUpTo(destination[..], orig, i, Decoded(src, width, height, line))
    {
      MulMono(line + 1, height, width);
      i := DecodeLine(destination, yuv, width, height, line, i, src, orig);
      LineStep(destination[..], orig, i, src, width, height, line);
      line := line + 1;
    }
    assert yuv[..] == src;
  }

  /** The first i bytes are `done`; the rest are as they were. */
  ghost predicate DecodedUpTo(d: seq<u8>, orig: seq<u8>, i: nat, done: seq<u8>) {
    |d| == |orig| && i <= |d| && d[..i] == done && forall k :: i <= k < |d| ==> d[k] == orig[k]
  }

  /** One pass of the outer loop of `yuv_420p_to_rgb`. */
  method DecodeLine(destination: array<u8>, yuv: array<u8>, width: nat, height: nat, line: nat, i0: nat,
                    ghost src: seq<u8>, ghost orig: seq<u8>)
    returns (i: nat)
    requires destination != yuv && line < height
    requires yuv.Length == |src| && forall k :: 0 <= k < yuv.Length ==> yuv[k] == src[k]
    requires DecodeReadsFit(|src|, width, height)
    requires i0 == 3 * Mul(line, width) && i0 + 3 * width <= destination.Length
    requires DecodedUpTo(destination[..], orig, i0, Decoded(src, width, height, line))
    modifies destination
    ensures i == i0 + 3 * width
    ensures DecodedUpTo(destination[..], orig, i, Decoded(src, width, height, line) + DecodedRow(src, width, height, line, width))
  {
    ghost var done := Decoded(src, width, height, line);
    i := i0;
    var col := 0;
    while col < width
      invariant col <= width && i == i0 + 3 * col
      invariant DecodedUpTo(destination[..], orig, i, done + DecodedRow(src, width, height, line, col))
    {
      ghost var d0 := destination[..];
      WritePixel(destination, yuv, width, height, line, col, i, src);
      PixelStep(d0, destination[..], orig, i, done, src, width, height, line, col);
      i := i + 3;
      col := col + 1;
    }
  }

  /** The body of the inner loop of `yuv_420p_to_rgb`: pixel (col, line) into bytes i..i+3. */
  method WritePixel(destination: array<u8>, yuv: array<u8>, width: nat, height: nat, line: nat, col: nat, i: nat,
                    ghost src: seq<u8>)
    requires destination != yuv && line < height && col < width && i + 3 <= destination.Length
    requires yuv.Length == |src| && forall k :: 0 <= k < yuv.Length ==> yuv[k] == src[k]
    requires DecodeReadsFit(|src|, width, height)
    modifies destination
    ensures destination[..] == old(destination[..])[..i] + DecodedPixel(src, width, height, line, col) + old(destination[..])[i + 3..]
  {
    ghost var d0 := destination[..];
    DecodeReadBounds(|src|, width, height, line, col);
    var imageSize := Mul(height, width);
    var y := yuv[Mul(line, width) + col] as int;
    var u := yuv[Mul(line / 2, width / 2) + col / 2 + imageSize] as int;
    var v := yuv[Mul(line / 2, width / 2) + col / 2 + imageSize + imageSize / 4] as int;
    var c, d, e := y - 16, u - 128, v - 128;
    var rt := (298 * c + 408 * e + 128) / 256;
    var gt := (298 * c - 100 * d - 208 * e + 128) / 256;
    var bt := (298 * c + 516 * d + 128) / 256;
    destination[i] := ClampU8(rt);
    destination[i + 1] := ClampU8(gt);
    destination[i + 2] := ClampU8(bt);
    Put3(d0, destination[..], i, DecodedPixel(src, width, height, line, col));
  }

  /** Three bytes written at n, and nothing else, splice them in. */
  lemma Put3(d0: seq<u8>, d1: seq<u8>, n: nat, px: seq<u8>)
    requires n + 3 <= |d0| && |d1| == |d0| && |px| == 3
    requires forall k :: 0 <= k < |d1| && !(n <= k < n + 3) ==> d1[k] == d0[k]
    requires d1[n] == px[0] && d1[n + 1] == px[1] && d1[n + 2] == px[2]
    ensures d1 == d0[..n] + px + d0[n + 3..]
  {
  }

  /** Three bytes of pixel (col, line) written just past the decoded prefix extend it. */
  lemma PixelStep(d0: seq<u8>, d1: seq<u8>, orig: seq<u8>, n: nat, done: seq<u8>,
                  yuv: seq<u8>, w: nat, h: nat, line: nat, col: nat)
    requires DecodeReadsFit(|yuv|, w, h) && line < h && col < w
    requires DecodedUpTo(d0, orig, n, done + DecodedRow(yuv, w, h, line, col))
    requires n + 3 <= |d0| && d1 == d0[..n] + DecodedPixel(yuv, w, h, line, col) + d0[n + 3..]
    ensures DecodedUpTo(d1, orig, n + 3, done + DecodedRow(yuv, w, h, line, col + 1))
  {
    var px := DecodedPixel(yuv, w, h, line, col);
    assert d1[..n] == d0[..n];
    assert d1[..n + 3] == d1[..n] + px;
    RowGrows(yuv, w, h, line, col);
  }

  /** One more pixel of a line appends its three bytes. */
  lemma RowGrows(yuv: seq<u8>, w: nat, h: nat, line: nat, col: nat)
    requires DecodeReadsFit(|yuv|, w, h) && line < h && col < w
    ensures DecodedRow(yuv, w, h, line, col + 1) == DecodedRow(yuv, w, h, line, col) + DecodedPixel(yuv, w, h, line, col)
  {
  }

  /** A finished line extends the decoded lines by one. */
  lemma LineStep(d: seq<u8>, orig: seq<u8>, n: nat, yuv: seq<u8>, w: nat, h: nat, line: nat)
    requires DecodeReadsFit(|yuv|, w, h) && line < h
    requires DecodedUpTo(d, orig, n, Decoded(yuv, w, h, line) + DecodedRow(yuv, w, h, line, w))
    ensures DecodedUpTo(d, orig, n, Decoded(yuv, w, h, line + 1))
  {
    var rows := DecodedLines(yuv, w, h, line + 1);
    assert rows == DecodedLines(yuv, w, h, line) + [DecodedRow(yuv, w, h, line, w)];
    FlattenSnoc(DecodedLines(yuv, w, h, line), DecodedRow(yuv, w, h, line, w));
  }

  // ------------------------------------------------------------- properties

  /** Byte c of pixel (col, line) sits at 3·(line·w + col) + c of the decoded image. */
  lemma DecodedAt(yuv: seq<u8>, w: nat, h: nat, n: nat, line: nat, col: nat, c: nat)
    requires DecodeReadsFit(|yuv|, w, h) && n <= h && line < n && col < w && c < 3
    ensures 3 * (Mul(line, w) + col) + c < 3 * Mul(n, w)
    ensures Decoded(yuv, w, h, n)[3 * (Mul(line, w) + col) + c] == DecodedPixel(yuv, w, h, line, col)[c]
  {
    var rows := DecodedLines(yuv, w, h, n);
    MulTriple(line, w);
    MulTriple(n, w);
    FlattenAt(rows, 3 * w, line, 3 * col + c, 3 * (Mul(line, w) + col) + c);
    RowAt(yuv, w, h, line, col, c);
  }

  lemma RowAt(yuv: seq<u8>, w: nat, h: nat, line: nat, col: nat, c: nat)
    requires DecodeReadsFit(|yuv|, w, h) && line < h && col < w && c < 3
    ensures DecodedRow(yuv, w, h, line, w)[3 * col + c] == DecodedPixel(yuv, w, h, line, col)[c]
  {
    assert (3 * col + c) / 3 == col && (3 * col + c) % 3 == c;
  }

  /** The decoder reads within what the encoder writes, when the sizes agree. */
  lemma EncodedFitsDecoder(rgb: seq<u8>, w: nat, h: nat)
    requires w % 2 == 0 && h % 2 == 0 && 3 * Mul(h, w) <= |rgb|
    ensures DecodeReadsFit(|Encoded(rgb, w, h)|, w, h)
  {
    SourcesInImage(rgb, w, h);
    forall line: nat, col: nat | line < h && col < w
      ensures Mul(h, w) + Mul(h, w) / 4 + ChromaIndex(w, line, col) < |Encoded(rgb, w, h)|
    {
      ChromaSourcesAt(w, h / 2, line / 2, col / 2);
    }
  }

  /** The luma the decoder reads from the planar image is the luma of the same pixel. */
  lemma LumaOfEncoded(rgb: seq<u8>, w: nat, h: nat, line: nat, col: nat)
    requires w % 2 == 0 && h % 2 == 0 && 3 * Mul(h, w) <= |rgb| && line < h && col < w
    ensures Mul(line, w) + col < Mul(h, w) <= |Encoded(rgb, w, h)|
    ensures YSample(Encoded(rgb, w, h), w, line, col) == LumaAt(rgb, Mul(line, w) + col)
  {
    LumaReadBound(w, h, line, col);
    EncodedIsPlanes(rgb, w, h);
  }

  /** The chroma the decoder reads from the planar image is that of the top-left pixel of the
      2×2 block holding the pixel. */
  lemma ChromaOfEncoded(rgb: seq<u8>, w: nat, h: nat, line: nat, col: nat)
    requires w % 2 == 0 && h % 2 == 0 && 3 * Mul(h, w) <= |rgb| && line < h && col < w
    ensures var wh, q := Mul(h, w), PairStart(w, line / 2, col / 2);
      && wh + wh / 4 + ChromaIndex(w, line, col) < |Encoded(rgb, w, h)| && 3 * q + 2 < |rgb|
      && USample(Encoded(rgb, w, h), w, h, line, col) == UAt(rgb, q)
      && VSample(Encoded(rgb, w, h), w, h, line, col) == VAt(rgb, q)
  {
    EncodedIsPlanes(rgb, w, h);
    SourcesInImage(rgb, w, h);
    ChromaSourcesAt(w, h / 2, line / 2, col / 2);
  }

  /** Decoding the planar image of an RGB888 buffer gives, for every pixel, the colour of its
      own luma with the chroma of the top-left pixel of its 2×2 block. */
  lemma DecodeOfEncoded(rgb: seq<u8>, w: nat, h: nat, line: nat, col: nat)
    requires w % 2 == 0 && h % 2 == 0 && 3 * Mul(h, w) <= |rgb| && line < h && col < w
    ensures DecodeReadsFit(|Encoded(rgb, w, h)|, w, h)
    ensures Mul(line, w) + col < Mul(h, w) && 3 * PairStart(w, line / 2, col / 2) + 2 < |rgb|
    ensures DecodedPixel(Encoded(rgb, w, h), w, h, line, col)
         == RgbOf(LumaAt(rgb, Mul(line, w) + col),
                  UAt(rgb, PairStart(w, line / 2, col / 2)),
                  VAt(rgb, PairStart(w, line / 2, col / 2)))
  {
    EncodedFitsDecoder(rgb, w, h);
    LumaOfEncoded(rgb, w, h, line, col);
    ChromaOfEncoded(rgb, w, h, line, col);
  }
}
