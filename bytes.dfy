/**
  Fixed-width integers and byte orders shared by the whole model.

  Rust's `u8`, `u16`, `u32` and `u64` are subset types of `int`. Wrap-around
  is written out with `Wrap16` where the source does arithmetic on `u16`
  (the model follows a release build, in which overflow wraps).
 */
module Bytes {

  type u8 = x: int | 0 <= x < 0x100
  type u16 = x: int | 0 <= x < 0x1_0000
  type u32 = x: int | 0 <= x < 0x1_0000_0000
  type u64 = x: int | 0 <= x < 0x1_0000_0000_0000_0000

  /** `u16` addition/subtraction as it behaves once the result is truncated to 16 bits. */
  function Wrap16(x: int): (r: u16)
    ensures 0 <= x < 0x1_0000 ==> r == x
    ensures 0x1_0000 <= x < 0x2_0000 ==> r == x - 0x1_0000
    ensures -0x1_0000 <= x < 0 ==> r == x + 0x1_0000
  {
    x % 0x1_0000
  }

  /** 256 to the power n. */
  function Pow256(n: nat): (r: nat)
    ensures r > 0
  {
    if n == 0 then 1 else 256 * Pow256(n - 1)
  }

  /** The value of a byte string read most significant byte first (`from_be_bytes`). */
  function BeValue(s: seq<u8>): nat
    decreases |s|
  {
    if s == [] then 0 else BeValue(s[..|s| - 1]) * 256 + s[|s| - 1]
  }

  /** The n low-order bytes of v, most significant first (`to_be_bytes`). */
  function BeBytes(v: nat, n: nat): (r: seq<u8>)
    ensures |r| == n
  {
    if n == 0 then [] else BeBytes(v / 256, n - 1) + [v % 256]
  }

  lemma {:induction false} BeValueBound(s: seq<u8>)
    ensures BeValue(s) < Pow256(|s|)
  {
    if s != [] {
      BeValueBound(s[..|s| - 1]);
    }
  }

  /** Reading back the bytes written by `BeBytes` yields the value again. */
  lemma {:induction false} BeValueOfBytes(v: nat, n: nat)
    requires v < Pow256(n)
    ensures BeValue(BeBytes(v, n)) == v
  {
    if n > 0 {
      BeValueOfBytes(v / 256, n - 1);
      var s := BeBytes(v, n);
      assert s[..|s| - 1] == BeBytes(v / 256, n - 1);
    }
  }

  /** Writing the value of a byte string gives back the same bytes. */
  lemma {:induction false} BeBytesOfValue(s: seq<u8>)
    ensures BeBytes(BeValue(s), |s|) == s
  {
    if s != [] {
      var init := s[..|s| - 1];
      BeBytesOfValue(init);
      assert (BeValue(init) * 256 + s[|s| - 1]) / 256 == BeValue(init);
      assert (BeValue(init) * 256 + s[|s| - 1]) % 256 == s[|s| - 1];
      assert s == init + [s[|s| - 1]];
    }
  }

  /** Two byte strings of the same length with the same big-endian value are equal. */
  lemma BeValueInjective(s: seq<u8>, t: seq<u8>)
    requires |s| == |t| && BeValue(s) == BeValue(t)
    ensures s == t
  {
    BeBytesOfValue(s);
    BeBytesOfValue(t);
  }

  /** `u16::from_be_bytes([hi, lo])`. */
  function U16FromBe(hi: u8, lo: u8): (r: u16)
    ensures r / 256 == hi && r % 256 == lo
  {
    hi * 256 + lo
  }

  /** `u16::from_le_bytes([lo, hi])`. */
  function U16FromLe(lo: u8, hi: u8): (r: u16)
    ensures r / 256 == hi && r % 256 == lo
  {
    hi * 256 + lo
  }

  /** `v.to_be_bytes()`. */
  function U16ToBe(v: u16): (r: seq<u8>)
    ensures |r| == 2
  {
    [v / 256, v % 256]
  }

  /** `v.to_le_bytes()`, which is also how a `u16` lies in memory on a little-endian target. */
  function U16ToLe(v: u16): (r: seq<u8>)
    ensures |r| == 2
  {
    [v % 256, v / 256]
  }

  /** Reading back the bytes of `to_be_bytes` / `to_le_bytes` gives the word again. */
  lemma U16BytesRoundTrip(v: u16)
    ensures U16FromBe(U16ToBe(v)[0], U16ToBe(v)[1]) == v
    ensures U16FromLe(U16ToLe(v)[0], U16ToLe(v)[1]) == v
  {
  }

  /** `v.to_be()` on a little-endian target: the two bytes exchanged. */
  function Swap16(v: u16): (r: u16)
    ensures U16ToLe(r) == U16ToBe(v)
  {
    (v % 256) * 256 + v / 256
  }

  /** Exchanging the bytes twice restores the word. */
  lemma Swap16Involution(v: u16)
    ensures Swap16(Swap16(v)) == v
  {
  }

  /** The big-endian bytes of a sequence of words, word after word. */
  function WordsBe(ws: seq<u16>): (r: seq<u8>)
    ensures |r| == 2 * |ws|
    decreases |ws|
  {
    if ws == [] then [] else WordsBe(ws[..|ws| - 1]) + U16ToBe(ws[|ws| - 1])
  }

  /** The little-endian bytes of a sequence of words (their in-memory image). */
  function WordsLe(ws: seq<u16>): (r: seq<u8>)
    ensures |r| == 2 * |ws|
    decreases |ws|
  {
    if ws == [] then [] else WordsLe(ws[..|ws| - 1]) + U16ToLe(ws[|ws| - 1])
  }

  lemma {:induction false} WordsBeAppend(a: seq<u16>, b: seq<u16>)
    ensures WordsBe(a + b) == WordsBe(a) + WordsBe(b)
    decreases |b|
  {
    if b == [] {
      assert a + b == a;
    } else {
      var b' := b[..|b| - 1];
      WordsBeAppend(a, b');
      assert (a + b)[..|a + b| - 1] == a + b';
    }
  }

  lemma {:induction false} WordsLeAppend(a: seq<u16>, b: seq<u16>)
    ensures WordsLe(a + b) == WordsLe(a) + WordsLe(b)
    decreases |b|
  {
    if b == [] {
      assert a + b == a;
    } else {
      var b' := b[..|b| - 1];
      WordsLeAppend(a, b');
      assert (a + b)[..|a + b| - 1] == a + b';
    }
  }

  /** Byte k of the big-endian image of `ws`. */
  lemma {:induction false} WordsBeAt(ws: seq<u16>, k: nat)
    requires k < 2 * |ws|
    ensures WordsBe(ws)[k] == U16ToBe(ws[k / 2])[k % 2]
    decreases |ws|
  {
    var init := ws[..|ws| - 1];
    if k < 2 * |init| {
      WordsBeAt(init, k);
    }
  }

  /** Byte k of the little-endian image of `ws`. */
  lemma {:induction false} WordsLeAt(ws: seq<u16>, k: nat)
    requires k < 2 * |ws|
    ensures WordsLe(ws)[k] == U16ToLe(ws[k / 2])[k % 2]
    decreases |ws|
  {
    var init := ws[..|ws| - 1];
    if k < 2 * |init| {
      WordsLeAt(init, k);
    }
  }

  /** `bytes.chunks(2).map(|p| u16::from_le_bytes([p[0], p[1]]))` over the complete pairs. */
  function LePairs(bytes: seq<u8>): (ws: seq<u16>)
    ensures |ws| == |bytes| / 2
  {
    seq(|bytes| / 2, k requires 0 <= k < |bytes| / 2 => U16FromLe(bytes[2 * k], bytes[2 * k + 1]))
  }

  /** `bytes.chunks(2).map(|p| u16::from_be_bytes([p[0], p[1]]))` over the complete pairs. */
  function BePairs(bytes: seq<u8>): (ws: seq<u16>)
    ensures |ws| == |bytes| / 2
  {
    seq(|bytes| / 2, k requires 0 <= k < |bytes| / 2 => U16FromBe(bytes[2 * k], bytes[2 * k + 1]))
  }

  /** Pair i is read from bytes 2i and 2i + 1. */
  lemma PairAt(bytes: seq<u8>, i: nat)
    requires 2 * i + 1 < |bytes|
    ensures i < |LePairs(bytes)| && LePairs(bytes)[i] == U16FromLe(bytes[2 * i], bytes[2 * i + 1])
    ensures i < |BePairs(bytes)| && BePairs(bytes)[i] == U16FromBe(bytes[2 * i], bytes[2 * i + 1])
  {
  }

  /** Decoding the little-endian image of words gives the words back, and re-encoding an
      even-length byte string read as little-endian pairs gives the bytes back. */
  lemma LePairsRoundTrip(ws: seq<u16>, bytes: seq<u8>)
    ensures LePairs(WordsLe(ws)) == ws
    ensures |bytes| % 2 == 0 ==> WordsLe(LePairs(bytes)) == bytes
  {
    forall k | 0 <= k < |ws|
      ensures LePairs(WordsLe(ws))[k] == ws[k]
    {
      WordsLeAt(ws, 2 * k);
      WordsLeAt(ws, 2 * k + 1);
    }
    if |bytes| % 2 == 0 {
      var ws' := LePairs(bytes);
      forall k | 0 <= k < |bytes|
        ensures WordsLe(ws')[k] == bytes[k]
      {
        WordsLeAt(ws', k);
      }
    }
  }

  /** The same for big-endian pairs. */
  lemma BePairsRoundTrip(ws: seq<u16>, bytes: seq<u8>)
    ensures BePairs(WordsBe(ws)) == ws
    ensures |bytes| % 2 == 0 ==> WordsBe(BePairs(bytes)) == bytes
  {
    forall k | 0 <= k < |ws|
      ensures BePairs(WordsBe(ws))[k] == ws[k]
    {
      WordsBeAt(ws, 2 * k);
      WordsBeAt(ws, 2 * k + 1);
    }
    if |bytes| % 2 == 0 {
      var ws' := BePairs(bytes);
      forall k | 0 <= k < |bytes|
        ensures WordsBe(ws')[k] == bytes[k]
      {
        WordsBeAt(ws', k);
      }
    }
  }

  /** n copies of v. */
  function Repeat<T>(v: T, n: nat): (r: seq<T>)
    ensures |r| == n && forall i :: 0 <= i < n ==> r[i] == v
  {
    seq(n, _ => v)
  }

  function Min(a: int, b: int): int { if a <= b then a else b }

  /** Dafny's sequence axioms do not regroup a concatenation by themselves. */
  lemma AppendAssoc<T>(a: seq<T>, b: seq<T>, c: seq<T>)
    ensures a + (b + c) == a + b + c
  {
  }
}
