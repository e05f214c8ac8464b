/**
 * Byte strings as the engine reads and writes them through `DataView` and
 * typed arrays: little- and big-endian integers of a fixed width, the
 * zero-filled contents of a fresh `ArrayBuffer`, and the clamping
 * `slice(begin, end)` of buffers and typed arrays.
 */
module Bytes {
  import opened JsNumbers

  /** The contents of `new ArrayBuffer(n)`: `n` zero bytes. */
  function Zeros(n: nat): (z: seq<byte>)
    ensures |z| == n
    ensures forall i :: 0 <= i < n ==> z[i] == 0
  {
    seq(n, _ => 0)
  }

  /** `256^n`, the number of values an `n`-byte field holds. */
  function Pow256(n: nat): (p: nat)
    ensures p >= 1
  {
    if n == 0 then 1 else 256 * Pow256(n - 1)
  }

  /** The `n` bytes a little-endian setter writes for `v`: its value modulo `256^n`, low byte first. */
  function LE(v: int, n: nat): (b: seq<byte>)
    ensures |b| == n
    decreases n
  {
    if n == 0 then [] else [ToUint8(v)] + LE(v / 256, n - 1)
  }

  /** The unsigned value a little-endian getter reads from the bytes. */
  function FromLE(b: seq<byte>): (v: nat)
    ensures v < Pow256(|b|)
  {
    if b == [] then 0 else b[0] + 256 * FromLE(b[1..])
  }

  /** The `n` bytes a big-endian setter writes for `v`: its value modulo `256^n`, high byte first. */
  function BE(v: int, n: nat): (b: seq<byte>)
    ensures |b| == n
    decreases n
  {
    if n == 0 then [] else BE(v / 256, n - 1) + [ToUint8(v)]
  }

  /** The unsigned value a big-endian read assembles from the bytes. */
  function FromBE(b: seq<byte>): (v: nat)
    ensures v < Pow256(|b|)
  {
    if b == [] then 0 else 256 * FromBE(b[..|b| - 1]) + b[|b| - 1]
  }

  /** `v % (256 * p)` splits into the low byte and the remainder of the quotient. */
  lemma SplitLowByte(v: int, p: nat)
    requires p >= 1
    ensures v % (256 * p) == v % 256 + 256 * ((v / 256) % p)
  {
    var q1, r1 := v / 256, v % 256;
    var q2, r2 := q1 / p, q1 % p;
    assert v == 256 * q1 + r1;
    assert q1 == p * q2 + r2;
    assert v == (256 * p) * q2 + (256 * r2 + r1);
    assert 256 * r2 + r1 < 256 * p by {
      assert r2 <= p - 1;
      assert 256 * r2 <= 256 * (p - 1);
    }
    ModUnique(v, 256 * p, q2, 256 * r2 + r1);
  }

  /** Reading back a little-endian field gives the written value modulo `256^n`. */
  lemma {:induction false} FromLEOfLE(v: int, n: nat)
    ensures FromLE(LE(v, n)) == v % Pow256(n)
    decreases n
  {
    if n > 0 {
      var b := LE(v, n);
      assert b[1..] == LE(v / 256, n - 1);
      FromLEOfLE(v / 256, n - 1);
      SplitLowByte(v, Pow256(n - 1));
    }
  }

  /** Reading back a big-endian field gives the written value modulo `256^n`. */
  lemma {:induction false} FromBEOfBE(v: int, n: nat)
    ensures FromBE(BE(v, n)) == v % Pow256(n)
    decreases n
  {
    if n > 0 {
      var b := BE(v, n);
      assert b[..n - 1] == BE(v / 256, n - 1);
      FromBEOfBE(v / 256, n - 1);
      SplitLowByte(v, Pow256(n - 1));
    }
  }

  /** A value that fits the field is read back exactly. */
  lemma FieldRoundTrip(v: int, n: nat)
    requires 0 <= v < Pow256(n)
    ensures FromLE(LE(v, n)) == v && FromBE(BE(v, n)) == v
  {
    FromLEOfLE(v, n);
    FromBEOfBE(v, n);
  }

  /** The widths used by the file formats. */
  lemma Pow256Values()
    ensures Pow256(2) == 0x1_0000 && Pow256(3) == 0x100_0000
    ensures Pow256(4) == TWO_POW_32 && Pow256(8) == TWO_POW_64
  {
  }

  /** `getBigInt64(pos, true)`: the 8 bytes read as a two's-complement signed value. */
  function FromLESigned64(b: seq<byte>): (v: int)
    requires |b| == 8
    ensures -TWO_POW_64 / 2 <= v < TWO_POW_64 / 2
  {
    Pow256Values();
    var u := FromLE(b);
    if u >= TWO_POW_64 / 2 then u - TWO_POW_64 else u
  }

  /** A signed 64-bit value written with `setBigInt64` is read back by `getBigInt64`. */
  lemma Signed64RoundTrip(v: int)
    requires -TWO_POW_64 / 2 <= v < TWO_POW_64 / 2
    ensures FromLESigned64(LE(v, 8)) == v
  {
    FromLEOfLE(v, 8);
    Pow256Values();
    var u := FromLE(LE(v, 8));
    assert u == v % TWO_POW_64;
    if v < 0 {
      ModUnique(v, TWO_POW_64, -1, v + TWO_POW_64);
      assert u == v + TWO_POW_64;
    } else {
      ModUnique(v, TWO_POW_64, 0, v);
      assert u == v;
    }
  }

  /** A zero field reads as zero. */
  lemma ZeroField(n: nat)
    ensures LE(0, n) == Zeros(n)
    ensures FromLE(Zeros(n)) == 0
  {
    FromLEOfLE(0, n);
    ZerosLE(n);
  }

  /** The little-endian encoding of zero is all zero bytes. */
  lemma {:induction false} ZerosLE(n: nat)
    ensures LE(0, n) == Zeros(n)
  {
    if n > 0 {
      ZerosLE(n - 1);
      assert [0 as byte] + Zeros(n - 1) == Zeros(n);
    }
  }

  /** The relative index of `slice`: a negative index counts from the end; both are clamped to `[0, len]`. */
  function RelativeIndex(k: int, len: nat): (r: nat)
    ensures r <= len
    ensures 0 <= k <= len ==> r == k
  {
    if k < 0 then (if len + k < 0 then 0 else len + k) else if k > len then len else k
  }

  /** `buffer.slice(begin, end)`: a copy of the clamped range, empty when it is reversed. */
  function Slice(s: seq<byte>, begin: int, end: int): (r: seq<byte>)
    ensures 0 <= begin <= end <= |s| ==> r == s[begin..end]
    ensures |r| <= |s|
  {
    var first := RelativeIndex(begin, |s|);
    var final := RelativeIndex(end, |s|);
    if final > first then s[first..final] else []
  }

  /** A slice holding `head + tail` splits into a slice holding `head` and one right after it holding `tail`. */
  lemma SplitSlice(data: seq<byte>, pos: nat, head: seq<byte>, tail: seq<byte>)
    requires pos + |head| + |tail| <= |data| && data[pos..pos + |head| + |tail|] == head + tail
    ensures data[pos..pos + |head|] == head
    ensures data[pos + |head|..pos + |head| + |tail|] == tail
  {
    assert data[pos..pos + |head|] == data[pos..pos + |head| + |tail|][..|head|];
    assert data[pos + |head|..pos + |head| + |tail|] == data[pos..pos + |head| + |tail|][|head|..];
  }

  /** The tail of a buffer cut short inside `head + tail`: a cut prefix of `head`, or all of `head` and a cut prefix of `tail`. */
  lemma SplitCut(data: seq<byte>, pos: nat, head: seq<byte>, tail: seq<byte>)
    requires pos <= |data| < pos + |head| + |tail| && data[pos..] == (head + tail)[..|data| - pos]
    ensures |data| < pos + |head| ==> data[pos..] == head[..|data| - pos]
    ensures |data| >= pos + |head| ==>
      data[pos..pos + |head|] == head && data[pos + |head|..] == tail[..|data| - pos - |head|]
  {
    if |data| >= pos + |head| {
      assert data[pos..pos + |head|] == data[pos..][..|head|];
      assert data[pos + |head|..] == data[pos..][|head|..];
    }
  }

  /** Two floor divisions by 256 are one by 65536, as two right shifts by 8 are one by 16. */
  lemma DivDiv(v: int)
    ensures v / 256 / 256 == v / 0x1_0000
  {
    var q1, r1 := v / 256, v % 256;
    var q2, r2 := q1 / 256, q1 % 256;
    assert v == 0x1_0000 * q2 + (256 * r2 + r1);
    ModUnique(v, 0x1_0000, q2, 256 * r2 + r1);
  }

  /** `(b0 << 16) | (b1 << 8) | b2` on three bytes: the bit ranges do not overlap, so the ors are sums. */
  function Be24(b0: byte, b1: byte, b2: byte): nat
  {
    b0 as int * 0x1_0000 + b1 as int * 0x100 + b2 as int
  }

  /** `getUint32(pos, false)`: four bytes read high byte first. */
  function Be32(b0: byte, b1: byte, b2: byte, b3: byte): nat
  {
    b0 as int * 0x100_0000 + b1 as int * 0x1_0000 + b2 as int * 0x100 + b3 as int
  }

  /** A 24-bit value cut into bytes with `(v >> 16) & 0xFF`, `(v >> 8) & 0xFF`, `v & 0xFF` is read back whole. */
  lemma Be24Shifts(v: int)
    requires 0 <= v < 0x100_0000
    ensures Be24(ToUint8(v / 0x1_0000), ToUint8(v / 0x100), ToUint8(v)) == v
  {
    DivDiv(v);
    var hi, mid := v / 0x1_0000, v / 0x100;
    assert mid == 256 * hi + mid % 256;
    assert v == 256 * mid + v % 256;
  }

  /** A 16-bit value cut into bytes with `(v >> 8) & 0xFF`, `v & 0xFF` is read back whole. */
  lemma Be16Shifts(v: int)
    requires 0 <= v < 0x1_0000
    ensures ToUint8(v / 0x100) as int * 0x100 + ToUint8(v) as int == v
  {
  }
}
