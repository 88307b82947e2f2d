/** Bytes, bitwise exclusive-or, and the little-endian fields of the wire format. */
module Bytes {

  datatype Option<+T> = None | Some(value: T)

  type byte = x: int | 0 <= x < 256
  type uint16 = x: int | 0 <= x < 0x1_0000
  type uint32 = x: int | 0 <= x < 0x1_0000_0000
  type uint64 = x: int | 0 <= x < 0x1_0000_0000_0000_0000

  function Zeros(n: nat): (s: seq<byte>)
    ensures |s| == n
    ensures forall i :: 0 <= i < n ==> s[i] == 0
  {
    seq(n, i => 0)
  }

  /** How many bytes take `n` to a multiple of eight. */
  function Padding(n: nat): (p: nat)
    ensures p < 8 && (n + p) % 8 == 0
  {
    (8 - n % 8) % 8
  }

  lemma Associate(a: seq<byte>, b: seq<byte>, c: seq<byte>)
    ensures a + b + c == a + (b + c)
  {
  }

  lemma AlignedSum(a: nat, b: nat)
    requires a % 8 == 0 && b % 8 == 0
    ensures (a + b) % 8 == 0
  {
  }

  lemma Remainder(q: nat, n: nat)
    ensures (8 * q + n) % 8 == n % 8
  {
  }

  /** Padding looks only at the remainder. */
  lemma PaddingBehind(a: nat, n: nat)
    requires a % 8 == 0
    ensures Padding(a + n) == Padding(n)
  {
    assert a == 8 * (a / 8);
    Remainder(a / 8, n);
  }

  // ---------------------------------------------------------------- powers

  function Pow256(n: nat): (p: nat)
    ensures p > 0
  {
    if n == 0 then 1 else 256 * Pow256(n - 1)
  }

  lemma PowFacts()
    ensures Pow256(1) == 0x100
    ensures Pow256(2) == 0x1_0000
    ensures Pow256(4) == 0x1_0000_0000
    ensures Pow256(8) == 0x1_0000_0000_0000_0000
  {
    assert Pow256(3) == 256 * Pow256(2);
    assert Pow256(4) == 256 * Pow256(3);
    assert Pow256(5) == 256 * Pow256(4);
    assert Pow256(6) == 256 * Pow256(5);
    assert Pow256(7) == 256 * Pow256(6);
  }

  // ------------------------------------------------------ integers as bytes

  /** `v` in `n` little-endian bytes; higher bytes are dropped. */
  function LE(v: nat, n: nat): (s: seq<byte>)
    ensures |s| == n
  {
    if n == 0 then [] else [v % 256] + LE(v / 256, n - 1)
  }

  function UnLE(s: seq<byte>): (v: nat)
    ensures v < Pow256(|s|)
  {
    if s == [] then 0 else s[0] + 256 * UnLE(s[1..])
  }

  lemma {:induction false} LERoundTrip(v: nat, n: nat)
    requires v < Pow256(n)
    ensures UnLE(LE(v, n)) == v
  {
    if n > 0 {
      LERoundTrip(v / 256, n - 1);
      assert LE(v, n)[1..] == LE(v / 256, n - 1);
    }
  }

  lemma {:induction false} UnLERoundTrip(s: seq<byte>)
    ensures LE(UnLE(s), |s|) == s
  {
    if s != [] {
      UnLERoundTrip(s[1..]);
      assert UnLE(s) / 256 == UnLE(s[1..]);
      assert s == [s[0]] + s[1..];
    }
  }

  /** The field of `n` bytes at `off`. */
  function Field(b: seq<byte>, off: nat, n: nat): (v: nat)
    requires off + n <= |b|
    ensures v < Pow256(n)
  {
    UnLE(b[off..off + n])
  }

  /** `b` with the field of `n` bytes at `off` overwritten. */
  function PutField(b: seq<byte>, off: nat, n: nat, v: nat): (r: seq<byte>)
    requires off + n <= |b|
    ensures |r| == |b|
  {
    b[..off] + LE(v, n) + b[off + n..]
  }

  /** Least significant byte first. */
  lemma {:induction false} LEAt(v: nat, n: nat, i: nat)
    requires i < n
    ensures LE(v, n)[i] == v / Pow256(i) % 256
    decreases n
  {
    if i > 0 {
      LEAt(v / 256, n - 1, i - 1);
      DividesTwice(v, Pow256(i - 1));
    }
  }

  lemma DividesTwice(v: nat, p: nat)
    requires p > 0
    ensures v / 256 / p == v / (256 * p)
  {
    var q, r := v / 256 / p, v / 256 % p;
    assert v / 256 == p * q + r;
    var s := 256 * r + v % 256;
    assert v == 256 * (p * q) + s;
    assert 256 * (p * q) == (256 * p) * q;
    assert 0 <= s < 256 * p;
    UniqueQuotient(v, 256 * p, q, s);
  }

  lemma UniqueQuotient(a: int, m: int, q: int, r: int)
    requires m > 0 && 0 <= r < m && a == m * q + r
    ensures a / m == q && a % m == r
  {
    var d := a / m - q;
    assert a == m * (a / m) + a % m;
    assert m * d == r - a % m;
    assert d >= 1 ==> m * d >= m;
    assert d <= -1 ==> m * d <= -m;
  }

  lemma PutFieldReads(b: seq<byte>, off: nat, n: nat, v: nat)
    requires off + n <= |b| && v < Pow256(n)
    ensures Field(PutField(b, off, n, v), off, n) == v
  {
    assert PutField(b, off, n, v)[off..off + n] == LE(v, n);
    LERoundTrip(v, n);
  }

  /** A write leaves every byte outside its field alone. */
  lemma PutFieldFrame(b: seq<byte>, off: nat, n: nat, v: nat, lo: nat, hi: nat)
    requires off + n <= |b| && lo <= hi <= |b|
    requires hi <= off || off + n <= lo
    ensures PutField(b, off, n, v)[lo..hi] == b[lo..hi]
  {
  }

  // ----------------------------------------------------------- exclusive or

  function Bit(a: nat, i: nat): bool
  {
    if i == 0 then a % 2 == 1 else Bit(a / 2, i - 1)
  }

  function Pow2(n: nat): (p: nat)
    ensures p > 0
  {
    if n == 0 then 1 else 2 * Pow2(n - 1)
  }

  function XorBits(a: nat, b: nat, n: nat): (r: nat)
    ensures r < Pow2(n)
  {
    if n == 0 then 0
    else (if a % 2 != b % 2 then 1 else 0) + 2 * XorBits(a / 2, b / 2, n - 1)
  }

  lemma {:induction false} XorBit(a: nat, b: nat, n: nat, i: nat)
    ensures Bit(XorBits(a, b, n), i) == (i < n && Bit(a, i) != Bit(b, i))
    decreases n
  {
    if n == 0 {
      NoBits(i);
    } else if i > 0 {
      XorBit(a / 2, b / 2, n - 1, i - 1);
      assert XorBits(a, b, n) / 2 == XorBits(a / 2, b / 2, n - 1);
    }
  }

  lemma {:induction false} NoBits(i: nat)
    ensures !Bit(0, i)
  {
    if i > 0 { NoBits(i - 1); }
  }

  lemma {:induction false} XorCancels(a: nat, b: nat, n: nat)
    requires a < Pow2(n)
    ensures XorBits(XorBits(a, b, n), b, n) == a
  {
    if n > 0 {
      XorCancels(a / 2, b / 2, n - 1);
      assert XorBits(a, b, n) / 2 == XorBits(a / 2, b / 2, n - 1);
    }
  }

  lemma Pow2At8()
    ensures Pow2(8) == 256
  {
    assert Pow2(3) == 8;
    assert Pow2(4) == 16;
    assert Pow2(6) == 64;
  }

  /** The `^` of two bytes. */
  function Xor(a: byte, b: byte): byte
  {
    Pow2At8();
    XorBits(a, b, 8)
  }

  lemma XorTwice(a: byte, b: byte)
    ensures Xor(Xor(a, b), b) == a
  {
    Pow2At8();
    XorCancels(a, b, 8);
  }

  function XorSeq(a: seq<byte>, b: seq<byte>): (r: seq<byte>)
    requires |a| <= |b|
    ensures |r| == |a|
    ensures forall i :: 0 <= i < |a| ==> r[i] == Xor(a[i], b[i])
  {
    seq(|a|, i requires 0 <= i < |a| => Xor(a[i], b[i]))
  }

  lemma XorSeqTwice(a: seq<byte>, b: seq<byte>)
    requires |a| <= |b|
    ensures XorSeq(XorSeq(a, b), b) == a
  {
    forall i | 0 <= i < |a| ensures XorSeq(XorSeq(a, b), b)[i] == a[i] {
      XorTwice(a[i], b[i]);
    }
  }

  lemma {:induction false} XorBitsCommute(a: nat, b: nat, n: nat)
    ensures XorBits(a, b, n) == XorBits(b, a, n)
  {
    if n > 0 { XorBitsCommute(a / 2, b / 2, n - 1); }
  }

  lemma XorSeqCommutes(a: seq<byte>, b: seq<byte>)
    requires |a| == |b|
    ensures XorSeq(a, b) == XorSeq(b, a)
  {
    forall i | 0 <= i < |a| ensures Xor(a[i], b[i]) == Xor(b[i], a[i]) { XorBitsCommute(a[i], b[i], 8); }
  }

  /** Adding the same to two strings keeps them apart. */
  lemma XorSeqApart(z: seq<byte>, a: seq<byte>, b: seq<byte>)
    requires |z| == |a| == |b| && a != b
    ensures XorSeq(a, z) != XorSeq(b, z) && XorSeq(z, a) != XorSeq(z, b)
  {
    XorSeqTwice(a, z);
    XorSeqTwice(b, z);
    XorSeqCommutes(a, z);
    XorSeqCommutes(b, z);
  }

  lemma {:induction false} XorBitsZeroIff(a: nat, b: nat, n: nat)
    requires a < Pow2(n) && b < Pow2(n)
    ensures XorBits(a, b, n) == 0 <==> a == b
  {
    if n > 0 { XorBitsZeroIff(a / 2, b / 2, n - 1); }
  }

  function OrBits(a: nat, b: nat, n: nat): (r: nat)
    ensures r < Pow2(n)
  {
    if n == 0 then 0
    else (if a % 2 == 1 || b % 2 == 1 then 1 else 0) + 2 * OrBits(a / 2, b / 2, n - 1)
  }

  lemma {:induction false} OrBitsZeroIff(a: nat, b: nat, n: nat)
    requires a < Pow2(n) && b < Pow2(n)
    ensures OrBits(a, b, n) == 0 <==> a == 0 && b == 0
  {
    if n > 0 { OrBitsZeroIff(a / 2, b / 2, n - 1); }
  }

  /** The `|` of two bytes. */
  function Or(a: byte, b: byte): byte
  {
    Pow2At8();
    OrBits(a, b, 8)
  }

  lemma DiffZeroIff(diff: byte, a: byte, b: byte)
    ensures Or(diff, Xor(a, b)) == 0 <==> diff == 0 && a == b
  {
    Pow2At8();
    XorBitsZeroIff(a, b, 8);
    OrBitsZeroIff(diff, Xor(a, b), 8);
  }

  /** The comparison that looks at every byte: it answers equality. */
  method ConstantTimeEqual(a: seq<byte>, b: seq<byte>) returns (equal: bool)
    ensures equal <==> a == b
  {
    hide Or, Xor;
    if |a| != |b| { return false; }
    var diff: byte := 0;
    var i := 0;
    while i < |a|
      invariant 0 <= i <= |a|
      invariant diff == 0 <==> a[..i] == b[..i]
    {
      DiffZeroIff(diff, a[i], b[i]);
      assert a[..i + 1] == a[..i] + [a[i]] && b[..i + 1] == b[..i] + [b[i]];
      diff := Or(diff, Xor(a[i], b[i]));
      i := i + 1;
    }
    assert a[..|a|] == a && b[..|a|] == b;
    return diff == 0;
  }

  /** The built-in copy into a buffer at an offset. */
  method CopyInto(dst: array<byte>, off: nat, src: seq<byte>)
    requires off + |src| <= dst.Length
    modifies dst
    ensures dst[..] == old(dst[..off]) + src + old(dst[off + |src|..])
    ensures forall k :: 0 <= k < dst.Length ==> dst[k] == if off <= k < off + |src| then src[k - off] else old(dst[k])
  {
    var i := 0;
    while i < |src|
      invariant 0 <= i <= |src|
      invariant forall k :: 0 <= k < dst.Length ==> dst[k] == if off <= k < off + i then src[k - off] else old(dst[k])
    {
      dst[off + i] := src[i];
      i := i + 1;
    }
  }
}
