/** Message signatures: CMAC over any block function, after sections 2.3 to 2.5 of RFC 4493. */
module Cmac {
  import opened Bytes
  import opened Ccm

  // ---------------------------------------------------- doubling in GF(2^128)

  /** A block read as a polynomial over GF(2): the coefficient of x^i, the last byte lowest. */
  predicate Coefficient(b: Block, i: nat)
    requires i < 128
  {
    Bit(b[15 - i / 8], i % 8)
  }

  /** The block shifted left by one bit. */
  function ShiftLeft(k: Block): Block {
    seq(16, i requires 0 <= i < 16 => 2 * (k[i] % 128) + (if i < 15 then k[i + 1] / 128 else 0))
  }

  /** The subkey step: shift, and fold the bit that fell out back into the last byte. */
  function Double(k: Block): Block {
    var s := ShiftLeft(k);
    if k[0] / 128 != 0 then s[15 := Xor(s[15], 0x87)] else s
  }

  lemma {:induction false} BitOfRemainder(a: nat, n: nat, j: nat)
    requires j < n
    ensures Bit(a % Pow2(n), j) == Bit(a, j)
  {
    HalfOfRemainder(a, n);
    if j > 0 { BitOfRemainder(a / 2, n - 1, j - 1); }
  }

  lemma HalfOfRemainder(a: nat, n: nat)
    requires n > 0
    ensures (a % Pow2(n)) % 2 == a % 2 && (a % Pow2(n)) / 2 == (a / 2) % Pow2(n - 1)
  {
    var p := Pow2(n - 1);
    var q, r := (a / 2) / p, (a / 2) % p;
    assert a == 2 * (p * q + r) + a % 2;
    assert 2 * (p * q) == (2 * p) * q;
    UniqueQuotient(a, 2 * p, q, 2 * r + a % 2);
  }

  lemma TopBit(a: byte)
    ensures Bit(a, 7) == (a / 128 == 1)
  {
    var b := a / 2;
    var c := b / 2;
    var d := c / 2;
    var e := d / 2;
    var f := e / 2;
    var g := f / 2;
    var h := g / 2;
    assert h == a / 128;
    assert Bit(a, 7) == Bit(b, 6) && Bit(b, 6) == Bit(c, 5) && Bit(c, 5) == Bit(d, 4) && Bit(d, 4) == Bit(e, 3);
    assert Bit(e, 3) == Bit(f, 2) && Bit(f, 2) == Bit(g, 1) && Bit(g, 1) == Bit(h, 0);
  }

  /** Bits of a byte that was shifted left and took a carry in. */
  lemma ShiftedBit(a: byte, carry: byte, r: nat)
    requires carry <= 1 && r < 8
    ensures Bit(2 * (a % 128) + carry, r) == if r == 0 then carry == 1 else Bit(a, r - 1)
  {
    if r > 0 {
      var v := 2 * (a % 128) + carry;
      assert v / 2 == a % 128;
      assert Pow2(7) == 128 by { Pow2At8(); }
      BitOfRemainder(a, 7, r - 1);
    }
  }

  lemma FeedbackBits(j: nat)
    requires j < 8
    ensures Bit(0x87, j) == (j in {0, 1, 2, 7})
  {
    assert Bit(0x87, 1) == Bit(0x43, 0) && Bit(0x87, 2) == Bit(0x43, 1) == Bit(0x21, 0);
    assert Bit(0x87, 3) == Bit(0x43, 2) == Bit(0x21, 1) == Bit(0x10, 0);
    assert Bit(0x87, 4) == Bit(0x10, 1) == Bit(8, 0) && Bit(0x87, 5) == Bit(8, 1) == Bit(4, 0);
    assert Bit(0x87, 6) == Bit(4, 1) == Bit(2, 0) && Bit(0x87, 7) == Bit(2, 1) == Bit(1, 0);
  }

  /** The subkey step multiplies by x modulo x^128 + x^7 + x^2 + x + 1. */
  lemma DoubleMultipliesByX(k: Block, i: nat)
    requires i < 128
    ensures Coefficient(Double(k), i)
         == ((i > 0 && Coefficient(k, i - 1)) != (Coefficient(k, 127) && i in {0, 1, 2, 7}))
  {
    TopBit(k[0]);
    ShiftMovesUp(k, i);
    if k[0] / 128 != 0 && i < 8 {
      Pow2At8();
      XorBit(ShiftLeft(k)[15], 0x87, 8, i);
      FeedbackBits(i);
    }
  }

  lemma ShiftMovesUp(k: Block, i: nat)
    requires i < 128
    ensures Coefficient(ShiftLeft(k), i) == (i > 0 && Coefficient(k, i - 1))
  {
    var p, r := 15 - i / 8, i % 8;
    var carry := if p < 15 then k[p + 1] / 128 else 0;
    ShiftedBit(k[p], carry, r);
    if r == 0 && i > 0 {
      assert p + 1 == 15 - (i - 1) / 8 && (i - 1) % 8 == 7;
      TopBit(k[p + 1]);
    } else if r > 0 {
      assert (i - 1) / 8 == i / 8 && (i - 1) % 8 == r - 1;
    }
  }

  /** The coefficients determine the block, so the law above determines the step. */
  lemma CoefficientsDetermine(a: Block, b: Block)
    requires forall i :: 0 <= i < 128 ==> Coefficient(a, i) == Coefficient(b, i)
    ensures a == b
  {
    forall p | 0 <= p < 16 ensures a[p] == b[p] {
      forall r | 0 <= r < 8 ensures Bit(a[p], r) == Bit(b[p], r) {
        var i := 8 * (15 - p) + r;
        assert i / 8 == 15 - p && i % 8 == r;
        assert Coefficient(a, i) == Coefficient(b, i);
      }
      Pow2At8();
      BitsDetermine(a[p], b[p], 8);
    }
  }

  lemma {:induction false} BitsDetermine(a: nat, b: nat, n: nat)
    requires a < Pow2(n) && b < Pow2(n)
    requires forall r :: 0 <= r < n ==> Bit(a, r) == Bit(b, r)
    ensures a == b
  {
    if n > 0 {
      assert Bit(a, 0) == Bit(b, 0);
      forall r | 0 <= r < n - 1 ensures Bit(a / 2, r) == Bit(b / 2, r) {
        assert Bit(a, r + 1) == Bit(b, r + 1);
      }
      BitsDetermine(a / 2, b / 2, n - 1);
    }
  }

  // ------------------------------------------------------------ the standard

  function K1(E: Cipher): Block { Double(E(Zeros(16))) }
  function K2(E: Cipher): Block { Double(K1(E)) }

  /** M_last of section 2.4: a full last block with K1, a shorter one padded, with K2. */
  function LastBlock(E: Cipher, m: seq<byte>): Block
    requires |m| <= 16
  {
    if |m| == 16 then XorSeq(m, K1(E)) else XorSeq(m + [0x80] + Zeros(15 - |m|), K2(E))
  }

  function ChainFrom(E: Cipher, x: Block, m: seq<byte>): Block
    decreases |m|
  {
    if |m| <= 16 then E(XorSeq(LastBlock(E, m), x))
    else ChainFrom(E, E(XorSeq(x, m[..16])), m[16..])
  }

  function CmacOf(E: Cipher, m: seq<byte>): Block { ChainFrom(E, Zeros(16), m) }

  // -------------------------------------------------------------- signatures

  /** The message with its signature field, bytes 48 to 64, replaced. */
  function WithSignature(m: seq<byte>, sig: seq<byte>): (r: seq<byte>)
    requires |m| >= 64 && |sig| == 16
    ensures |r| == |m|
  {
    m[..48] + sig + m[64..]
  }

  function Signature(E: Cipher, m: seq<byte>): Block
    requires |m| >= 64
  {
    CmacOf(E, WithSignature(m, Zeros(16)))
  }

  function Signed(E: Cipher, m: seq<byte>): seq<byte>
    requires |m| >= 64
  {
    WithSignature(m, Signature(E, m))
  }

  /** Signing looks past whatever the field held. */
  lemma SigningIgnoresOldSignature(E: Cipher, m: seq<byte>, sig: seq<byte>)
    requires |m| >= 64 && |sig| == 16
    ensures Signed(E, WithSignature(m, sig)) == Signed(E, m)
  {
    var n := WithSignature(m, sig);
    assert n[..48] == m[..48] && n[64..] == m[64..];
  }

  lemma SignedCarriesSignature(E: Cipher, m: seq<byte>)
    requires |m| >= 64
    ensures Signed(E, m) == m <==> m[48..64] == Signature(E, m)
  {
    assert m == m[..48] + m[48..64] + m[64..];
    assert Signed(E, m)[48..64] == Signature(E, m);
  }

  /** A signed message passes verification and is left as it is. */
  lemma SignedVerifies(E: Cipher, m: seq<byte>)
    requires |m| >= 64
    ensures Signed(E, Signed(E, m)) == Signed(E, m)
    ensures Signed(E, m)[48..64] == Signature(E, Signed(E, m))
  {
    SigningIgnoresOldSignature(E, m, Signature(E, m));
    SignedCarriesSignature(E, Signed(E, m));
  }

  // ------------------------------------------------------------------ methods

  method CmacShift(k: Block) returns (out: Block)
    ensures out == Double(k)
  {
    var o := new byte[16](_ => 0);
    var carry: byte := 0;
    var i := 15;
    while i >= 0
      invariant -1 <= i <= 15
      invariant carry == if i < 15 then k[i + 1] / 128 else 0
      invariant forall j :: i < j < 16 ==> o[j] == ShiftLeft(k)[j]
    {
      o[i] := 2 * (k[i] % 128) + carry;
      carry := k[i] / 128;
      i := i - 1;
    }
    assert o[..] == ShiftLeft(k);
    if k[0] / 128 != 0 {
      o[15] := Xor(o[15], 0x87);
    }
    out := o[..];
  }

  lemma ChainFromLong(E: Cipher, x: Block, m: seq<byte>)
    requires |m| > 16
    ensures ChainFrom(E, x, m) == ChainFrom(E, E(XorSeq(x, m[..16])), m[16..])
  {
  }

  lemma ChainFromShort(E: Cipher, x: Block, m: seq<byte>)
    requires |m| <= 16
    ensures ChainFrom(E, x, m) == E(XorSeq(LastBlock(E, m), x))
  {
  }

  class Signer {
    const E: Cipher
    const k1: Block
    const k2: Block

    ghost predicate Valid() { k1 == K1(E) && k2 == K2(E) }

    constructor (E: Cipher)
      ensures Valid() && this.E == E
    {
      var l := E(Zeros(16));
      var a := CmacShift(l);
      var b := CmacShift(a);
      this.E := E;
      k1 := a;
      k2 := b;
    }

    method ComputeMac(msg: seq<byte>) returns (out: Block)
      requires Valid()
      ensures out == CmacOf(E, msg)
    {
      hide Double, Xor, K1, K2, ChainFrom;
      var n := (|msg| + 15) / 16;
      if n == 0 { n := 1; }
      var x: Block := Zeros(16);
      var i := 0;
      while i < n - 1
        invariant 0 <= i <= n - 1
        invariant 16 * i <= |msg|
        invariant ChainFrom(E, x, msg[16 * i..]) == CmacOf(E, msg)
      {
        var blk := msg[16 * i..16 * (i + 1)];
        assert msg[16 * i..][..16] == blk && msg[16 * i..][16..] == msg[16 * (i + 1)..];
        ChainFromLong(E, x, msg[16 * i..]);
        x := E(XorSeq(x, blk));
        i := i + 1;
      }
      var remaining := msg[16 * (n - 1)..];
      ChainFromShort(E, x, remaining);
      var last: Block;
      if |remaining| == 16 {
        last := XorSeq(XorSeq(remaining, k1), x);
      } else {
        var padded := remaining + [0x80] + Zeros(15 - |remaining|);
        last := XorSeq(XorSeq(padded, k2), x);
      }
      out := E(last);
    }

    /** Overwrites the signature field, unless the message is shorter than a header. */
    method Sign(msg: array<byte>) returns (ok: bool)
      requires Valid()
      modifies msg
      ensures ok <==> msg.Length >= 64
      ensures ok ==> msg[..] == Signed(E, old(msg[..]))
      ensures !ok ==> msg[..] == old(msg[..])
    {
      if msg.Length < 64 { return false; }
      CopyInto(msg, 48, Zeros(16));
      assert msg[..] == WithSignature(old(msg[..]), Zeros(16)) by {
        assert old(msg[..])[..48] == old(msg[..48]) && old(msg[..])[64..] == old(msg[64..]);
      }
      var sig := ComputeMac(msg[..]);
      ghost var m := old(msg[..]);
      assert msg[..48] == m[..48] && msg[64..] == m[64..];
      CopyInto(msg, 48, sig);
      return true;
    }

    /** True exactly when the field holds the message's signature; then nothing changed. A message
        that fails is left carrying the signature it should have had. */
    method Verify(msg: array<byte>) returns (ok: bool, error: bool)
      requires Valid()
      modifies msg
      ensures error <==> msg.Length < 64
      ensures error ==> !ok && msg[..] == old(msg[..])
      ensures !error ==> (ok <==> old(msg[48..64]) == Signature(E, old(msg[..])))
      ensures !error ==> msg[..] == Signed(E, old(msg[..]))
      ensures !error ==> (ok <==> msg[..] == old(msg[..]))
    {
      if msg.Length < 64 { return false, true; }
      ghost var m := msg[..];
      var want := msg[48..64];
      var done := Sign(msg);
      SignedCarriesSignature(E, m);
      assert want == m[48..64];
      assert msg[48..64] == Signed(E, m)[48..64] == Signature(E, m);
      ok := ConstantTimeEqual(want, msg[48..64]);
      error := false;
    }
  }
}
