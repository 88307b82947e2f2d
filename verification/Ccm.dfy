/** Counter with CBC-MAC as RFC 3610 defines it, over any block function, and what holds of it. */
module Ccm {
  import opened Bytes

  type Block = s: seq<byte> | |s| == 16 witness Zeros(16)

  /** A block cipher under a fixed key; nothing is assumed of it. */
  type Cipher = Block -> Block

  /** RFC 3610 allows L, the width of the length field, from 2 to 8. */
  predicate NonceOk(nonce: seq<byte>) { 7 <= |nonce| <= 13 }

  function Width(nonce: seq<byte>): nat
    requires NonceOk(nonce)
  {
    15 - |nonce|
  }

  // ------------------------------------------------------------- big-endian

  /** The low `n` bytes of `v`, most significant first. */
  function BE(v: nat, n: nat): (s: seq<byte>)
    ensures |s| == n
  {
    if n == 0 then [] else BE(v / 256, n - 1) + [v % 256]
  }

  lemma {:induction false} BEInjective(v: nat, w: nat, n: nat)
    requires v < Pow256(n) && w < Pow256(n)
    requires BE(v, n) == BE(w, n)
    ensures v == w
  {
    if n > 0 {
      var a, b := BE(v, n), BE(w, n);
      assert a[..n - 1] == BE(v / 256, n - 1) && b[..n - 1] == BE(w / 256, n - 1);
      assert a[n - 1] == v % 256 && b[n - 1] == w % 256;
      BEInjective(v / 256, w / 256, n - 1);
    }
  }

  // ------------------------------------------------------------ the standard

  /** A_i of section 2.3. */
  function CounterBlock(nonce: seq<byte>, i: nat): Block
    requires NonceOk(nonce)
  {
    [Width(nonce) - 1] + nonce + BE(i, Width(nonce))
  }

  /** B_0 of section 2.2. */
  function FirstBlock(nonce: seq<byte>, hasAad: bool, length: nat): Block
    requires NonceOk(nonce)
  {
    [(if hasAad then 64 else 0) + 8 * 7 + (Width(nonce) - 1)] + nonce + BE(length, Width(nonce))
  }

  /** l(a) || a for additional data shorter than 2^32 bytes. */
  function EncodeAad(aad: seq<byte>): seq<byte>
    requires |aad| < 0x1_0000_0000
  {
    if |aad| < 0xFF00 then BE(|aad|, 2) + aad else [0xFF, 0xFE] + BE(|aad|, 4) + aad
  }

  /** Cut into blocks, the last one filled up with zeros. */
  function Blocks(s: seq<byte>): (b: seq<Block>)
    ensures |b| == (|s| + 15) / 16
  {
    if s == [] then []
    else if |s| < 16 then [s + Zeros(16 - |s|)]
    else [s[..16]] + Blocks(s[16..])
  }

  /** B_0, the blocks of the additional data, the blocks of the message. */
  function MacInput(nonce: seq<byte>, aad: seq<byte>, data: seq<byte>): seq<Block>
    requires NonceOk(nonce) && |aad| < 0x1_0000_0000
  {
    [FirstBlock(nonce, aad != [], |data|)] + (if aad == [] then [] else Blocks(EncodeAad(aad))) + Blocks(data)
  }

  function Chain(E: Cipher, x: Block, blocks: seq<Block>): Block
    decreases |blocks|
  {
    if blocks == [] then x else Chain(E, E(XorSeq(x, blocks[0])), blocks[1..])
  }

  /** T of section 2.2. */
  function Mac(E: Cipher, nonce: seq<byte>, aad: seq<byte>, data: seq<byte>): Block
    requires NonceOk(nonce) && |aad| < 0x1_0000_0000
  {
    Chain(E, Zeros(16), MacInput(nonce, aad, data))
  }

  /** The message with the keystream S_i, S_{i+1}, ... added. */
  function Ctr(E: Cipher, nonce: seq<byte>, i: nat, data: seq<byte>): (r: seq<byte>)
    requires NonceOk(nonce)
    ensures |r| == |data|
    decreases |data|
  {
    if |data| <= 16 then XorSeq(data, E(CounterBlock(nonce, i)))
    else XorSeq(data[..16], E(CounterBlock(nonce, i))) + Ctr(E, nonce, i + 1, data[16..])
  }

  datatype Sealed = Sealed(text: seq<byte>, tag: Block)

  function Encrypt(E: Cipher, nonce: seq<byte>, aad: seq<byte>, data: seq<byte>): Sealed
    requires NonceOk(nonce) && |aad| < 0x1_0000_0000
  {
    Sealed(Ctr(E, nonce, 1, data), XorSeq(Mac(E, nonce, aad, data), E(CounterBlock(nonce, 0))))
  }

  /** Section 2.5: recover, recompute the tag, compare. */
  predicate Accepts(E: Cipher, nonce: seq<byte>, aad: seq<byte>, c: Sealed)
    requires NonceOk(nonce) && |aad| < 0x1_0000_0000
  {
    XorSeq(c.tag, E(CounterBlock(nonce, 0))) == Mac(E, nonce, aad, Ctr(E, nonce, 1, c.text))
  }

  lemma {:induction false} ChainSplits(E: Cipher, x: Block, a: seq<Block>, b: seq<Block>)
    ensures Chain(E, x, a + b) == Chain(E, Chain(E, x, a), b)
    decreases |a|
  {
    if a == [] {
      assert a + b == b;
    } else {
      assert (a + b)[1..] == a[1..] + b;
      ChainSplits(E, E(XorSeq(x, a[0])), a[1..], b);
    }
  }

  // ---------------------------------------------------------- byte by byte

  function FourBytes(v: nat): (b: seq<byte>)
    ensures |b| == 4
  {
    [v / 0x100_0000 % 256, v / 0x1_0000 % 256, v / 0x100 % 256, v % 256]
  }

  lemma BEFour(v: nat)
    ensures BE(v, 4) == FourBytes(v)
  {
    var a := v / 256;
    var b := a / 256;
    var c := b / 256;
    assert b == v / 0x1_0000 && c == v / 0x100_0000;
    assert BE(c, 1) == [c % 256];
    assert BE(b, 2) == [c % 256, b % 256];
    assert BE(a, 3) == [c % 256, b % 256, a % 256];
  }

  /** The blocks the server builds: its nonces have eleven bytes and its headers thirty-two. */
  lemma BlocksAsWritten(nonce: seq<byte>, v: nat, aad: seq<byte>)
    requires |nonce| == 11 && |aad| == 32
    ensures FirstBlock(nonce, true, v) == [0x7B] + nonce + FourBytes(v)
    ensures CounterBlock(nonce, v) == [3] + nonce + FourBytes(v)
    ensures EncodeAad(aad) == [0, 32] + aad
  {
    BEFour(v);
    assert BE(32, 2) == [0, 32] by { assert BE(0, 1) == [0]; }
  }

  /** The text and the tag of section 2.3: data with S_1, S_2, ... added, the MAC with S_0 added. */
  lemma EncryptAsWritten(E: Cipher, nonce: seq<byte>, aad: seq<byte>, data: seq<byte>, j: nat)
    requires |nonce| == 11 && |aad| < 0x1_0000_0000 && j < |data|
    ensures
      var c, i := Encrypt(E, nonce, aad, data), 1 + j / 16;
      && |c.text| == |data|
      && c.text[j] == Xor(data[j], E([3] + nonce + FourBytes(i))[j % 16])
      && c.tag == XorSeq(Mac(E, nonce, aad, data), E([3] + nonce + Zeros(4)))
  {
    hide Ctr, Mac, Xor;
    CtrAt(E, nonce, 1, data, j);
    BEFour(1 + j / 16);
    BEFour(0);
    assert FourBytes(0) == Zeros(4);
  }

  // --------------------------------------------------------------- inversion

  lemma {:induction false} CtrTwice(E: Cipher, nonce: seq<byte>, i: nat, data: seq<byte>)
    requires NonceOk(nonce)
    ensures Ctr(E, nonce, i, Ctr(E, nonce, i, data)) == data
    decreases |data|
  {
    var key := E(CounterBlock(nonce, i));
    if |data| <= 16 {
      XorSeqTwice(data, key);
    } else {
      var once := Ctr(E, nonce, i, data);
      assert once[..16] == XorSeq(data[..16], key) && once[16..] == Ctr(E, nonce, i + 1, data[16..]);
      XorSeqTwice(data[..16], key);
      CtrTwice(E, nonce, i + 1, data[16..]);
      assert data == data[..16] + data[16..];
    }
  }

  /** Byte j of the text is byte j of the data plus byte j of S_1 || S_2 || ... */
  lemma {:induction false} CtrAt(E: Cipher, nonce: seq<byte>, i: nat, data: seq<byte>, j: nat)
    requires NonceOk(nonce) && j < |data|
    ensures Ctr(E, nonce, i, data)[j] == Xor(data[j], E(CounterBlock(nonce, i + j / 16))[j % 16])
    decreases |data|
  {
    hide Xor, CounterBlock;
    if j >= 16 {
      CtrAt(E, nonce, i + 1, data[16..], j - 16);
      assert i + 1 + (j - 16) / 16 == i + j / 16 && (j - 16) % 16 == j % 16;
    }
  }

  /** What was encrypted is accepted and comes back, for any block function. */
  lemma DecryptAfterEncrypt(E: Cipher, nonce: seq<byte>, aad: seq<byte>, data: seq<byte>)
    requires NonceOk(nonce) && |aad| < 0x1_0000_0000
    ensures Accepts(E, nonce, aad, Encrypt(E, nonce, aad, data))
    ensures Ctr(E, nonce, 1, Encrypt(E, nonce, aad, data).text) == data
  {
    hide Mac, Ctr;
    CtrTwice(E, nonce, 1, data);
    XorSeqTwice(Mac(E, nonce, aad, data), E(CounterBlock(nonce, 0)));
  }

  /** A text and tag are accepted exactly when they are the encryption of the data they decrypt to. */
  lemma AcceptedIffEncryption(E: Cipher, nonce: seq<byte>, aad: seq<byte>, c: Sealed)
    requires NonceOk(nonce) && |aad| < 0x1_0000_0000
    ensures Accepts(E, nonce, aad, c) <==> Encrypt(E, nonce, aad, Ctr(E, nonce, 1, c.text)) == c
  {
    hide Mac, Ctr;
    var data := Ctr(E, nonce, 1, c.text);
    var mac, s0 := Mac(E, nonce, aad, data), E(CounterBlock(nonce, 0));
    CtrTwice(E, nonce, 1, c.text);
    XorSeqTwice(c.tag, s0);
    XorSeqTwice(mac, s0);
  }

  // ------------------------------------------------------- distinct inputs

  /** The parts of a block that starts with a byte, a nonce and a counter. */
  lemma BlockParts(b0: byte, n0: seq<byte>, v0: seq<byte>, b1: byte, n1: seq<byte>, v1: seq<byte>)
    requires [b0] + n0 + v0 == [b1] + n1 + v1
    ensures b0 == b1
    ensures |n0| == |n1| ==> n0 == n1 && v0 == v1
  {
    var s := [b0] + n0 + v0;
    assert s[0] == b0 && ([b1] + n1 + v1)[0] == b1;
    if |n0| == |n1| {
      assert s[1..1 + |n0|] == n0 && ([b1] + n1 + v1)[1..1 + |n1|] == n1;
      assert s[1 + |n0|..] == v0 && ([b1] + n1 + v1)[1 + |n1|..] == v1;
    }
  }

  /** Counter blocks of one nonce repeat only past the width of the counter. */
  lemma CounterBlocksDistinct(nonce: seq<byte>, i: nat, j: nat)
    requires NonceOk(nonce) && i < Pow256(Width(nonce)) && j < Pow256(Width(nonce)) && i != j
    ensures CounterBlock(nonce, i) != CounterBlock(nonce, j)
  {
    if CounterBlock(nonce, i) == CounterBlock(nonce, j) {
      BlockParts(Width(nonce) - 1, nonce, BE(i, Width(nonce)), Width(nonce) - 1, nonce, BE(j, Width(nonce)));
      BEInjective(i, j, Width(nonce));
    }
  }

  /** No counter block is a first MAC block, whatever their nonces. */
  lemma CounterBlockIsNoFirstBlock(nonce: seq<byte>, i: nat, other: seq<byte>, hasAad: bool, length: nat)
    requires NonceOk(nonce) && NonceOk(other)
    ensures CounterBlock(nonce, i) != FirstBlock(other, hasAad, length)
  {
    assert CounterBlock(nonce, i)[0] < 8 && FirstBlock(other, hasAad, length)[0] >= 56;
  }

  lemma FirstBlockInjective(n1: seq<byte>, a1: bool, l1: nat, n2: seq<byte>, a2: bool, l2: nat)
    requires NonceOk(n1) && NonceOk(n2) && l1 < Pow256(Width(n1)) && l2 < Pow256(Width(n2))
    requires FirstBlock(n1, a1, l1) == FirstBlock(n2, a2, l2)
    ensures n1 == n2 && a1 == a2 && l1 == l2
  {
    assert FirstBlock(n1, a1, l1)[0] == FirstBlock(n2, a2, l2)[0];
    assert Width(n1) == Width(n2) && a1 == a2;
    var flags: byte := (if a1 then 64 else 0) + 8 * 7 + (Width(n1) - 1);
    BlockParts(flags, n1, BE(l1, Width(n1)), flags, n2, BE(l2, Width(n1)));
    BEInjective(l1, l2, Width(n1));
  }

  /** Of equally long strings, the blocks determine the string; a prefix is enough for the shorter one. */
  lemma {:induction false} BlocksInjective(s: seq<byte>, t: seq<byte>)
    requires |s| == |t| && Blocks(s) == Blocks(t)
    ensures s == t
    decreases |s|
  {
    if s != [] {
      var a, b := Blocks(s), Blocks(t);
      if |s| < 16 {
        assert a[0] == s + Zeros(16 - |s|) && b[0] == t + Zeros(16 - |s|);
        assert a[0][..|s|] == s && b[0][..|s|] == t;
      } else {
        assert a[0] == s[..16] && b[0] == t[..16];
        assert a[1..] == Blocks(s[16..]) && b[1..] == Blocks(t[16..]);
        BlocksInjective(s[16..], t[16..]);
        assert s == s[..16] + s[16..] && t == t[..16] + t[16..];
      }
    }
  }

  lemma {:induction false} FirstBytesOfBlocks(s: seq<byte>, i: nat)
    requires i < |s| && i < 16
    ensures Blocks(s) != [] && Blocks(s)[0][i] == s[i]
  {
  }

  /** The first two bytes tell how long the additional data is and in which form. */
  lemma AadLengthFromFirstBlock(a: seq<byte>, b: seq<byte>)
    requires 0 < |a| < 0xFF00 && 0 < |b| < 0xFF00
    requires Blocks(EncodeAad(a))[0] == Blocks(EncodeAad(b))[0]
    ensures |a| == |b|
  {
    var s, t := EncodeAad(a), EncodeAad(b);
    FirstBytesOfBlocks(s, 0);
    FirstBytesOfBlocks(s, 1);
    FirstBytesOfBlocks(t, 0);
    FirstBytesOfBlocks(t, 1);
    assert s[..2] == BE(|a|, 2) && t[..2] == BE(|b|, 2);
    assert s[0] == t[0] && s[1] == t[1];
    assert s[..2] == [s[0], s[1]] && t[..2] == [t[0], t[1]];
    PowFacts();
    BEInjective(|a|, |b|, 2);
  }

  /** The input of the MAC is a prefix-free encoding: no input continues another, so equal inputs
      come from equal nonce, additional data and message. */
  lemma MacInputPrefixFree(n1: seq<byte>, a1: seq<byte>, d1: seq<byte>, n2: seq<byte>, a2: seq<byte>, d2: seq<byte>)
    requires NonceOk(n1) && NonceOk(n2) && |a1| < 0xFF00 && |a2| < 0xFF00
    requires |d1| < Pow256(Width(n1)) && |d2| < Pow256(Width(n2))
    requires MacInput(n1, a1, d1) <= MacInput(n2, a2, d2)
    ensures n1 == n2 && a1 == a2 && d1 == d2
  {
    hide BE, EncodeAad, FirstBlock;
    var m1, m2 := MacInput(n1, a1, d1), MacInput(n2, a2, d2);
    assert m1[0] == FirstBlock(n1, a1 != [], |d1|) && m2[0] == FirstBlock(n2, a2 != [], |d2|);
    FirstBlockInjective(n1, a1 != [], |d1|, n2, a2 != [], |d2|);
    if a1 != [] {
      AadBlocksAgree(n1, a1, d1, a2, d2);
    } else {
      assert m1[1..] == Blocks(d1) && m2[1..] == Blocks(d2);
      assert m1[1..] == m2[1..];
    }
    BlocksInjective(d1, d2);
  }

  lemma AadBlocksAgree(nonce: seq<byte>, a1: seq<byte>, d1: seq<byte>, a2: seq<byte>, d2: seq<byte>)
    requires NonceOk(nonce) && 0 < |a1| < 0xFF00 && 0 < |a2| < 0xFF00 && |d1| == |d2|
    requires MacInput(nonce, a1, d1) <= MacInput(nonce, a2, d2)
    ensures a1 == a2 && Blocks(d1) == Blocks(d2)
  {
    var e1, e2 := Blocks(EncodeAad(a1)), Blocks(EncodeAad(a2));
    var f := FirstBlock(nonce, true, |d1|);
    assert MacInput(nonce, a1, d1) == [f] + e1 + Blocks(d1) && MacInput(nonce, a2, d2) == [f] + e2 + Blocks(d2);
    hide MacInput, FirstBlock, Blocks;
    assert ([f] + e1 + Blocks(d1))[1] == e1[0] && ([f] + e2 + Blocks(d2))[1] == e2[0];
    AadLengthFromFirstBlock(a1, a2);
    MiddleAndRest([f], e1, Blocks(d1), e2, Blocks(d2));
    BlocksInjective(EncodeAad(a1), EncodeAad(a2));
    assert EncodeAad(a1)[2..] == a1 && EncodeAad(a2)[2..] == a2;
  }

  lemma MiddleAndRest(f: seq<Block>, e1: seq<Block>, r1: seq<Block>, e2: seq<Block>, r2: seq<Block>)
    requires |e1| == |e2| && |r1| == |r2| && f + e1 + r1 <= f + e2 + r2
    ensures e1 == e2 && r1 == r2
  {
    var m1, m2 := f + e1 + r1, f + e2 + r2;
    assert m1 == m2;
    assert m1[|f|..|f| + |e1|] == e1 && m2[|f|..|f| + |e2|] == e2;
    assert m1[|f| + |e1|..] == r1 && m2[|f| + |e2|..] == r2;
  }
}
