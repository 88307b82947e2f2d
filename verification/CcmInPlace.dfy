/** The in-place CCM routines, each proved against the definition it computes. */
module CcmInPlace {
  import opened Bytes
  import opened Ccm

  /** Writes the low bytes of a 64-bit value at `lo..hi`, most significant first. */
  method PutBE(dst: array<byte>, lo: nat, hi: nat, v: nat)
    requires lo <= hi <= dst.Length
    modifies dst
    ensures dst[..] == old(dst[..lo]) + BE(v, hi - lo) + old(dst[hi..])
  {
    var rest := v;
    var i := hi;
    while i > lo
      invariant lo <= i <= hi
      invariant dst[..lo] == old(dst[..lo]) && dst[hi..] == old(dst[hi..])
      invariant BE(rest, i - lo) + dst[i..hi] == BE(v, hi - lo)
    {
      i := i - 1;
      ghost var tail := dst[i + 1..hi];
      dst[i] := rest % 256;
      assert dst[i..hi] == [rest % 256] + tail;
      assert BE(rest, i + 1 - lo) + tail == BE(rest / 256, i - lo) + ([rest % 256] + tail);
      rest := rest / 256;
    }
    assert dst[..] == dst[..lo] + dst[lo..hi] + dst[hi..];
  }

  /** The counter block for `counter`: flags byte, nonce, counter. */
  method MakeCounterBlock(nonce: seq<byte>, counter: nat) returns (a: array<byte>)
    requires NonceOk(nonce)
    ensures fresh(a) && a.Length == 16 && a[..] == CounterBlock(nonce, counter)
  {
    var l := 15 - |nonce|;
    a := new byte[16](_ => 0);
    a[0] := l - 1;
    CopyInto(a, 1, nonce);
    assert a[..16 - l] == [l - 1] + nonce;
    PutBE(a, 16 - l, 16, counter);
  }

  method CtrEncryptBlock(E: Cipher, nonce: seq<byte>, counter: nat) returns (out: Block)
    requires NonceOk(nonce)
    ensures out == E(CounterBlock(nonce, counter))
  {
    var a := MakeCounterBlock(nonce, counter);
    out := E(a[..]);
  }

  /** Byte `j` of the keystream. */
  function KeyByte(E: Cipher, nonce: seq<byte>, j: nat): byte
    requires NonceOk(nonce)
  {
    E(CounterBlock(nonce, 1 + j / 16))[j % 16]
  }

  /** Adds the keystream to everything from `lo` on and touches nothing before. */
  method CtrXorInPlace(E: Cipher, nonce: seq<byte>, data: array<byte>, lo: nat)
    requires NonceOk(nonce) && lo <= data.Length
    modifies data
    ensures data[..lo] == old(data[..lo])
    ensures data[lo..] == Ctr(E, nonce, 1, old(data[lo..]))
  {
    hide Xor, KeyByte, CounterBlock, Ctr;
    var counter := 1;
    var i := 0;
    var n := data.Length - lo;
    while i < n
      invariant i == 16 * (counter - 1)
      invariant forall k :: 0 <= k < data.Length ==>
        data[k] == if lo <= k < lo + i then Xor(old(data[k]), KeyByte(E, nonce, k - lo)) else old(data[k])
    {
      var s := CtrEncryptBlock(E, nonce, counter);
      var end := if i + 16 < n then i + 16 else n;
      var j := i;
      while j < end
        invariant i <= j <= end
        invariant forall k :: 0 <= k < data.Length ==>
          data[k] == if lo <= k < lo + j then Xor(old(data[k]), KeyByte(E, nonce, k - lo)) else old(data[k])
      {
        assert s[j - i] == KeyByte(E, nonce, j) by { KeyByteOf(E, nonce, i, j, counter); }
        data[lo + j] := Xor(data[lo + j], s[j - i]);
        j := j + 1;
      }
      counter := counter + 1;
      i := i + 16;
    }
    KeystreamIsCtr(E, nonce, old(data[lo..]), data[lo..]);
  }

  lemma KeyByteOf(E: Cipher, nonce: seq<byte>, i: nat, j: nat, counter: nat)
    requires NonceOk(nonce) && counter >= 1 && i == 16 * (counter - 1) && i <= j < i + 16
    ensures E(CounterBlock(nonce, counter))[j - i] == KeyByte(E, nonce, j)
  {
    WithinBlock(i, j, counter);
  }

  lemma WithinBlock(i: nat, j: nat, counter: nat)
    requires counter >= 1 && i == 16 * (counter - 1) && i <= j < i + 16
    ensures 1 + j / 16 == counter && j % 16 == j - i
  {
  }

  lemma KeystreamIsCtr(E: Cipher, nonce: seq<byte>, was: seq<byte>, now: seq<byte>)
    requires NonceOk(nonce) && |was| == |now|
    requires forall j :: 0 <= j < |was| ==> now[j] == Xor(was[j], KeyByte(E, nonce, j))
    ensures now == Ctr(E, nonce, 1, was)
  {
    hide Ctr, Xor;
    forall j | 0 <= j < |was| ensures now[j] == Ctr(E, nonce, 1, was)[j] {
      CtrAt(E, nonce, 1, was, j);
    }
  }

  /** Folds a string into the MAC state, block by block, the last one filled with zeros. */
  method MacBlocks(E: Cipher, start: Block, buf: seq<byte>) returns (state: Block)
    ensures state == Chain(E, start, Blocks(buf))
  {
    state := start;
    var i := 0;
    while i < |buf|
      invariant 0 <= i
      invariant Chain(E, state, if i <= |buf| then Blocks(buf[i..]) else []) == Chain(E, start, Blocks(buf))
    {
      ghost var rest := buf[i..];
      var blk := if i + 16 <= |buf| then buf[i..i + 16] else buf[i..] + Zeros(16 - (|buf| - i));
      assert Blocks(rest)[0] == blk;
      assert Blocks(rest)[1..] == if i + 16 <= |buf| then Blocks(buf[i + 16..]) else [] by {
        if i + 16 <= |buf| { assert rest[16..] == buf[i + 16..]; }
      }
      state := E(XorSeq(state, blk));
      i := i + 16;
    }
  }

  /** Length and contents of the additional data into a scratch buffer large enough for both. */
  method EncodeAadLengthInto(buf: array<byte>, aad: seq<byte>) returns (used: nat)
    requires |aad| < 0x1_0000_0000 && |EncodeAad(aad)| <= buf.Length
    modifies buf
    ensures used <= buf.Length && buf[..used] == EncodeAad(aad)
  {
    var n := |aad|;
    var off;
    if n < 0xFF00 {
      PutBE(buf, 0, 2, n);
      off := 2;
      assert buf[..off] == BE(n, 2);
    } else {
      buf[0] := 0xFF;
      buf[1] := 0xFE;
      ghost var mark := buf[..2];
      PutBE(buf, 2, 6, n);
      off := 6;
      assert buf[..off] == mark + BE(n, 4);
    }
    ghost var head := buf[..off];
    CopyInto(buf, off, aad);
    used := off + n;
    assert buf[..used] == head + aad;
  }

  /** The scratch buffer holds 256 bytes, so the additional data may have up to 254. */
  method CbcMac(E: Cipher, nonce: seq<byte>, aad: seq<byte>, data: seq<byte>) returns (x: Block)
    requires NonceOk(nonce) && |aad| <= 254
    ensures x == Mac(E, nonce, aad, data)
  {
    var l := 15 - |nonce|;
    var flags := (if |aad| > 0 then 0x40 else 0) + ((16 - 2) / 2) * 8 + (l - 1);
    var b0 := new byte[16](_ => 0);
    b0[0] := flags;
    CopyInto(b0, 1, nonce);
    assert b0[..16 - l] == [flags] + nonce;
    PutBE(b0, 16 - l, 16, |data|);
    assert b0[..] == FirstBlock(nonce, aad != [], |data|);
    x := E(XorSeq(Zeros(16), b0[..]));

    ghost var first := [FirstBlock(nonce, aad != [], |data|)];
    ghost var middle := if aad == [] then [] else Blocks(EncodeAad(aad));
    assert x == Chain(E, Zeros(16), first);
    ChainSplits(E, Zeros(16), first, middle);
    ChainSplits(E, Zeros(16), first + middle, Blocks(data));
    if |aad| > 0 {
      var buf := new byte[256](_ => 0);
      var used := EncodeAadLengthInto(buf, aad);
      x := MacBlocks(E, x, buf[..used]);
    }
    x := MacBlocks(E, x, data);
  }

  /** Encrypts everything from `lo` on where it stands and returns the tag. */
  method CcmEncryptInPlace(E: Cipher, nonce: seq<byte>, aad: seq<byte>, data: array<byte>, lo: nat) returns (tag: Block)
    requires NonceOk(nonce) && |aad| <= 254 && lo <= data.Length
    modifies data
    ensures data[..lo] == old(data[..lo])
    ensures Sealed(data[lo..], tag) == Encrypt(E, nonce, aad, old(data[lo..]))
  {
    var mac := CbcMac(E, nonce, aad, data[lo..]);
    var s0 := CtrEncryptBlock(E, nonce, 0);
    CtrXorInPlace(E, nonce, data, lo);
    tag := XorSeq(mac, s0);
  }

  /** Decrypts where it stands, and says whether the tag fits what came out. */
  method CcmDecryptInPlace(E: Cipher, nonce: seq<byte>, aad: seq<byte>, data: array<byte>, lo: nat, tag: Block) returns (ok: bool)
    requires NonceOk(nonce) && |aad| <= 254 && lo <= data.Length
    modifies data
    ensures data[..lo] == old(data[..lo])
    ensures data[lo..] == Ctr(E, nonce, 1, old(data[lo..]))
    ensures ok <==> Accepts(E, nonce, aad, Sealed(old(data[lo..]), tag))
    ensures ok <==> Encrypt(E, nonce, aad, data[lo..]) == Sealed(old(data[lo..]), tag)
  {
    AcceptedIffEncryption(E, nonce, aad, Sealed(data[lo..], tag));
    var s0 := CtrEncryptBlock(E, nonce, 0);
    CtrXorInPlace(E, nonce, data, lo);
    var expected := XorSeq(tag, s0);
    var computed := CbcMac(E, nonce, aad, data[lo..]);
    ok := ConstantTimeEqual(expected, computed);
  }
}
