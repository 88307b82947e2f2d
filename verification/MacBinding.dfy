/** What the two MACs bind: under an injective cipher a change within one block changes the tag, so a frame or
    a signed message changed there is refused. */
module MacBinding {
  import opened Bytes
  import opened Ccm
  import opened Cmac
  import Transform

  /** Every block cipher under a fixed key is. */
  ghost predicate Injective(E: Cipher) { forall a: Block, b: Block :: E(a) == E(b) ==> a == b }

  ghost predicate DifferOnce(a: seq<Block>, b: seq<Block>, k: nat) {
    && |a| == |b| && k < |a| && a[k] != b[k]
    && forall i :: 0 <= i < |a| && i != k ==> a[i] == b[i]
  }

  /** The strings agree everywhere but between `lo` and `hi`, and not there. */
  ghost predicate ChangedIn(s: seq<byte>, t: seq<byte>, lo: nat, hi: nat) {
    && |s| == |t| && s != t
    && forall i :: 0 <= i < |s| && !(lo <= i < hi) ==> s[i] == t[i]
  }

  // ---------------------------------------------------------------- the chain

  /** Section 2.2 of RFC 3610 writes the chain down as X_{i+1} = E(X_i + B_i). */
  lemma {:induction false} ChainStates(E: Cipher, x: Block, blocks: seq<Block>) returns (xs: seq<Block>)
    ensures |xs| == |blocks| + 1 && xs[0] == x && xs[|blocks|] == Chain(E, x, blocks)
    ensures forall i :: 0 <= i < |blocks| ==> xs[i + 1] == E(XorSeq(xs[i], blocks[i]))
    decreases |blocks|
  {
    if blocks == [] {
      xs := [x];
    } else {
      var more := ChainStates(E, E(XorSeq(x, blocks[0])), blocks[1..]);
      xs := [x] + more;
      forall i | 0 <= i < |blocks| ensures xs[i + 1] == E(XorSeq(xs[i], blocks[i])) {
        if i > 0 { assert xs[i] == more[i - 1] && xs[i + 1] == more[i] && blocks[i] == blocks[1..][i - 1]; }
      }
    }
  }

  lemma {:induction false} ChainKeepsApart(E: Cipher, x: Block, y: Block, blocks: seq<Block>)
    requires Injective(E) && x != y
    ensures Chain(E, x, blocks) != Chain(E, y, blocks)
    decreases |blocks|
  {
    if blocks != [] {
      XorSeqApart(blocks[0], x, y);
      ChainKeepsApart(E, E(XorSeq(x, blocks[0])), E(XorSeq(y, blocks[0])), blocks[1..]);
    }
  }

  /** From any start, two runs of blocks that differ in one place chain to different results. */
  lemma {:induction false} ChainDiffers(E: Cipher, x: Block, a: seq<Block>, b: seq<Block>, k: nat)
    requires Injective(E) && DifferOnce(a, b, k)
    ensures Chain(E, x, a) != Chain(E, x, b)
    decreases k
  {
    if k == 0 {
      assert a[1..] == b[1..];
      XorSeqApart(x, a[0], b[0]);
      ChainKeepsApart(E, E(XorSeq(x, a[0])), E(XorSeq(x, b[0])), a[1..]);
    } else {
      ChainDiffers(E, E(XorSeq(x, a[0])), a[1..], b[1..], k - 1);
    }
  }

  lemma Surrounded(pre: seq<Block>, a: seq<Block>, b: seq<Block>, post: seq<Block>, k: nat)
    requires DifferOnce(a, b, k)
    ensures DifferOnce(pre + a + post, pre + b + post, |pre| + k)
  {
  }

  lemma {:induction false} BlocksDifferOnce(s: seq<byte>, t: seq<byte>, k: nat)
    requires ChangedIn(s, t, 16 * k, 16 * k + 16)
    ensures DifferOnce(Blocks(s), Blocks(t), k)
    decreases |s|
  {
    var a, b := Blocks(s), Blocks(t);
    var i :| 0 <= i < |s| && s[i] != t[i];
    if |s| < 16 {
      assert a[0][i] == s[i] && b[0][i] == t[i];
    } else if k == 0 {
      assert s[..16][i] != t[..16][i];
      assert s[16..] == t[16..];
    } else {
      assert s[..16] == t[..16];
      assert s[16..][i - 16] != t[16..][i - 16];
      BlocksDifferOnce(s[16..], t[16..], k - 1);
      assert a == [s[..16]] + Blocks(s[16..]) && b == [s[..16]] + Blocks(t[16..]);
    }
  }

  // ---------------------------------------------------------------- CCM

  /** One changed block of what is authenticated changes the tag. */
  lemma TagDiffers(E: Cipher, nonce: seq<byte>, a1: seq<byte>, d1: seq<byte>, a2: seq<byte>, d2: seq<byte>, k: nat)
    requires Injective(E) && NonceOk(nonce) && |a1| < 0x1_0000_0000 && |a2| < 0x1_0000_0000
    requires DifferOnce(MacInput(nonce, a1, d1), MacInput(nonce, a2, d2), k)
    ensures Mac(E, nonce, a1, d1) != Mac(E, nonce, a2, d2)
    ensures Encrypt(E, nonce, a1, d1).tag != Encrypt(E, nonce, a2, d2).tag
  {
    hide MacInput, Ctr, CounterBlock;
    ChainDiffers(E, Zeros(16), MacInput(nonce, a1, d1), MacInput(nonce, a2, d2), k);
    XorSeqApart(E(CounterBlock(nonce, 0)), Mac(E, nonce, a1, d1), Mac(E, nonce, a2, d2));
  }

  lemma HeaderInput(nonce: seq<byte>, a1: seq<byte>, a2: seq<byte>, data: seq<byte>, k: nat)
    requires NonceOk(nonce) && 0 < |a1| == |a2| < 0xFF00 && ChangedIn(a1, a2, if k == 0 then 0 else 16 * k - 2, 16 * k + 14)
    ensures DifferOnce(MacInput(nonce, a1, data), MacInput(nonce, a2, data), 1 + k)
  {
    hide BE, Blocks, FirstBlock;
    var s, t := EncodeAad(a1), EncodeAad(a2);
    var i :| 0 <= i < |a1| && a1[i] != a2[i];
    assert s[i + 2] == a1[i] && t[i + 2] == a2[i];
    BlocksDifferOnce(s, t, k);
    Surrounded([FirstBlock(nonce, true, |data|)], Blocks(s), Blocks(t), Blocks(data), k);
  }

  lemma DataInput(nonce: seq<byte>, aad: seq<byte>, d1: seq<byte>, d2: seq<byte>, k: nat) returns (at: nat)
    requires NonceOk(nonce) && 0 < |aad| < 0xFF00 && ChangedIn(d1, d2, 16 * k, 16 * k + 16)
    ensures DifferOnce(MacInput(nonce, aad, d1), MacInput(nonce, aad, d2), at)
  {
    hide Blocks, FirstBlock, EncodeAad;
    BlocksDifferOnce(d1, d2, k);
    var pre := [FirstBlock(nonce, true, |d1|)] + Blocks(EncodeAad(aad));
    Surrounded(pre, Blocks(d1), Blocks(d2), [], k);
    assert pre + Blocks(d1) + [] == MacInput(nonce, aad, d1) && pre + Blocks(d2) + [] == MacInput(nonce, aad, d2);
    at := |pre| + k;
  }

  /** The key stream carries a change of the text to the same place of the data. */
  lemma StreamKeepsPlace(E: Cipher, nonce: seq<byte>, c1: seq<byte>, c2: seq<byte>, lo: nat, hi: nat)
    requires NonceOk(nonce) && ChangedIn(c1, c2, lo, hi)
    ensures ChangedIn(Ctr(E, nonce, 1, c1), Ctr(E, nonce, 1, c2), lo, hi)
  {
    hide Ctr, Xor, CounterBlock;
    CtrTwice(E, nonce, 1, c1);
    CtrTwice(E, nonce, 1, c2);
    forall i | 0 <= i < |c1| && !(lo <= i < hi) ensures Ctr(E, nonce, 1, c1)[i] == Ctr(E, nonce, 1, c2)[i] {
      CtrAt(E, nonce, 1, c1, i);
      CtrAt(E, nonce, 1, c2, i);
    }
  }

  lemma OtherDataRefused(E: Cipher, nonce: seq<byte>, aad: seq<byte>, c1: seq<byte>, c2: seq<byte>, tag: Block, k: nat)
    requires Injective(E) && NonceOk(nonce) && 0 < |aad| < 0xFF00 && ChangedIn(c1, c2, 16 * k, 16 * k + 16)
    requires Accepts(E, nonce, aad, Sealed(c1, tag))
    ensures !Accepts(E, nonce, aad, Sealed(c2, tag))
  {
    hide Ctr, MacInput, Mac, CounterBlock;
    StreamKeepsPlace(E, nonce, c1, c2, 16 * k, 16 * k + 16);
    var at := DataInput(nonce, aad, Ctr(E, nonce, 1, c1), Ctr(E, nonce, 1, c2), k);
    TagDiffers(E, nonce, aad, Ctr(E, nonce, 1, c1), aad, Ctr(E, nonce, 1, c2), at);
  }

  lemma OtherHeaderRefused(E: Cipher, nonce: seq<byte>, a1: seq<byte>, a2: seq<byte>, c: Sealed, k: nat)
    requires Injective(E) && NonceOk(nonce) && 0 < |a1| == |a2| < 0xFF00
    requires ChangedIn(a1, a2, if k == 0 then 0 else 16 * k - 2, 16 * k + 14) && Accepts(E, nonce, a1, c)
    ensures !Accepts(E, nonce, a2, c)
  {
    hide Ctr, MacInput, Mac, CounterBlock;
    var data := Ctr(E, nonce, 1, c.text);
    HeaderInput(nonce, a1, a2, data, k);
    TagDiffers(E, nonce, a1, data, a2, data, 1 + k);
  }

  lemma OtherTagRefused(E: Cipher, nonce: seq<byte>, aad: seq<byte>, text: seq<byte>, t1: Block, t2: Block)
    requires NonceOk(nonce) && |aad| < 0x1_0000_0000 && t1 != t2 && Accepts(E, nonce, aad, Sealed(text, t1))
    ensures !Accepts(E, nonce, aad, Sealed(text, t2))
  {
    hide Ctr, Mac, CounterBlock;
    XorSeqApart(E(CounterBlock(nonce, 0)), t1, t2);
  }

  // ---------------------------------------------------------------- frames

  /** The pieces of a frame: protocol id, tag, the three blocks of the header behind the nonce (size and session id
      among them), then the text in sixteens. */
  function Lo(k: nat): nat {
    if k == 0 then 0 else if k == 1 then 4 else if k == 2 then 31 else if k == 3 then 34 else if k == 4 then 50 else 52 + 16 * (k - 5)
  }

  function Hi(k: nat): nat {
    if k == 0 then 4 else if k == 1 then 20 else if k == 2 then 34 else if k == 3 then 50 else if k == 4 then 52 else 68 + 16 * (k - 5)
  }

  /** A slice the change does not reach. */
  lemma SameSlice(t: seq<byte>, u: seq<byte>, lo: nat, hi: nat, a: nat, b: nat)
    requires ChangedIn(t, u, lo, hi) && a <= b <= |t| && (b <= lo || hi <= a)
    ensures t[a..b] == u[a..b]
  {
  }

  /** A slice that holds the change. */
  lemma ChangedSlice(t: seq<byte>, u: seq<byte>, lo: nat, hi: nat, a: nat, b: nat)
    requires ChangedIn(t, u, lo, hi) && a <= lo <= hi && a <= b <= |t| && (hi <= b || b == |t|)
    ensures ChangedIn(t[a..b], u[a..b], lo - a, hi - a)
  {
    var i :| 0 <= i < |t| && t[i] != u[i];
    assert t[a..b][i - a] != u[a..b][i - a];
  }

  /** A frame that opens does not open any more after a change within one piece. */
  lemma TamperedFrameRefused(E: Cipher, t: seq<byte>, u: seq<byte>, k: nat)
    requires Injective(E) && Transform.Open(E, t).Message? && ChangedIn(t, u, Lo(k), Hi(k))
    ensures Transform.Open(E, u).Refused?
  {
    hide Accepts, Ctr, Injective;
    var n := |t|;
    assert t[52..n] == t[52..] && u[52..n] == u[52..];
    if k == 0 {
      ChangedSlice(t, u, 0, 4, 0, 4);
    } else {
      if k != 1 { SameSlice(t, u, Lo(k), Hi(k), 4, 20); }
      SameSlice(t, u, Lo(k), Hi(k), 20, 31);
      if k == 1 {
        ChangedSlice(t, u, 4, 20, 4, 20);
        SameSlice(t, u, 4, 20, 20, 52);
        SameSlice(t, u, 4, 20, 52, n);
        OtherTagRefused(E, t[20..31], t[20..52], t[52..], t[4..20], u[4..20]);
      } else if k < 5 {
        ChangedSlice(t, u, Lo(k), Hi(k), 20, 52);
        SameSlice(t, u, Lo(k), Hi(k), 52, n);
        OtherHeaderRefused(E, t[20..31], t[20..52], u[20..52], Sealed(t[52..], t[4..20]), k - 2);
      } else {
        SameSlice(t, u, Lo(k), Hi(k), 20, 52);
        ChangedSlice(t, u, Lo(k), Hi(k), 52, n);
        OtherDataRefused(E, t[20..31], t[20..52], t[52..], u[52..], t[4..20], k - 5);
      }
    }
  }

  // ---------------------------------------------------------------- CMAC

  /** Where the last block begins; an empty message has an empty last block. */
  function LastStart(m: seq<byte>): (at: nat)
    ensures at <= |m| <= at + 16 && at % 16 == 0
  {
    if m == [] then 0 else 16 * ((|m| - 1) / 16)
  }

  /** Section 2.4 of RFC 4493: a full last block with x.L added, a shorter one padded, with x^2.L added. */
  function LastOf(E: Cipher, tail: seq<byte>): Block
    requires |tail| <= 16
  {
    var l := E(Zeros(16));
    if |tail| == 16 then XorSeq(tail, Double(l)) else XorSeq(tail + [0x80] + Zeros(15 - |tail|), Double(Double(l)))
  }

  lemma {:induction false} ChainFromIsChain(E: Cipher, x: Block, m: seq<byte>)
    ensures ChainFrom(E, x, m) == Chain(E, x, Blocks(m[..LastStart(m)]) + [LastOf(E, m[LastStart(m)..])])
    decreases |m|
  {
    hide Double, Xor;
    var at := LastStart(m);
    if |m| <= 16 {
      assert at == 0 && m[..0] == [] && m[0..] == m;
      var last := LastOf(E, m);
      XorSeqCommutes(last, x);
      assert [] + [last] == [last] && [last][1..] == [];
      assert Chain(E, x, [last]) == Chain(E, E(XorSeq(x, last)), []);
    } else {
      var y, rest := E(XorSeq(x, m[..16])), m[16..];
      ChainFromIsChain(E, y, rest);
      LastStartMoves(m);
      assert m[..at][..16] == m[..16] && m[..at][16..] == rest[..at - 16] && m[at..] == rest[at - 16..];
      var more := Blocks(rest[..at - 16]) + [LastOf(E, m[at..])];
      assert Blocks(m[..at]) + [LastOf(E, m[at..])] == [m[..16]] + more;
      assert ([m[..16]] + more)[1..] == more;
    }
  }

  lemma LastStartMoves(m: seq<byte>)
    requires |m| > 16
    ensures LastStart(m[16..]) == LastStart(m) - 16 && LastStart(m) >= 16
  {
    assert (|m| - 1) / 16 == (|m| - 17) / 16 + 1;
  }

  /** The MAC is the chain of section 2.4 over the message's blocks, the last one treated by its length. */
  lemma CmacIsChain(E: Cipher, m: seq<byte>)
    ensures var at := LastStart(m); CmacOf(E, m) == Chain(E, Zeros(16), Blocks(m[..at]) + [LastOf(E, m[at..])])
  {
    hide ChainFrom, Chain, Blocks, LastOf, LastStart;
    ChainFromIsChain(E, Zeros(16), m);
  }

  lemma LastOfDiffers(E: Cipher, s: seq<byte>, t: seq<byte>)
    requires |s| == |t| <= 16 && s != t
    ensures LastOf(E, s) != LastOf(E, t)
  {
    hide Double, Xor;
    var i :| 0 <= i < |s| && s[i] != t[i];
    var l := E(Zeros(16));
    if |s| == 16 {
      XorSeqApart(Double(l), s, t);
    } else {
      var p, q := s + [0x80] + Zeros(15 - |s|), t + [0x80] + Zeros(15 - |t|);
      assert p[i] != q[i];
      XorSeqApart(Double(Double(l)), p, q);
    }
  }

  lemma FrontDiffers(E: Cipher, s: seq<byte>, t: seq<byte>, at: nat, k: nat)
    requires Injective(E) && ChangedIn(s, t, 16 * k, 16 * k + 16) && 16 * k + 16 <= at <= |s| && |s| - at <= 16
    ensures Chain(E, Zeros(16), Blocks(s[..at]) + [LastOf(E, s[at..])]) != Chain(E, Zeros(16), Blocks(t[..at]) + [LastOf(E, t[at..])])
  {
    hide LastOf, Blocks, Chain, Injective;
    assert s[at..] == t[at..];
    var p := LastOf(E, s[at..]);
    var i :| 0 <= i < |s| && s[i] != t[i];
    assert s[..at][i] != t[..at][i];
    BlocksDifferOnce(s[..at], t[..at], k);
    Surrounded([], Blocks(s[..at]), Blocks(t[..at]), [p], k);
    assert [] + Blocks(s[..at]) + [p] == Blocks(s[..at]) + [p] && [] + Blocks(t[..at]) + [p] == Blocks(t[..at]) + [p];
    ChainDiffers(E, Zeros(16), Blocks(s[..at]) + [p], Blocks(t[..at]) + [p], k);
  }

  lemma EndDiffers(E: Cipher, s: seq<byte>, t: seq<byte>, at: nat, k: nat)
    requires Injective(E) && ChangedIn(s, t, 16 * k, 16 * k + 16) && at <= 16 * k && at <= |s| && |s| - at <= 16
    ensures Chain(E, Zeros(16), Blocks(s[..at]) + [LastOf(E, s[at..])]) != Chain(E, Zeros(16), Blocks(t[..at]) + [LastOf(E, t[at..])])
  {
    hide LastOf, Blocks, Chain, Injective;
    var p, q, front := LastOf(E, s[at..]), LastOf(E, t[at..]), Blocks(s[..at]);
    assert s[..at] == t[..at];
    assert s == s[..at] + s[at..] && t == t[..at] + t[at..];
    LastOfDiffers(E, s[at..], t[at..]);
    ChainDiffers(E, Zeros(16), front + [p], front + [q], |front|);
  }

  lemma CmacDiffers(E: Cipher, s: seq<byte>, t: seq<byte>, k: nat)
    requires Injective(E) && ChangedIn(s, t, 16 * k, 16 * k + 16)
    ensures CmacOf(E, s) != CmacOf(E, t)
  {
    hide ChainFrom, LastOf, Blocks, Chain, Injective, ChangedIn;
    SameLength(s, t, 16 * k, 16 * k + 16);
    var at := LastStart(s);
    ChainFromIsChain(E, Zeros(16), s);
    ChainFromIsChain(E, Zeros(16), t);
    if 16 * k + 16 <= at {
      FrontDiffers(E, s, t, at, k);
    } else {
      EndDiffers(E, s, t, at, k);
    }
  }

  lemma SameLength(s: seq<byte>, t: seq<byte>, lo: nat, hi: nat)
    requires ChangedIn(s, t, lo, hi)
    ensures |s| == |t| && s != []
  {
  }

  /** A message whose signature verifies does not verify any more after a change within one block of sixteen. */
  lemma TamperedMessageFails(E: Cipher, s: seq<byte>, t: seq<byte>, k: nat)
    requires Injective(E) && |s| >= 64 && s[48..64] == Signature(E, s) && ChangedIn(s, t, 16 * k, 16 * k + 16)
    ensures t[48..64] != Signature(E, t)
  {
    hide CmacOf, Injective;
    var a, b := WithSignature(s, Zeros(16)), WithSignature(t, Zeros(16));
    var i :| 0 <= i < |s| && s[i] != t[i];
    if k == 3 {
      assert a == b;
      assert s[48..64][i - 48] != t[48..64][i - 48];
    } else {
      assert a[i] == s[i] && b[i] == t[i];
      assert ChangedIn(a, b, 16 * k, 16 * k + 16);
      CmacDiffers(E, a, b, k);
      SameSlice(s, t, 16 * k, 16 * k + 16, 48, 64);
    }
  }
}
