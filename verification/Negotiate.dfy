/** The negotiate response with its list of contexts, and the reader of such lists. */
module Negotiate {
  import opened Bytes

  const SMB311 := 0x0311

  type Guid = s: seq<byte> | |s| == 16 witness Zeros(16)

  datatype Context = Context(kind: uint16, data: seq<byte>)

  datatype Response = Response(
    securityMode: uint16,
    dialect: uint16,
    serverGuid: Guid,
    capabilities: uint32,
    maxTransact: uint32,
    maxRead: uint32,
    maxWrite: uint32,
    systemTime: uint64,
    startTime: uint64,
    security: seq<byte>,
    contexts: seq<Context>)

  // ---------------------------------------------------------------- layout

  /** Rounds up to a multiple of eight by clearing the low bits. */
  function AlignUp(n: nat): nat { (n + 7) / 8 * 8 }

  lemma AlignUpPads(n: nat)
    ensures AlignUp(n) == n + Padding(n)
  {
    var q, r := n / 8, n % 8;
    assert n == 8 * q + r;
    assert (n + 7) / 8 == if r == 0 then q else q + 1;
  }

  function EncodeContext(c: Context): (s: seq<byte>)
    ensures |s| == 8 + |c.data| + Padding(8 + |c.data|)
  {
    LE(c.kind, 2) + LE(|c.data| % 0x1_0000, 2) + Zeros(4) + c.data + Zeros(Padding(8 + |c.data|))
  }

  function Section(cs: seq<Context>): seq<byte> {
    if cs == [] then [] else Section(cs[..|cs| - 1]) + EncodeContext(cs[|cs| - 1])
  }

  function ContextOffset(r: Response): nat { 64 + |r.security| + Padding(64 + |r.security|) }

  function FixedFront(r: Response): (s: seq<byte>)
    ensures |s| == 28
  {
    LE(65, 2) + LE(r.securityMode, 2) + LE(r.dialect, 2) + LE(|r.contexts| % 0x1_0000, 2) + r.serverGuid + LE(r.capabilities, 4)
  }

  function Fixed(r: Response): (s: seq<byte>)
    ensures |s| == 64
  {
    FixedFront(r) + LE(r.maxTransact, 4) + LE(r.maxRead, 4) + LE(r.maxWrite, 4) + LE(r.systemTime, 8) + LE(r.startTime, 8)
    + LE(128, 2) + LE(|r.security| % 0x1_0000, 2)
    + LE(if r.dialect == SMB311 then (64 + ContextOffset(r)) % 0x1_0000_0000 else 0, 4)
  }

  function Body(r: Response): seq<byte> {
    Fixed(r) + r.security
    + if r.dialect == SMB311 then Zeros(Padding(64 + |r.security|)) + Section(r.contexts) else []
  }

  lemma {:induction false} SectionSize(cs: seq<Context>)
    ensures |Section(cs)| % 8 == 0
    decreases |cs|
  {
    hide EncodeContext;
    if cs != [] {
      SectionSize(cs[..|cs| - 1]);
      AlignedSum(|Section(cs[..|cs| - 1])|, |EncodeContext(cs[|cs| - 1])|);
    }
  }

  lemma SectionSnoc(cs: seq<Context>, i: nat)
    requires i < |cs|
    ensures Section(cs[..i + 1]) == Section(cs[..i]) + EncodeContext(cs[i])
  {
    assert cs[..i + 1][..i] == cs[..i];
  }

  // ---------------------------------------------------------------- the writer

  /** Writes a piece where a buffer is still zero. */
  method Fill(b: array<byte>, off: nat, piece: seq<byte>, ghost done: seq<byte>)
    requires off == |done| && off + |piece| <= b.Length && b[..] == done + Zeros(b.Length - off)
    modifies b
    ensures b[..] == done + piece + Zeros(b.Length - off - |piece|)
  {
    CopyInto(b, off, piece);
    assert old(b[..])[..off] == done;
  }

  method FillFront(b: array<byte>, r: Response)
    requires b.Length >= 64 && b[..] == Zeros(b.Length)
    modifies b
    ensures b[..] == FixedFront(r) + Zeros(b.Length - 28)
  {
    hide LE;
    assert b[..] == [] + Zeros(b.Length);
    Fill(b, 0, LE(65, 2), []);
    ghost var f := LE(65, 2);
    assert [] + f == f;
    Fill(b, 2, LE(r.securityMode, 2), f);
    f := f + LE(r.securityMode, 2);
    Fill(b, 4, LE(r.dialect, 2), f);
    f := f + LE(r.dialect, 2);
    Fill(b, 6, LE(|r.contexts| % 0x1_0000, 2), f);
    f := f + LE(|r.contexts| % 0x1_0000, 2);
    Fill(b, 8, r.serverGuid, f);
    f := f + r.serverGuid;
    Fill(b, 24, LE(r.capabilities, 4), f);
  }

  method FillFixed(b: array<byte>, r: Response, ctxOff: nat)
    requires b.Length >= 64 && b[..] == Zeros(b.Length)
    requires ctxOff == if r.dialect == SMB311 then (64 + ContextOffset(r)) % 0x1_0000_0000 else 0
    modifies b
    ensures b[..] == Fixed(r) + Zeros(b.Length - 64)
  {
    hide LE, ContextOffset, FixedFront;
    FillFront(b, r);
    ghost var f := FixedFront(r);
    Fill(b, 28, LE(r.maxTransact, 4), f);
    f := f + LE(r.maxTransact, 4);
    Fill(b, 32, LE(r.maxRead, 4), f);
    f := f + LE(r.maxRead, 4);
    Fill(b, 36, LE(r.maxWrite, 4), f);
    f := f + LE(r.maxWrite, 4);
    Fill(b, 40, LE(r.systemTime, 8), f);
    f := f + LE(r.systemTime, 8);
    Fill(b, 48, LE(r.startTime, 8), f);
    f := f + LE(r.startTime, 8);
    Fill(b, 56, LE(128, 2), f);
    f := f + LE(128, 2);
    Fill(b, 58, LE(|r.security| % 0x1_0000, 2), f);
    f := f + LE(|r.security| % 0x1_0000, 2);
    Fill(b, 60, LE(ctxOff, 4), f);
  }

  /** One round of the context loop. */
  method FillContext(b: array<byte>, at: nat, c: Context, ghost done: seq<byte>) returns (off: nat)
    requires at == |done| && at % 8 == 0 && at + |EncodeContext(c)| <= b.Length && b[..] == done + Zeros(b.Length - at)
    modifies b
    ensures off == at + |EncodeContext(c)| && b[..] == done + EncodeContext(c) + Zeros(b.Length - off)
  {
    hide LE, Padding;
    off := at;
    Fill(b, off, LE(c.kind, 2), done);
    Fill(b, off + 2, LE(|c.data| % 0x1_0000, 2), done + LE(c.kind, 2));
    ghost var head := LE(c.kind, 2) + LE(|c.data| % 0x1_0000, 2) + Zeros(4);
    off := off + 8;
    assert b[..] == done + head + Zeros(b.Length - off);
    Fill(b, off, c.data, done + head);
    off := off + |c.data|;
    PaddingBehind(at, 8 + |c.data|);
    off := off + Padding(off);
    assert done + head + c.data + Zeros(Padding(8 + |c.data|)) == done + EncodeContext(c);
    assert b[..] == done + head + c.data + Zeros(Padding(8 + |c.data|)) + Zeros(b.Length - off);
  }

  /** What the response needs, summed context by context. */
  method SizeOf(r: Response) returns (total: nat)
    ensures total == |Body(r)|
  {
    hide Fixed, EncodeContext;
    total := 64 + |r.security|;
    if r.dialect == SMB311 {
      total := total + Padding(total);
      var i := 0;
      assert r.contexts[..0] == [];
      while i < |r.contexts|
        invariant i <= |r.contexts|
        invariant total == ContextOffset(r) + |Section(r.contexts[..i])|
      {
        SectionSnoc(r.contexts, i);
        AlignUpPads(8 + |r.contexts[i].data|);
        total := total + AlignUp(8 + |r.contexts[i].data|);
        i := i + 1;
      }
      assert r.contexts[..i] == r.contexts;
    }
  }

  /** The writer sizes its buffer exactly and fills it to the last byte. */
  method Append(dst: seq<byte>, r: Response) returns (out: seq<byte>)
    ensures out == dst + Body(r)
  {
    hide Fixed, EncodeContext, Section, Padding;
    var total := SizeOf(r);
    var b := new byte[total](_ => 0);
    assert b[..] == Zeros(total);
    FillFixed(b, r, if r.dialect == SMB311 then (64 + ContextOffset(r)) % 0x1_0000_0000 else 0);
    Fill(b, 64, r.security, Fixed(r));
    if r.dialect == SMB311 {
      ghost var front := Fixed(r) + r.security + Zeros(Padding(64 + |r.security|));
      var off := ContextOffset(r);
      assert b[..] == front + Zeros(total - off);
      EmptySection(r.contexts);
      var i := 0;
      while i < |r.contexts|
        invariant i <= |r.contexts|
        invariant off == ContextOffset(r) + |Section(r.contexts[..i])| && off <= total
        invariant b[..] == front + Section(r.contexts[..i]) + Zeros(total - off)
      {
        ghost var done := front + Section(r.contexts[..i]);
        RoomLeft(r, i);
        off := FillContext(b, off, r.contexts[i], done);
        SectionSnoc(r.contexts, i);
        assert done + EncodeContext(r.contexts[i]) == front + Section(r.contexts[..i + 1]);
        i := i + 1;
      }
      assert r.contexts[..i] == r.contexts;
      assert front + Section(r.contexts) == Body(r);
    }
    out := dst + b[..];
  }

  lemma EmptySection(cs: seq<Context>)
    ensures Section(cs[..0]) == []
  {
  }

  lemma {:induction false} SectionPrefix(cs: seq<Context>, i: nat)
    requires i <= |cs|
    ensures |Section(cs[..i])| <= |Section(cs)|
    decreases |cs| - i
  {
    hide EncodeContext, Section;
    if i < |cs| {
      SectionSnoc(cs, i);
      SectionPrefix(cs, i + 1);
    } else {
      assert cs[..i] == cs;
    }
  }

  /** Each context starts on a multiple of eight and fits. */
  lemma RoomLeft(r: Response, i: nat)
    requires i < |r.contexts| && r.dialect == SMB311
    ensures
      var at := ContextOffset(r) + |Section(r.contexts[..i])|;
      at % 8 == 0 && at + |EncodeContext(r.contexts[i])| <= |Body(r)|
  {
    hide EncodeContext, Section, Fixed;
    SectionSize(r.contexts[..i]);
    AlignedSum(ContextOffset(r), |Section(r.contexts[..i])|);
    SectionSnoc(r.contexts, i);
    SectionPrefix(r.contexts, i + 1);
  }

  // ---------------------------------------------------------------- the reader

  function Contexts(body: seq<byte>, offset: int, count: nat): Option<seq<Context>>
    decreases count
  {
    if count == 0 then Some([])
    else if offset < 0 || offset + 8 > |body| then None
    else
      var n := Field(body, offset + 2, 2);
      if offset + 8 + n > |body| then None
      else
        PowFacts();
        var rest := Contexts(body, AlignUp(offset + 8 + n), count - 1);
        if rest.None? then None else Some([Context(Field(body, offset, 2), body[offset + 8..offset + 8 + n])] + rest.value)
  }

  method ParseContexts(body: seq<byte>, start: int, count: nat) returns (r: Option<seq<Context>>)
    ensures r == Contexts(body, start, count)
  {
    hide Field, AlignUp;
    var offset := start;
    var cs: seq<Context> := [];
    var i := 0;
    PrefixedNothing(Contexts(body, start, count));
    while i < count
      invariant i <= count
      invariant Contexts(body, start, count) == Prefixed(cs, Contexts(body, offset, count - i))
    {
      if offset < 0 || offset + 8 > |body| { return None; }
      PowFacts();
      var kind := Field(body, offset, 2);
      var n := Field(body, offset + 2, 2);
      if offset + 8 + n > |body| { return None; }
      var c := Context(kind, body[offset + 8..offset + 8 + n]);
      PrefixedTwice(cs, c, Contexts(body, AlignUp(offset + 8 + n), count - i - 1));
      cs := cs + [c];
      offset := AlignUp(offset + 8 + n);
      i := i + 1;
    }
    r := Some(cs);
    assert cs + [] == cs;
  }

  function Prefixed(cs: seq<Context>, r: Option<seq<Context>>): Option<seq<Context>> {
    if r.None? then None else Some(cs + r.value)
  }

  lemma PrefixedNothing(r: Option<seq<Context>>)
    ensures Prefixed([], r) == r
  {
    if r.Some? {
      assert [] + r.value == r.value;
    }
  }

  lemma PrefixedTwice(cs: seq<Context>, c: Context, r: Option<seq<Context>>)
    ensures Prefixed(cs, Prefixed([c], r)) == Prefixed(cs + [c], r)
  {
    if r.Some? {
      assert cs + ([c] + r.value) == cs + [c] + r.value;
    }
  }

  // ---------------------------------------------------------------- round trip

  /** The lengths of the contexts fit their 16-bit field. */
  predicate Fits(cs: seq<Context>) { forall i :: 0 <= i < |cs| ==> |cs[i].data| < 0x1_0000 }

  lemma ContextFields(pre: seq<byte>, c: Context, tail: seq<byte>)
    ensures
      var b := pre + EncodeContext(c) + tail;
      && Field(b, |pre|, 2) == c.kind && Field(b, |pre| + 2, 2) == |c.data| % 0x1_0000
      && b[|pre| + 8..|pre| + 8 + |c.data|] == c.data
  {
    hide LE, UnLE, Padding;
    PowFacts();
    LERoundTrip(c.kind, 2);
    LERoundTrip(|c.data| % 0x1_0000, 2);
    var e := EncodeContext(c);
    assert e[0..2] == LE(c.kind, 2) && e[2..4] == LE(|c.data| % 0x1_0000, 2) && e[8..8 + |c.data|] == c.data;
    SliceInside(pre, e, tail, 0, 2);
    SliceInside(pre, e, tail, 2, 4);
    SliceInside(pre, e, tail, 8, 8 + |c.data|);
  }

  lemma SliceInside(pre: seq<byte>, e: seq<byte>, tail: seq<byte>, lo: nat, hi: nat)
    requires lo <= hi <= |e|
    ensures (pre + e + tail)[|pre| + lo..|pre| + hi] == e[lo..hi]
  {
  }

  /** A context that fits is read back and the reader lands on the next; one that does not is cut short. */
  lemma ContextReads(pre: seq<byte>, c: Context, tail: seq<byte>, count: nat)
    requires |pre| % 8 == 0
    ensures
      var b := pre + EncodeContext(c) + tail;
      && (|c.data| < 0x1_0000 ==> Contexts(b, |pre|, count + 1) == Prefixed([c], Contexts(b, |pre| + |EncodeContext(c)|, count)))
      && (|c.data| >= 0x1_0000 ==>
            var r := Contexts(b, |pre|, count + 1);
            r.Some? ==> r.value != [] && |r.value[0].data| < |c.data|)
  {
    hide EncodeContext, Field, Padding, Contexts, AlignUp;
    ContextFields(pre, c, tail);
    AlignUpPads(|pre| + 8 + |c.data|);
    PaddingBehind(|pre|, 8 + |c.data|);
    ReadOne(pre + EncodeContext(c) + tail, |pre|, count);
  }

  lemma ReadOne(b: seq<byte>, at: nat, count: nat)
    requires at + 8 <= |b| && at + 8 + Field(b, at + 2, 2) <= |b|
    ensures Field(b, at, 2) < 0x1_0000
    ensures
      var n := Field(b, at + 2, 2);
      Contexts(b, at, count + 1) == Prefixed([Context(Field(b, at, 2), b[at + 8..at + 8 + n])], Contexts(b, AlignUp(at + 8 + n), count))
  {
    hide AlignUp, Field;
    PowFacts();
  }

  lemma {:induction false} SectionFront(c: Context, cs: seq<Context>)
    ensures Section([c] + cs) == EncodeContext(c) + Section(cs)
    decreases |cs|
  {
    hide EncodeContext;
    if cs == [] {
      assert [c] + cs == [c] && [c][..0] == [];
    } else {
      var front, last := cs[..|cs| - 1], cs[|cs| - 1];
      SectionFront(c, front);
      assert ([c] + cs)[..|cs|] == [c] + front;
    }
  }

  lemma {:induction false} SectionReadsIff(pre: seq<byte>, cs: seq<Context>)
    requires |pre| % 8 == 0
    ensures Contexts(pre + Section(cs), |pre|, |cs|) == Some(cs) <==> Fits(cs)
    decreases |cs|
  {
    hide EncodeContext, Contexts, Section, Padding;
    if cs == [] {
      NothingToRead(pre + Section(cs), |pre|);
    } else {
      var c, rest := cs[0], cs[1..];
      assert cs == [c] + rest;
      SectionFront(c, rest);
      var pre' := pre + EncodeContext(c);
      assert pre + Section(cs) == pre' + Section(rest);
      ContextReads(pre, c, Section(rest), |rest|);
      AlignedSum(|pre|, |EncodeContext(c)|);
      SectionReadsIff(pre', rest);
      assert forall r: seq<Context> :: [c] + r == cs ==> r == cs[1..] by {
        forall r: seq<Context> | [c] + r == cs ensures r == cs[1..] { assert ([c] + r)[1..] == r; }
      }
      assert Fits(cs) <==> |c.data| < 0x1_0000 && Fits(rest) by {
        assert forall i :: 0 <= i < |rest| ==> rest[i] == cs[i + 1];
        assert forall i :: 0 < i < |cs| ==> cs[i] == rest[i - 1];
      }
    }
  }

  lemma NothingToRead(b: seq<byte>, offset: int)
    ensures Contexts(b, offset, 0) == Some([])
  {
  }

  lemma {:induction false} ReadsCount(body: seq<byte>, offset: int, count: nat)
    ensures var r := Contexts(body, offset, count); r.Some? ==> |r.value| == count
    decreases count
  {
    hide Field, AlignUp;
    if count > 0 && offset >= 0 && offset + 8 <= |body| {
      ReadsCount(body, AlignUp(offset + 8 + Field(body, offset + 2, 2)), count - 1);
    }
  }

  lemma FixedFields(r: Response)
    requires r.dialect == SMB311
    ensures Field(Body(r), 6, 2) == |r.contexts| % 0x1_0000 && Field(Body(r), 60, 4) == (64 + ContextOffset(r)) % 0x1_0000_0000
  {
    hide LE, UnLE, ContextOffset, Padding, Section;
    PowFacts();
    LERoundTrip(|r.contexts| % 0x1_0000, 2);
    LERoundTrip((64 + ContextOffset(r)) % 0x1_0000_0000, 4);
    var f := Fixed(r);
    assert f[6..8] == FixedFront(r)[6..8] == LE(|r.contexts| % 0x1_0000, 2);
    assert f[60..64] == LE((64 + ContextOffset(r)) % 0x1_0000_0000, 4);
    var rest := r.security + (Zeros(Padding(64 + |r.security|)) + Section(r.contexts));
    assert Body(r) == f + rest;
    assert Body(r)[6..8] == f[6..8] && Body(r)[60..64] == f[60..64];
  }

  /** The fixed part in numbers. */
  lemma FixedAsWritten(r: Response)
    ensures |Body(r)| >= 64 + |r.security|
    ensures
      var f := Fixed(r);
      && f[0..2] == [65, 0] && f[2..4] == LE(r.securityMode, 2) && f[4..6] == LE(r.dialect, 2) && f[8..24] == r.serverGuid
      && f[24..28] == LE(r.capabilities, 4) && f[28..32] == LE(r.maxTransact, 4) && f[32..36] == LE(r.maxRead, 4)
      && f[36..40] == LE(r.maxWrite, 4) && f[40..48] == LE(r.systemTime, 8) && f[48..56] == LE(r.startTime, 8)
      && f[56..58] == [128, 0] && f[58..60] == LE(|r.security| % 0x1_0000, 2)
      && (r.dialect != 0x0311 ==> f[60..64] == Zeros(4))
      && Body(r)[..64] == f && Body(r)[64..64 + |r.security|] == r.security
  {
    hide LE, FixedFront, Body, Fixed, Middle, Last;
    SmallLE();
    FrontAsWritten(r);
    MiddleAsWritten(r);
    LastAsWritten(r);
    BodyFront(r);
    FixedPieces(r);
    var f := Fixed(r);
    PrefixSlices(f, FixedFront(r));
    SliceOfSlice(f, 28, 56, 0, 4);
    SliceOfSlice(f, 28, 56, 4, 8);
    SliceOfSlice(f, 28, 56, 8, 12);
    SliceOfSlice(f, 28, 56, 12, 20);
    SliceOfSlice(f, 28, 56, 20, 28);
    assert f[56..64] == f[56..];
    SliceOfSlice(f, 56, 64, 0, 2);
    SliceOfSlice(f, 56, 64, 2, 4);
    SliceOfSlice(f, 56, 64, 4, 8);
  }

  lemma SliceOfSlice(s: seq<byte>, a: nat, b: nat, lo: nat, hi: nat)
    requires lo <= hi <= b - a && a <= b <= |s|
    ensures s[a..b][lo..hi] == s[a + lo..a + hi]
  {
    var x, y := s[a..b][lo..hi], s[a + lo..a + hi];
    assert forall i :: 0 <= i < hi - lo ==> x[i] == s[a..b][lo + i] == s[a + lo + i] == y[i];
  }

  function Middle(r: Response): (s: seq<byte>)
    ensures |s| == 28
  {
    LE(r.maxTransact, 4) + LE(r.maxRead, 4) + LE(r.maxWrite, 4) + LE(r.systemTime, 8) + LE(r.startTime, 8)
  }

  function Last(r: Response): (s: seq<byte>)
    ensures |s| == 8
  {
    LE(128, 2) + LE(|r.security| % 0x1_0000, 2) + LE(if r.dialect == SMB311 then (64 + ContextOffset(r)) % 0x1_0000_0000 else 0, 4)
  }

  lemma MiddleAsWritten(r: Response)
    ensures
      var m := Middle(r);
      m[0..4] == LE(r.maxTransact, 4) && m[4..8] == LE(r.maxRead, 4) && m[8..12] == LE(r.maxWrite, 4) && m[12..20] == LE(r.systemTime, 8) && m[20..28] == LE(r.startTime, 8)
  {
    hide LE;
    FiveSlices(LE(r.maxTransact, 4), LE(r.maxRead, 4), LE(r.maxWrite, 4), LE(r.systemTime, 8), LE(r.startTime, 8));
  }

  lemma FiveSlices(a: seq<byte>, b: seq<byte>, c: seq<byte>, d: seq<byte>, e: seq<byte>)
    requires |a| == |b| == |c| == 4 && |d| == |e| == 8
    ensures
      var m := a + b + c + d + e;
      m[0..4] == a && m[4..8] == b && m[8..12] == c && m[12..20] == d && m[20..28] == e
  {
    var m := a + b + c + d + e;
    assert m == a + (b + c + d + e);
    assert m[4..] == b + (c + d + e);
    assert m[8..] == c + (d + e);
    assert m[12..] == d + e;
    assert m[4..8] == m[4..][..4] && m[8..12] == m[8..][..4] && m[12..20] == m[12..][..8] && m[20..28] == m[12..][8..16];
  }

  lemma LastAsWritten(r: Response)
    ensures var z := Last(r); z[0..2] == LE(128, 2) && z[2..4] == LE(|r.security| % 0x1_0000, 2) && (r.dialect != SMB311 ==> z[4..8] == LE(0, 4))
  {
    hide LE, ContextOffset;
  }

  lemma FixedPieces(r: Response)
    ensures var f := Fixed(r); f[..28] == FixedFront(r) && f[28..56] == Middle(r) && f[56..] == Last(r)
  {
    hide LE, FixedFront, ContextOffset;
    assert Fixed(r) == FixedFront(r) + Middle(r) + Last(r);
  }

  lemma FrontAsWritten(r: Response)
    ensures
      var f := FixedFront(r);
      f[0..2] == LE(65, 2) && f[2..4] == LE(r.securityMode, 2) && f[4..6] == LE(r.dialect, 2) && f[8..24] == r.serverGuid && f[24..28] == LE(r.capabilities, 4)
  {
    hide LE;
    var pre := LE(65, 2) + LE(r.securityMode, 2) + LE(r.dialect, 2) + LE(|r.contexts| % 0x1_0000, 2);
    var f := FixedFront(r);
    assert f == pre + r.serverGuid + LE(r.capabilities, 4);
    assert f[0..2] == pre[0..2] && f[2..4] == pre[2..4] && f[4..6] == pre[4..6];
    assert f[8..24] == r.serverGuid && f[24..28] == LE(r.capabilities, 4);
  }

  lemma PrefixSlices(f: seq<byte>, front: seq<byte>)
    requires |front| == 28 <= |f| && f[..28] == front
    ensures f[0..2] == front[0..2] && f[2..4] == front[2..4] && f[4..6] == front[4..6] && f[8..24] == front[8..24] && f[24..28] == front[24..28]
  {
    assert forall i :: 0 <= i < 28 ==> f[i] == front[i];
  }

  lemma BodyFront(r: Response)
    ensures |Body(r)| >= 64 + |r.security| && Body(r)[..64] == Fixed(r) && Body(r)[64..64 + |r.security|] == r.security
  {
    hide Fixed, Section, Padding;
    var rest := if r.dialect == SMB311 then Zeros(Padding(64 + |r.security|)) + Section(r.contexts) else [];
    assert Body(r) == Fixed(r) + r.security + rest;
  }

  lemma SmallLE()
    ensures LE(65, 2) == [65, 0] && LE(128, 2) == [128, 0] && LE(0, 4) == Zeros(4)
  {
    assert LE(0, 1) == [0] && LE(0, 2) == [0] + LE(0, 1) && LE(0, 3) == [0] + LE(0, 2);
  }

  /** Reading at the offset and count that were written gives back the contexts exactly when their
      number and their lengths fit the 16-bit fields, whatever the security buffer. */
  lemma ContextsRoundTripIff(r: Response)
    requires r.dialect == SMB311 && 64 + ContextOffset(r) < 0x1_0000_0000
    ensures
      var b := Body(r);
      Contexts(b, Field(b, 60, 4) - 64, Field(b, 6, 2)) == Some(r.contexts) <==> |r.contexts| < 0x1_0000 && Fits(r.contexts)
  {
    hide Contexts, Section, Fixed, Field, ContextOffset, Padding, Body, Fits;
    FixedFields(r);
    var b, cs := Body(r), r.contexts;
    ReadsCount(b, ContextOffset(r), |cs| % 0x1_0000);
    BodySplits(r);
    SectionReadsIff(Front(r), cs);
  }

  function Front(r: Response): seq<byte> { Fixed(r) + r.security + Zeros(Padding(64 + |r.security|)) }

  lemma BodySplits(r: Response)
    requires r.dialect == SMB311
    ensures Body(r) == Front(r) + Section(r.contexts) && |Front(r)| == ContextOffset(r) && ContextOffset(r) % 8 == 0
  {
    hide Fixed, Section;
  }

  /** Every context stands on a multiple of eight, in the body and in the message behind its header. */
  lemma ContextsAligned(r: Response, i: nat)
    requires r.dialect == SMB311 && i < |r.contexts|
    ensures
      var at := ContextOffset(r) + |Section(r.contexts[..i])|;
      && at % 8 == 0 && (64 + at) % 8 == 0
      && at + |EncodeContext(r.contexts[i])| <= |Body(r)|
      && Body(r)[at..at + |EncodeContext(r.contexts[i])|] == EncodeContext(r.contexts[i])
  {
    hide EncodeContext, Fixed;
    RoomLeft(r, i);
    var at, cs, c := ContextOffset(r) + |Section(r.contexts[..i])|, r.contexts, r.contexts[i];
    AlignedSum(64, at);
    SectionSplits(cs, i);
    var pre := Front(r);
    BodySplits(r);
    hide Section;
    assert Body(r) == pre + (Section(cs[..i]) + EncodeContext(c) + Section(cs[i + 1..]));
    assert Body(r) == (pre + Section(cs[..i])) + EncodeContext(c) + Section(cs[i + 1..]);
  }

  lemma {:induction false} SectionSplits(cs: seq<Context>, i: nat)
    requires i < |cs|
    ensures Section(cs) == Section(cs[..i]) + EncodeContext(cs[i]) + Section(cs[i + 1..])
    decreases |cs|
  {
    hide EncodeContext;
    if i == |cs| - 1 {
      assert cs[i + 1..] == [];
    } else {
      var front := cs[..|cs| - 1];
      SectionSplits(front, i);
      assert front[..i] == cs[..i] && cs[i + 1..][..|cs| - 2 - i] == front[i + 1..];
      var last := EncodeContext(cs[|cs| - 1]);
      assert Section(cs[i + 1..]) == Section(front[i + 1..]) + last;
      hide Section;
      Associate(Section(cs[..i]) + EncodeContext(cs[i]), Section(front[i + 1..]), last);
    }
  }
}
