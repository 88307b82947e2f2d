/** QUERY_DIRECTORY: a cursor over a cached listing, served page by page. */
module Paging {
  import opened Bytes
  import opened DirEntries
  import Headers

  /** What the request says: whether to start over, the search pattern, the room for entries, the layout. */
  datatype Query = Query(restart: bool, pattern: string, limit: uint32, both: bool)

  /** The enumeration state of one open handle. */
  datatype Cursor = Cursor(done: bool, entries: seq<Info>, at: nat, pattern: string)

  datatype Reply = NoMoreFiles | Files(files: seq<Info>, buffer: seq<byte>)

  const FRESH := Cursor(false, [], 0, "")

  function Effective(pattern: string): string {
    if pattern == "" || pattern == "*.*" then "*" else pattern
  }

  // ------------------------------------------------------------ one page

  /** How many of the entries go on a page that already holds `used` bytes; the first always goes. */
  function Take(both: bool, es: seq<Info>, limit: uint32, used: nat, empty: bool): (n: nat)
    ensures n <= |es|
    ensures empty && es != [] ==> n > 0
    decreases |es|
  {
    if es == [] then 0
    else if !empty && used + FixedSize(both) + 2 * es[0].nameBytes > limit then 0
    else 1 + Take(both, es[1..], limit, used + EntrySize(both, es[0]), false)
  }

  /** If anything was added to a page that was not empty, the last name added ends within the limit. */
  lemma {:induction false} TakenWithinLimit(both: bool, es: seq<Info>, limit: uint32, used: nat)
    requires forall i :: 0 <= i < |es| ==> NameCounted(es[i])
    requires Take(both, es, limit, used, false) > 0
    ensures
      var n := Take(both, es, limit, used, false);
      used + PageSize(both, es[..n - 1]) + NameEnd(both, es[n - 1]) <= limit
    decreases |es|
  {
    hide EntrySize;
    assert NameCounted(es[0]);
    var rest, used' := es[1..], used + EntrySize(both, es[0]);
    var m := Take(both, rest, limit, used', false);
    if m == 0 {
      assert es[..0] == [];
    } else {
      TakenWithinLimit(both, rest, limit, used');
      assert es[..m][1..] == rest[..m - 1] && es[m] == rest[m - 1];
    }
  }

  lemma WithoutEnds(es: seq<Info>, n: nat)
    requires 2 <= n <= |es|
    ensures es[..n][..n - 1][1..] == es[1..][..n - 2]
    ensures es[..n][..n - 1][0] == es[0] && es[..n][n - 1] == es[1..][n - 2]
  {
  }

  /** On a page of two or more entries the last name ends within the room asked for, and the page
      exceeds it by at most the seven bytes of padding. */
  lemma PageWithinLimit(both: bool, es: seq<Info>, limit: uint32)
    requires forall i :: 0 <= i < |es| ==> NameCounted(es[i])
    requires Take(both, es, limit, 0, true) >= 2
    ensures
      var page := es[..Take(both, es, limit, 0, true)];
      && LastStart(both, page) + NameEnd(both, page[|page| - 1]) <= limit
      && |Page(both, page)| <= limit + 7
  {
    hide EntrySize, Take, Page;
    TakeOne(both, es, limit, 0, true);
    var n := Take(both, es, limit, 0, true);
    var page, first, rest := es[..n], EntrySize(both, es[0]), es[1..];
    TakenWithinLimit(both, rest, limit, first);
    WithoutEnds(es, n);
    LastStartFits(both, page);
  }

  // ---------------------------------------------------------------- one query

  /** The cursor once restart, pattern and cache are settled; `listing` is what enumerating the
      effective pattern would yield now, without error. */
  function Settled(c: Cursor, q: Query, listing: seq<Info>): Cursor {
    var c1 := if q.restart then c.(done := false, at := 0, entries := []) else c;
    var pattern := Effective(q.pattern);
    if !c1.done && (c1.entries == [] || c1.pattern != pattern) then Cursor(false, listing, 0, pattern) else c1
  }

  function Serve(c: Cursor, q: Query): (Cursor, Reply) {
    if c.done || c.at >= |c.entries| then (c.(done := true), NoMoreFiles)
    else
      var to := c.at + Take(q.both, c.entries[c.at..], q.limit, 0, true);
      (c.(at := to, done := to >= |c.entries|), Files(c.entries[c.at..to], Page(q.both, c.entries[c.at..to])))
  }

  lemma ServeNone(c: Cursor, q: Query)
    requires c.done || c.at >= |c.entries|
    ensures Serve(c, q) == (c.(done := true), NoMoreFiles)
  {
  }

  lemma ServeSome(c: Cursor, q: Query)
    requires !c.done && c.at < |c.entries|
    ensures
      var to := c.at + Take(q.both, c.entries[c.at..], q.limit, 0, true);
      Serve(c, q) == (Cursor(to >= |c.entries|, c.entries, to, c.pattern), Files(c.entries[c.at..to], Page(q.both, c.entries[c.at..to])))
  {
  }

  function Answer(c: Cursor, q: Query, listing: seq<Info>): (Cursor, Reply) {
    Serve(Settled(c, q, listing), q)
  }

  /** The response body of a success: size code, offset and length of the buffer, the buffer. */
  function Body(outLength: nat, buffer: seq<byte>): seq<byte> {
    LE(9, 2) + LE((outLength + 8) % 0x1_0000, 2) + LE(|buffer| % 0x1_0000_0000, 4) + buffer
  }

  /** The link of the entry at `entryStart` reads the distance to the next, and nothing else changes. */
  method SetNextEntryOffset(buf: seq<byte>, entryStart: nat, nextStart: nat) returns (r: seq<byte>)
    requires entryStart + 4 <= |buf| && entryStart <= nextStart
    ensures |r| == |buf| && Field(r, entryStart, 4) == (nextStart - entryStart) % 0x1_0000_0000
    ensures r[..entryStart] == buf[..entryStart] && r[entryStart + 4..] == buf[entryStart + 4..]
  {
    var distance := (nextStart - entryStart) % 0x1_0000_0000;
    PowFacts();
    PutFieldReads(buf, entryStart, 4, distance);
    PutFieldFrame(buf, entryStart, 4, distance, 0, entryStart);
    PutFieldFrame(buf, entryStart, 4, distance, entryStart + 4, |buf|);
    hide PutField, Field;
    r := PutField(buf, entryStart, 4, distance);
    WholeSlices(buf, entryStart);
    WholeSlices(r, entryStart);
  }

  lemma WholeSlices(b: seq<byte>, at: nat)
    requires at + 4 <= |b|
    ensures b[0..at] == b[..at] && b[at + 4..|b|] == b[at + 4..]
  {
  }

  /** A buffer is fixed by one of its fields and the bytes around it. */
  lemma FieldDetermines(b: seq<byte>, r: seq<byte>, off: nat, n: nat, v: nat)
    requires off + n <= |b| == |r| && Field(r, off, n) == v
    requires r[..off] == b[..off] && r[off + n..] == b[off + n..]
    ensures r == PutField(b, off, n, v)
  {
    UnLERoundTrip(r[off..off + n]);
    assert r == r[..off] + r[off..off + n] + r[off + n..];
  }

  /** The room left for the fixed part is filled in once the buffer stands. */
  method WriteBody(out: seq<byte>, buffer: seq<byte>) returns (r: seq<byte>)
    ensures r == out + Body(|out|, buffer)
  {
    hide LE;
    r := out + Zeros(8) + buffer;
    r := PutField(r, |out|, 2, 9);
    assert r == out + LE(9, 2) + Zeros(6) + buffer;
    r := PutField(r, |out| + 2, 2, (|out| + 8) % 0x1_0000);
    assert r == out + LE(9, 2) + LE((|out| + 8) % 0x1_0000, 2) + Zeros(4) + buffer;
    r := PutField(r, |out| + 4, 4, |buffer| % 0x1_0000_0000);
  }

  class DirHandle {
    var enumDone: bool
    var enumEntries: seq<Info>
    var enumCursor: nat
    var enumPattern: string

    ghost function View(): Cursor
      reads this
    {
      Cursor(enumDone, enumEntries, enumCursor, enumPattern)
    }

    constructor ()
      ensures View() == FRESH
    {
      enumDone := false;
      enumEntries := [];
      enumCursor := 0;
      enumPattern := "";
    }

    /** Appends the answer to `out`, the connection's response so far. */
    method QueryDirectory(q: Query, listing: seq<Info>, out: seq<byte>) returns (out': seq<byte>, ok: bool)
      modifies this
      ensures
        var (c, reply) := Answer(old(View()), q, listing);
        && View() == c
        && ok == reply.Files?
        && out' == out + (if ok then Body(|out|, reply.buffer) else Headers.ERROR_BODY)
    {
      hide Take, Page, LE, Body, Serve;
      ghost var settled := Settled(View(), q, listing);
      if q.restart {
        enumDone := false;
        enumCursor := 0;
        enumEntries := [];
      }
      if enumDone {
        ServeNone(settled, q);
        return out + Headers.ERROR_BODY, false;
      }
      var pattern := if q.pattern == "" || q.pattern == "*.*" then "*" else q.pattern;
      if enumEntries == [] || enumPattern != pattern {
        enumPattern := pattern;
        enumCursor := 0;
        enumEntries := listing;
      }
      assert View() == settled;
      hide Settled;
      if enumCursor >= |enumEntries| {
        ServeNone(settled, q);
        enumDone := true;
        return out + Headers.ERROR_BODY, false;
      }
      ServeSome(settled, q);
      var buffer := FillPage(q.both, q.limit);
      out' := WriteBody(out, buffer);
      if enumCursor >= |enumEntries| { enumDone := true; }
      ok := true;
    }

    /** The filling loop: encode, link the previous entry, advance the cursor. */
    method FillPage(both: bool, limit: uint32) returns (buffer: seq<byte>)
      requires enumCursor < |enumEntries|
      modifies this`enumCursor
      ensures
        var n := Take(both, enumEntries[old(enumCursor)..], limit, 0, true);
        && enumCursor == old(enumCursor) + n
        && buffer == Page(both, enumEntries[old(enumCursor)..enumCursor])
    {
      hide Take, Page, PageSize, LastStart, EntrySize, EncodeEntry, PutField, Field;
      buffer := [];
      var prevEntryStart: int := -1;
      var empty := true;
      ghost var start, es := enumCursor, enumEntries;
      ghost var total := Take(both, es[start..], limit, 0, true);
      NothingYet(both, es, start);
      while enumCursor < |enumEntries|
        invariant start <= enumCursor <= |enumEntries|
        invariant empty == (enumCursor == start) == (prevEntryStart == -1)
        invariant buffer == Page(both, es[start..enumCursor])
        invariant !empty ==> prevEntryStart == LastStart(both, es[start..enumCursor])
        invariant total == enumCursor - start + Take(both, es[enumCursor..], limit, |buffer|, empty)
      {
        var fi := enumEntries[enumCursor];
        TakeOne(both, es[enumCursor..], limit, |buffer|, empty);
        if !empty && |buffer| + (FixedSize(both) + 2 * fi.nameBytes) > limit {
          return;
        }
        OneMore(both, es, start, enumCursor);
        var entryStart;
        buffer, entryStart := AppendEntry(buffer, both, fi);
        if prevEntryStart >= 0 {
          LinkOnPage(both, es[start..enumCursor], fi);
          ghost var unlinked := buffer;
          buffer := SetNextEntryOffset(buffer, prevEntryStart, entryStart);
          FieldDetermines(unlinked, buffer, prevEntryStart, 4, (entryStart - prevEntryStart) % 0x1_0000_0000);
        }
        prevEntryStart := entryStart;
        empty := false;
        enumCursor := enumCursor + 1;
      }
      NoneLeft(both, es, limit, |buffer|, empty);
    }
  }

  lemma NothingYet(both: bool, es: seq<Info>, start: nat)
    requires start < |es|
    ensures Page(both, es[start..start]) == []
  {
  }

  lemma NoneLeft(both: bool, es: seq<Info>, limit: uint32, used: nat, empty: bool)
    ensures Take(both, es[|es|..], limit, used, empty) == 0
  {
  }

  /** One round of the filling loop, as Take sees it. */
  lemma TakeOne(both: bool, es: seq<Info>, limit: uint32, used: nat, empty: bool)
    requires es != []
    ensures
      var full := !empty && used + (FixedSize(both) + 2 * es[0].nameBytes) > limit;
      Take(both, es, limit, used, empty)
      == if full then 0 else 1 + Take(both, es[1..], limit, used + EntrySize(both, es[0]), false)
  {
  }

  /** The page after one more entry. */
  lemma OneMore(both: bool, es: seq<Info>, start: nat, at: nat)
    requires start <= at < |es|
    ensures es[start..at + 1] == es[start..at] + [es[at]]
    ensures es[at..][0] == es[at] && es[at..][1..] == es[at + 1..]
    ensures PageSize(both, es[start..at + 1]) == PageSize(both, es[start..at]) + EntrySize(both, es[at])
    ensures LastStart(both, es[start..at + 1]) == PageSize(both, es[start..at])
    ensures start == at ==> Page(both, es[start..at + 1]) == EncodeEntry(both, es[at], 0)
  {
    hide EntrySize, EncodeEntry;
    var got := es[start..at];
    assert es[start..at + 1] == got + [es[at]];
    PageSizeSnoc(both, got, es[at]);
    assert (got + [es[at]])[..|got|] == got;
  }

  lemma PutFieldBefore(b: seq<byte>, tail: seq<byte>, off: nat, n: nat, v: nat)
    requires off + n <= |b|
    ensures PutField(b + tail, off, n, v) == PutField(b, off, n, v) + tail
  {
    hide LE;
    assert (b + tail)[..off] == b[..off] && (b + tail)[off + n..] == b[off + n..] + tail;
  }

  /** Setting the link once the next entry stands gives the longer page. */
  lemma LinkOnPage(both: bool, got: seq<Info>, fi: Info)
    requires got != []
    ensures LastStart(both, got) + 4 <= |Page(both, got)|
    ensures
      var at := LastStart(both, got);
      var buf := Page(both, got) + EncodeEntry(both, fi, 0);
      PutField(buf, at, 4, (|Page(both, got)| - at) % 0x1_0000_0000) == Page(both, got + [fi])
  {
    hide EncodeEntry, EntrySize, Page, PageSize, PutField;
    LastStartFits(both, got);
    PageSnoc(both, got, fi);
    PutFieldBefore(Page(both, got), EncodeEntry(both, fi, 0), LastStart(both, got), 4, EntrySize(both, got[|got| - 1]) % 0x1_0000_0000);
  }

  // ---------------------------------------------------------------- whole runs

  /** One query together with what the directory would list at that moment, and the output it is answered
      behind: earlier responses of the same message and the room for its own header. */
  datatype Ask = Ask(q: Query, listing: seq<Info>, out: seq<byte>)

  function Replies(c: Cursor, asks: seq<Ask>): (rs: seq<Reply>)
    ensures |rs| == |asks|
    decreases |asks|
  {
    if asks == [] then [] else
      var (c', r) := Answer(c, asks[0].q, asks[0].listing);
      [r] + Replies(c', asks[1..])
  }

  function Delivered(rs: seq<Reply>): seq<Info> {
    if rs == [] then [] else (if rs[0].Files? then rs[0].files else []) + Delivered(rs[1..])
  }

  /** The query makes the handle enumerate afresh. */
  predicate Begins(c: Cursor, q: Query) {
    q.restart || (!c.done && (c.entries == [] || c.pattern != Effective(q.pattern)))
  }

  predicate Continues(q: Query, pattern: string) {
    !q.restart && Effective(q.pattern) == pattern
  }

  /** The handle after `k` entries of listing `l`. */
  function Position(l: seq<Info>, pattern: string, k: nat): Cursor {
    Cursor(k >= |l|, l, k, pattern)
  }

  /** The rest of a scan, entry `k` onwards, page by page and then nothing. */
  ghost predicate Pages(rs: seq<Reply>, l: seq<Info>, k: nat)
    requires k <= |l|
    decreases |rs|
  {
    rs == [] ||
    if k == |l| then rs[0].NoMoreFiles? && Pages(rs[1..], l, k)
    else
      && rs[0].Files? && rs[0].files != [] && rs[0].files <= l[k..]
      && Pages(rs[1..], l, k + |rs[0].files|)
  }

  lemma ServeAt(l: seq<Info>, pattern: string, k: nat, q: Query)
    requires k < |l|
    ensures
      var (c, r) := Serve(Cursor(false, l, k, pattern), q);
      && r.Files? && r.files != [] && k + |r.files| <= |l| && r.files == l[k..k + |r.files|]
      && r.buffer == Page(q.both, r.files) && c == Position(l, pattern, k + |r.files|)
  {
    hide Take, Page;
    ServeSome(Cursor(false, l, k, pattern), q);
    assert l[k..] != [];
  }

  lemma StepAt(l: seq<Info>, pattern: string, k: nat, a: Ask)
    requires k <= |l| && Continues(a.q, pattern)
    ensures
      var (c, r) := Answer(Position(l, pattern, k), a.q, a.listing);
      && (k == |l| ==> r == NoMoreFiles && c == Position(l, pattern, k))
      && (k < |l| ==> r.Files? && r.files != [] && k + |r.files| <= |l| && r.files == l[k..k + |r.files|]
                      && r.buffer == Page(a.q.both, r.files) && c == Position(l, pattern, k + |r.files|))
  {
    hide Serve, Page;
    if k == |l| {
      ServeNone(Position(l, pattern, k), a.q);
    } else {
      ServeAt(l, pattern, k, a.q);
    }
  }

  /** A query that begins a scan answers like one at the front of the listing it then makes. */
  lemma StepBegins(c: Cursor, a: Ask)
    requires Begins(c, a.q)
    ensures Answer(c, a.q, a.listing) == Serve(Cursor(false, a.listing, 0, Effective(a.q.pattern)), a.q)
  {
    hide Serve;
  }

  lemma {:induction false} ScanFrom(l: seq<Info>, pattern: string, k: nat, asks: seq<Ask>)
    requires k <= |l| && forall i :: 0 <= i < |asks| ==> Continues(asks[i].q, pattern)
    ensures Pages(Replies(Position(l, pattern, k), asks), l, k)
    decreases |asks|
  {
    hide Answer, Position, Page;
    if asks != [] {
      assert Continues(asks[0].q, pattern);
      StepAt(l, pattern, k, asks[0]);
      var (c, r) := Answer(Position(l, pattern, k), asks[0].q, asks[0].listing);
      var k' := if k == |l| then k else k + |r.files|;
      ScanFrom(l, pattern, k', asks[1..]);
      assert Replies(Position(l, pattern, k), asks)[1..] == Replies(c, asks[1..]);
    }
  }

  /** A page-by-page scan delivers a prefix, at least one entry a page, and stops only when all is delivered. */
  lemma {:induction false} PagesDeliver(rs: seq<Reply>, l: seq<Info>, k: nat)
    requires k <= |l| && Pages(rs, l, k)
    ensures Delivered(rs) <= l[k..]
    ensures |Delivered(rs)| >= |rs| || Delivered(rs) == l[k..]
    decreases |rs|
  {
    if rs != [] {
      var n := if k == |l| then 0 else |rs[0].files|;
      PagesDeliver(rs[1..], l, k + n);
      assert l[k..] == l[k..k + n] + l[k + n..];
      assert k < |l| ==> rs[0].files == l[k..][..n] == l[k..k + n];
    }
  }

  lemma {:induction false} PageIffUndelivered(rs: seq<Reply>, l: seq<Info>, k: nat, i: nat)
    requires k <= |l| && Pages(rs, l, k) && i < |rs|
    ensures rs[i].Files? <==> Delivered(rs[..i]) != l[k..]
    ensures rs[i].Files? ==> rs[i].files != []
    decreases |rs|
  {
    if i > 0 {
      var n := if k == |l| then 0 else |rs[0].files|;
      PageIffUndelivered(rs[1..], l, k + n, i - 1);
      assert rs[..i][1..] == rs[1..][..i - 1];
      assert l[k..] == l[k..k + n] + l[k + n..];
      assert k < |l| ==> rs[0].files == l[k..][..n] == l[k..k + n];
      var d := Delivered(rs[1..][..i - 1]);
      assert Delivered(rs[..i]) == l[k..k + n] + d;
      assert (l[k..k + n] + d)[n..] == d && l[k..][n..] == l[k + n..];
    }
  }

  lemma BegunScan(c: Cursor, asks: seq<Ask>)
    requires asks != [] && Begins(c, asks[0].q)
    requires forall i :: 0 < i < |asks| ==> Continues(asks[i].q, Effective(asks[0].q.pattern))
    ensures Pages(Replies(c, asks), asks[0].listing, 0)
  {
    hide Answer, Position, Page;
    var l, pattern, a := asks[0].listing, Effective(asks[0].q.pattern), asks[0];
    StepBegins(c, a);
    var (c', r) := Answer(c, a.q, a.listing);
    var k := if l == [] then 0 else |r.files|;
    if l == [] {
      ServeNone(Cursor(false, l, 0, pattern), a.q);
    } else {
      ServeAt(l, pattern, 0, a.q);
      assert l[0..] == l;
    }
    AfterFirst(l, pattern, k, c');
    ScanFrom(l, pattern, k, asks[1..]);
    assert Replies(c, asks)[1..] == Replies(c', asks[1..]);
  }

  lemma AfterFirst(l: seq<Info>, pattern: string, k: nat, c: Cursor)
    requires if l == [] then k == 0 && c == Cursor(true, l, 0, pattern) else c == Position(l, pattern, k)
    ensures c == Position(l, pattern, k)
  {
  }

  /** Paging refines the listing: however the pages fall and whatever the directory does meanwhile,
      the answers to a scan are the listing made when it began, in order and once each; every page
      brings at least one entry; and NO_MORE_FILES comes exactly when everything was delivered. */
  lemma PagingRefinesListing(c: Cursor, asks: seq<Ask>)
    requires asks != [] && Begins(c, asks[0].q)
    requires forall i :: 0 < i < |asks| ==> Continues(asks[i].q, Effective(asks[0].q.pattern))
    ensures
      var rs, l := Replies(c, asks), asks[0].listing;
      && Delivered(rs) <= l
      && (|asks| >= |l| ==> Delivered(rs) == l)
      && (forall i :: 0 <= i < |rs| ==> (rs[i].Files? <==> Delivered(rs[..i]) != l))
      && (forall i :: 0 <= i < |rs| && rs[i].Files? ==> rs[i].files != [])
  {
    hide Answer, Replies, Begins, Continues, Delivered, Pages;
    var rs, l := Replies(c, asks), asks[0].listing;
    BegunScan(c, asks);
    PagesDeliver(rs, l, 0);
    assert l[0..] == l;
    forall i | 0 <= i < |rs|
      ensures rs[i].Files? <==> Delivered(rs[..i]) != l
      ensures rs[i].Files? ==> rs[i].files != []
    {
      PageIffUndelivered(rs, l, 0, i);
    }
  }

  /** Once a scan is over, only a restart brings entries again, whatever the pattern. */
  lemma {:induction false} OverUntilRestart(c: Cursor, asks: seq<Ask>)
    requires c.done && forall i :: 0 <= i < |asks| ==> !asks[i].q.restart
    ensures forall i :: 0 <= i < |asks| ==> Replies(c, asks)[i] == NoMoreFiles
    decreases |asks|
  {
    hide Serve;
    if asks != [] {
      assert !asks[0].q.restart;
      ServeNone(c, asks[0].q);
      OverUntilRestart(c, asks[1..]);
    }
  }

  /** Patterns share a scan if they are equal or all three ways to ask for everything. */
  lemma SharedScanIff(p: string, q: string)
    ensures Effective(p) == Effective(q) <==> p == q || (p in {"", "*", "*.*"} && q in {"", "*", "*.*"})
  {
  }

  lemma {:induction false} TakesWhatFits(both: bool, es: seq<Info>, limit: uint32, used: nat, empty: bool)
    ensures
      var n := Take(both, es, limit, used, empty);
      n < |es| ==> !(empty && n == 0) && used + PageSize(both, es[..n]) + (if both then 104 else 64) + 2 * es[n].nameBytes > limit
    decreases |es|
  {
    hide EntrySize;
    var n := Take(both, es, limit, used, empty);
    if 0 < n < |es| {
      TakesWhatFits(both, es[1..], limit, used + EntrySize(both, es[0]), false);
      assert es[..n][1..] == es[1..][..n - 1] && es[1..][n - 1] == es[n];
    }
  }

  /** A page is left unfilled only if the next entry does not fit: its fixed part and two bytes for each byte of its
      name go past the limit. */
  lemma PageIsFull(c: Cursor, a: Ask)
    ensures
      var (c', r) := Answer(c, a.q, a.listing);
      r.Files? && !c'.done ==>
        && c'.at < |c'.entries|
        && |r.buffer| + (if a.q.both then 104 else 64) + 2 * c'.entries[c'.at].nameBytes > a.q.limit
  {
    hide Settled, Take, Page;
    var s := Settled(c, a.q, a.listing);
    if !s.done && s.at < |s.entries| {
      var rest := s.entries[s.at..];
      TakesWhatFits(a.q.both, rest, a.q.limit, 0, true);
      var n := Take(a.q.both, rest, a.q.limit, 0, true);
      assert s.entries[s.at..s.at + n] == rest[..n];
    }
  }

  // ---------------------------------------------------------------- what the client decodes

  /** What a client takes for the buffer: the response says how far from its own header it begins and how long it is. */
  function Located(out: seq<byte>, respStart: nat): Option<seq<byte>> {
    if respStart + 72 > |out| then None
    else
      var from, length := respStart + Field(out, respStart + 66, 2), Field(out, respStart + 68, 4);
      if from + length > |out| then None else Some(out[from..from + length])
  }

  lemma BodyFields(out: seq<byte>, buffer: seq<byte>)
    requires |out| >= 64
    ensures
      var all, respStart := out + Body(|out|, buffer), |out| - 64;
      && |all| == respStart + 72 + |buffer| && all[respStart + 72..] == buffer
      && Field(all, respStart + 64, 2) == 9 && Field(all, respStart + 66, 2) == (respStart + 72) % 0x1_0000 && Field(all, respStart + 68, 4) == |buffer| % 0x1_0000_0000
  {
    hide LE, UnLE;
    PowFacts();
    LERoundTrip(9, 2);
    LERoundTrip((|out| + 8) % 0x1_0000, 2);
    LERoundTrip(|buffer| % 0x1_0000_0000, 4);
    var b := Body(|out|, buffer);
    assert b[0..2] == LE(9, 2) && (out + b)[|out|..|out| + 2] == b[0..2];
    assert b[2..4] == LE((|out| + 8) % 0x1_0000, 2) && b[4..8] == LE(|buffer| % 0x1_0000_0000, 4) && b[8..] == buffer;
    assert (out + b)[|out| + 2..|out| + 4] == b[2..4] && (out + b)[|out| + 4..|out| + 8] == b[4..8] && (out + b)[|out| + 8..] == b[8..];
  }

  /** The offset the code writes counts from the front of the whole output. It is the 72 bytes from the
      response's own header exactly when the response starts at a multiple of 65536. */
  lemma OffsetRightIff(out: seq<byte>, buffer: seq<byte>)
    requires |out| >= 64
    ensures Field(out + Body(|out|, buffer), |out| + 2, 2) == 72 <==> (|out| - 64) % 0x1_0000 == 0
  {
    hide Field;
    BodyFields(out, buffer);
    SeventyTwo(|out| - 64);
  }

  lemma SeventyTwo(n: nat)
    ensures (n + 72) % 0x1_0000 == 72 <==> n % 0x1_0000 == 0
  {
    var q, r := n / 0x1_0000, n % 0x1_0000;
    assert n == 0x1_0000 * q + r;
    if r < 0x1_0000 - 72 {
      assert (n + 72) / 0x1_0000 == q;
    } else {
      assert (n + 72) / 0x1_0000 == q + 1;
    }
  }

  lemma LocatedWhenRight(out: seq<byte>, buffer: seq<byte>)
    requires |out| >= 64 && (|out| - 64) % 0x1_0000 == 0 && |buffer| < 0x1_0000_0000
    ensures Located(out + Body(|out|, buffer), |out| - 64) == Some(buffer)
  {
    hide Field, Body;
    BodyFields(out, buffer);
    OffsetRightIff(out, buffer);
    var all := out + Body(|out|, buffer);
    assert all[|out| + 8..|out| + 8 + |buffer|] == all[|out| + 8..];
  }

  /** Short of 65528 bytes into the message, only the first response leads its client to the buffer; behind
      another response the client is sent past the end. */
  lemma LocatedIffFirst(out: seq<byte>, buffer: seq<byte>)
    requires 64 <= |out| < 0x1_0000 - 8 && |buffer| < 0x1_0000_0000
    ensures Located(out + Body(|out|, buffer), |out| - 64) == Some(buffer) <==> |out| == 64
    ensures |out| > 64 ==> Located(out + Body(|out|, buffer), |out| - 64) == None
  {
    hide Field, Body;
    BodyFields(out, buffer);
    if |out| == 64 {
      LocatedWhenRight(out, buffer);
    }
  }

  /** The entries a client finds: it locates each buffer in the response and follows its links. */
  function Decoded(rs: seq<Reply>, asks: seq<Ask>): seq<Found>
    requires |rs| == |asks|
  {
    if rs == [] then []
    else
      var buffer := if rs[0].Files? && |asks[0].out| >= 64 then Located(asks[0].out + Body(|asks[0].out|, rs[0].buffer), |asks[0].out| - 64) else None;
      var here := if buffer.Some? then Walk(asks[0].q.both, buffer.value, 0) else None;
      (if here.Some? then Unplaced(here.value) else []) + Decoded(rs[1..], asks[1..])
  }

  function Unplaced(fs: seq<Found>): (r: seq<Found>)
    ensures |r| == |fs|
  {
    if fs == [] then [] else [fs[0].(offset := 0)] + Unplaced(fs[1..])
  }

  function Described(es: seq<Info>): seq<Found> {
    if es == [] then [] else [Seen(es[0], 0)] + Described(es[1..])
  }

  lemma {:induction false} UnplacedSeen(both: bool, es: seq<Info>, offset: nat)
    ensures Unplaced(SeenAll(both, es, offset)) == Described(es)
    decreases |es|
  {
    hide EntrySize;
    if es != [] {
      UnplacedSeen(both, es[1..], offset + EntrySize(both, es[0]));
      assert SeenAll(both, es, offset)[1..] == SeenAll(both, es[1..], offset + EntrySize(both, es[0]));
    }
  }

  lemma {:induction false} DescribedSplits(a: seq<Info>, b: seq<Info>)
    ensures Described(a + b) == Described(a) + Described(b)
    decreases |a|
  {
    if a == [] {
      assert a + b == b;
    } else {
      assert (a + b)[1..] == a[1..] + b;
      DescribedSplits(a[1..], b);
    }
  }

  /** The response starts where the offset it carries is right. */
  predicate WellPlaced(a: Ask) { |a.out| >= 64 && (|a.out| - 64) % 0x1_0000 == 0 }

  predicate Sound(r: Reply, a: Ask) {
    r.Files? ==>
      && r.files != [] && r.buffer == Page(a.q.both, r.files) && |r.buffer| < 0x1_0000_0000
      && forall i :: 0 <= i < |r.files| ==> Representable(a.q.both, r.files[i])
  }

  /** If every page is the encoding of its entries, the client decodes what was delivered. */
  lemma {:induction false} DecodedIsDelivered(rs: seq<Reply>, asks: seq<Ask>)
    requires |rs| == |asks| && forall i :: 0 <= i < |rs| ==> Sound(rs[i], asks[i]) && WellPlaced(asks[i])
    ensures Decoded(rs, asks) == Described(Delivered(rs))
    decreases |rs|
  {
    hide Walk, Page, Representable, SeenAll, Located, Body;
    if rs != [] {
      DecodedIsDelivered(rs[1..], asks[1..]);
      assert Sound(rs[0], asks[0]) && WellPlaced(asks[0]);
      var files := if rs[0].Files? then rs[0].files else [];
      if rs[0].Files? {
        LocatedWhenRight(asks[0].out, rs[0].buffer);
        WalkFindsPage(asks[0].q.both, files, 0);
        UnplacedSeen(asks[0].q.both, files, 0);
      }
      DescribedSplits(files, Delivered(rs[1..]));
    }
  }

  lemma AnswerEncodes(c: Cursor, a: Ask)
    ensures
      var r := Answer(c, a.q, a.listing).1;
      r.Files? ==> r.files != [] && r.buffer == Page(a.q.both, r.files)
  {
    hide Serve, Settled, Page;
    var s := Settled(c, a.q, a.listing);
    if s.done || s.at >= |s.entries| {
      ServeNone(s, a.q);
    } else {
      ServeAt(s.entries, s.pattern, s.at, a.q);
    }
  }

  lemma {:induction false} RepliesEncode(c: Cursor, asks: seq<Ask>)
    ensures
      var rs := Replies(c, asks);
      forall i :: 0 <= i < |rs| && rs[i].Files? ==> rs[i].files != [] && rs[i].buffer == Page(asks[i].q.both, rs[i].files)
    decreases |asks|
  {
    hide Answer, Page;
    if asks != [] {
      AnswerEncodes(c, asks[0]);
      RepliesEncode(Answer(c, asks[0].q, asks[0].listing).0, asks[1..]);
    }
  }

  lemma {:induction false} PagesFromListing(rs: seq<Reply>, l: seq<Info>, k: nat, i: nat, j: nat)
    requires k <= |l| && Pages(rs, l, k) && i < |rs| && rs[i].Files? && j < |rs[i].files|
    ensures rs[i].files[j] in l
    decreases |rs|
  {
    if i == 0 {
      assert rs[0].files[j] == l[k..][j];
    } else {
      PagesFromListing(rs[1..], l, if k == |l| then k else k + |rs[0].files|, i - 1, j);
    }
  }

  /** A reply's entries fit the length field. */
  lemma BufferFits(c: Cursor, a: Ask)
    requires forall e :: e in c.entries || e in a.listing ==> NameCounted(e)
    requires a.q.limit <= 0xFFFF_FFF8
    ensures
      var r := Answer(c, a.q, a.listing).1;
      r.Files? && (|r.files| == 1 ==> EntrySize(a.q.both, r.files[0]) < 0x1_0000_0000) ==> |r.buffer| < 0x1_0000_0000
  {
    hide Answer, EntrySize, LastStart, NameEnd;
    AnswerEncodes(c, a);
    ReplyWithinLimit(c, a);
    var r := Answer(c, a.q, a.listing).1;
    if r.Files? && |r.files| == 1 {
      OneEntryPage(a.q.both, r.files);
    }
  }

  lemma OneEntryPage(both: bool, es: seq<Info>)
    requires |es| == 1
    ensures |Page(both, es)| == EntrySize(both, es[0])
  {
  }

  lemma {:induction false} RepliesFit(c: Cursor, asks: seq<Ask>)
    requires forall e :: e in c.entries ==> NameCounted(e)
    requires forall i, e :: 0 <= i < |asks| && e in asks[i].listing ==> NameCounted(e)
    requires forall i :: 0 <= i < |asks| ==> asks[i].q.limit <= 0xFFFF_FFF8
    ensures
      var rs := Replies(c, asks);
      forall i :: 0 <= i < |rs| && rs[i].Files? && (|rs[i].files| == 1 ==> EntrySize(asks[i].q.both, rs[i].files[0]) < 0x1_0000_0000) ==>
        |rs[i].buffer| < 0x1_0000_0000
    decreases |asks|
  {
    hide Answer, EntrySize, NameCounted;
    if asks != [] {
      BufferFits(c, asks[0]);
      AnswerKeepsEntries(c, asks[0]);
      RepliesFit(Answer(c, asks[0].q, asks[0].listing).0, asks[1..]);
    }
  }

  lemma AnswerKeepsEntries(c: Cursor, a: Ask)
    ensures var es := Answer(c, a.q, a.listing).0.entries; es == c.entries || es == a.listing || es == []
  {
    hide Settled, Take, Page;
    SettledEntries(c, a);
  }

  /** Down to the bytes: from responses that start where their offset is right, a client that locates each
      buffer and follows its links decodes the listing. */
  lemma {:induction false} ClientDecodesListing(c: Cursor, asks: seq<Ask>)
    requires asks != [] && Begins(c, asks[0].q)
    requires forall i :: 0 < i < |asks| ==> Continues(asks[i].q, Effective(asks[0].q.pattern))
    requires forall i :: 0 <= i < |asks| ==> WellPlaced(asks[i]) && asks[i].q.limit <= 0xFFFF_FFF8
    requires forall e, both :: e in asks[0].listing ==> Representable(both, e)
    requires forall e :: e in c.entries ==> NameCounted(e)
    requires forall i, e :: 0 <= i < |asks| && e in asks[i].listing ==> NameCounted(e)
    ensures Decoded(Replies(c, asks), asks) == Described(Delivered(Replies(c, asks)))
    ensures |asks| >= |asks[0].listing| ==> Decoded(Replies(c, asks), asks) == Described(asks[0].listing)
  {
    hide Answer, Replies, Begins, Continues, Delivered, Pages, Page, Representable, Decoded, Described, NameCounted, EntrySize;
    var rs := Replies(c, asks);
    PagingRefinesListing(c, asks);
    BegunScan(c, asks);
    RepliesEncode(c, asks);
    RepliesFit(c, asks);
    forall i | 0 <= i < |rs|
      ensures Sound(rs[i], asks[i])
    {
      if rs[i].Files? {
        forall j | 0 <= j < |rs[i].files|
          ensures Representable(asks[i].q.both, rs[i].files[j]) && EntrySize(asks[i].q.both, rs[i].files[j]) < 0x1_0000_0000
        {
          PagesFromListing(rs, asks[0].listing, 0, i, j);
          RepresentableFits(asks[i].q.both, rs[i].files[j]);
        }
      }
    }
    DecodedIsDelivered(rs, asks);
  }

  lemma RepresentableFits(both: bool, e: Info)
    requires Representable(both, e)
    ensures EntrySize(both, e) < 0x1_0000_0000
  {
  }

  /** A page of two or more entries keeps to the room the client offered, up to the last padding. */
  lemma ReplyWithinLimit(c: Cursor, a: Ask)
    requires forall e :: e in c.entries || e in a.listing ==> NameCounted(e)
    ensures
      var r := Answer(c, a.q, a.listing).1;
      r.Files? && |r.files| >= 2 ==>
        && LastStart(a.q.both, r.files) + NameEnd(a.q.both, r.files[|r.files| - 1]) <= a.q.limit
        && |r.buffer| <= a.q.limit + 7
  {
    hide Serve, Settled, LastStart, NameEnd, NameCounted;
    SettledEntries(c, a);
    ServedWithinLimit(Settled(c, a.q, a.listing), a.q);
  }

  lemma SettledEntries(c: Cursor, a: Ask)
    ensures var es := Settled(c, a.q, a.listing).entries; es == c.entries || es == a.listing || es == []
  {
  }

  lemma ServedWithinLimit(s: Cursor, q: Query)
    requires forall i :: 0 <= i < |s.entries| ==> NameCounted(s.entries[i])
    ensures
      var r := Serve(s, q).1;
      r.Files? && |r.files| >= 2 ==>
        && LastStart(q.both, r.files) + NameEnd(q.both, r.files[|r.files| - 1]) <= q.limit
        && |r.buffer| <= q.limit + 7
  {
    hide Serve, Page, Take, LastStart, NameEnd, NameCounted;
    if s.done || s.at >= |s.entries| {
      ServeNone(s, q);
    } else {
      ServeSome(s, q);
      var es := s.entries[s.at..];
      var n := Take(q.both, es, q.limit, 0, true);
      assert es[..n] == s.entries[s.at..s.at + n];
      if n >= 2 {
        PageWithinLimit(q.both, es, q.limit);
      }
    }
  }
}
