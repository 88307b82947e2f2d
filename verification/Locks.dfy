/** The byte-range lock table of one path, and the LOCK request that runs on it. */
module Locks {
  import opened Bytes
  import opened FileIds

  datatype LockRange = LockRange(fileId: FileId, start: uint64, end: uint64, exclusive: bool)

  /** One element of a LOCK request; `flags` are the wire bits. */
  datatype LockElement = LockElement(offset: uint64, length: uint64, flags: uint32)

  datatype Status = Success | InvalidParameter | InvalidHandle | LockConflict

  /** Addition of 64-bit unsigned integers wraps. */
  function Add64(a: uint64, b: uint64): uint64 {
    (a + b) % 0x1_0000_0000_0000_0000
  }

  predicate HasUnlock(l: LockElement) { Bit(l.flags, 2) }
  predicate HasExclusive(l: LockElement) { Bit(l.flags, 1) }
  predicate HasShared(l: LockElement) { Bit(l.flags, 0) }

  /** The element is neither empty nor wraps around the end of the 64-bit range. */
  predicate ValidRange(l: LockElement) {
    l.length != 0 && Add64(l.offset, l.length) >= l.offset
  }

  /** The element takes a lock: an exclusive or shared bit and no unlock bit. */
  predicate TakesLock(l: LockElement) {
    !HasUnlock(l) && (HasExclusive(l) || HasShared(l))
  }

  function RangeOf(fid: FileId, l: LockElement): LockRange {
    LockRange(fid, l.offset, Add64(l.offset, l.length), HasExclusive(l))
  }

  // ------------------------------------------------------- table operations

  predicate Overlap(start: uint64, end: uint64, r: LockRange) {
    start < r.end && r.start < end
  }

  predicate Conflicts(ranges: seq<LockRange>, fid: FileId, start: uint64, end: uint64, exclusive: bool) {
    exists i :: 0 <= i < |ranges| && Overlap(start, end, ranges[i])
             && (ranges[i].exclusive || exclusive)
             && (ranges[i].fileId != fid || ranges[i].exclusive != exclusive)
  }

  /** The test made before a READ (`write` false) or a WRITE. */
  predicate AccessConflicts(ranges: seq<LockRange>, fid: FileId, start: uint64, end: uint64, write: bool) {
    exists i :: 0 <= i < |ranges| && Overlap(start, end, ranges[i])
             && ranges[i].fileId != fid && (ranges[i].exclusive || write)
  }

  predicate SameRange(r: LockRange, fid: FileId, start: uint64, end: uint64) {
    r.fileId == fid && r.start == start && r.end == end
  }

  /** The table without its first entry of that file and range. */
  function Unlock(ranges: seq<LockRange>, fid: FileId, start: uint64, end: uint64): (r: seq<LockRange>)
    ensures |r| <= |ranges|
  {
    if ranges == [] then []
    else if SameRange(ranges[0], fid, start, end) then ranges[1..]
    else [ranges[0]] + Unlock(ranges[1..], fid, start, end)
  }

  /** The entries of one file (`mine`), or of all the others, in table order. */
  function Select(ranges: seq<LockRange>, fid: FileId, mine: bool): seq<LockRange>
  {
    if ranges == [] then []
    else (if (ranges[0].fileId == fid) == mine then [ranges[0]] else []) + Select(ranges[1..], fid, mine)
  }

  lemma {:induction false} SelectHas(ranges: seq<LockRange>, fid: FileId, mine: bool, r: LockRange)
    ensures r in Select(ranges, fid, mine) <==> r in ranges && (r.fileId == fid) == mine
  {
    if ranges != [] {
      SelectHas(ranges[1..], fid, mine, r);
      assert ranges == [ranges[0]] + ranges[1..];
    }
  }

  function Held(ranges: seq<LockRange>, fid: FileId): multiset<LockRange> {
    multiset(Select(ranges, fid, true))
  }

  function UnlockAll(ranges: seq<LockRange>, fid: FileId): seq<LockRange> {
    Select(ranges, fid, false)
  }

  // -------------------------------------------------------- table invariant

  predicate Compatible(a: LockRange, b: LockRange) {
    !Overlap(a.start, a.end, b)
    || (!a.exclusive && !b.exclusive)
    || (a.exclusive && b.exclusive && a.fileId == b.fileId)
  }

  /** Entries are nonempty, and two that overlap are both shared, or both exclusive for one file. */
  predicate Consistent(ranges: seq<LockRange>) {
    && (forall i :: 0 <= i < |ranges| ==> ranges[i].start < ranges[i].end)
    && (forall i, j :: 0 <= i < j < |ranges| ==> Compatible(ranges[i], ranges[j]))
  }

  /** The conflict test admits an entry exactly when the table stays consistent with it. */
  lemma AdmittedIffConsistent(ranges: seq<LockRange>, x: LockRange)
    requires Consistent(ranges) && x.start < x.end
    ensures !Conflicts(ranges, x.fileId, x.start, x.end, x.exclusive) <==> Consistent(ranges + [x])
  {
    var after := ranges + [x];
    if !Conflicts(ranges, x.fileId, x.start, x.end, x.exclusive) {
      forall i, j | 0 <= i < j < |after| ensures Compatible(after[i], after[j]) {
        if j == |ranges| { assert after[j] == x && after[i] == ranges[i]; }
      }
    } else {
      var i :| 0 <= i < |ranges| && Overlap(x.start, x.end, ranges[i])
            && (ranges[i].exclusive || x.exclusive)
            && (ranges[i].fileId != x.fileId || ranges[i].exclusive != x.exclusive);
      assert !Compatible(after[i], after[|ranges|]);
    }
  }

  function RemoveAt(ranges: seq<LockRange>, at: nat): seq<LockRange>
    requires at < |ranges|
  {
    ranges[..at] + ranges[at + 1..]
  }

  lemma {:induction false} UnlockSplits(ranges: seq<LockRange>, fid: FileId, start: uint64, end: uint64) returns (at: nat)
    ensures at <= |ranges|
    ensures forall i :: 0 <= i < at ==> !SameRange(ranges[i], fid, start, end)
    ensures at == |ranges| ==> Unlock(ranges, fid, start, end) == ranges
    ensures at < |ranges| ==> SameRange(ranges[at], fid, start, end)
    ensures at < |ranges| ==> Unlock(ranges, fid, start, end) == RemoveAt(ranges, at)
  {
    if ranges == [] {
      at := 0;
    } else if SameRange(ranges[0], fid, start, end) {
      at := 0;
    } else {
      var k := UnlockSplits(ranges[1..], fid, start, end);
      at := k + 1;
      assert ranges == [ranges[0]] + ranges[1..];
      if at < |ranges| {
        assert RemoveAt(ranges, at) == [ranges[0]] + RemoveAt(ranges[1..], k);
      }
    }
  }

  lemma UnlockKeepsConsistent(ranges: seq<LockRange>, fid: FileId, start: uint64, end: uint64)
    requires Consistent(ranges)
    ensures Consistent(Unlock(ranges, fid, start, end))
  {
    var at := UnlockSplits(ranges, fid, start, end);
    if at < |ranges| {
      var after := ranges[..at] + ranges[at + 1..];
      forall i, j | 0 <= i < j < |after| ensures Compatible(after[i], after[j]) {
        assert after[i] == ranges[if i < at then i else i + 1];
        assert after[j] == ranges[if j < at then j else j + 1];
      }
    }
  }

  lemma {:induction false} UnlockAllKeepsConsistent(ranges: seq<LockRange>, fid: FileId)
    requires Consistent(ranges)
    ensures Consistent(UnlockAll(ranges, fid))
  {
    if ranges != [] {
      var rest := ranges[1..];
      assert Consistent(rest) by {
        assert forall i :: 0 <= i < |rest| ==> rest[i] == ranges[i + 1];
      }
      UnlockAllKeepsConsistent(rest, fid);
      var tail := UnlockAll(rest, fid);
      assert ranges == [ranges[0]] + rest;
      if ranges[0].fileId != fid {
        var after := [ranges[0]] + tail;
        forall i, j | 0 <= i < j < |after| ensures Compatible(after[i], after[j]) {
          assert after[j] == tail[j - 1];
          if i == 0 {
            SelectHas(rest, fid, false, after[j]);
            var k :| 0 <= k < |rest| && rest[k] == after[j];
            assert rest[k] == ranges[k + 1];
          }
        }
      }
    }
  }

  lemma Assoc(a: seq<LockRange>, b: seq<LockRange>, c: seq<LockRange>)
    ensures a + (b + c) == (a + b) + c
  {
  }

  lemma {:induction false} SelectConcat(a: seq<LockRange>, b: seq<LockRange>, fid: FileId, mine: bool)
    ensures Select(a + b, fid, mine) == Select(a, fid, mine) + Select(b, fid, mine)
  {
    if a == [] {
      assert a + b == b;
    } else {
      var head := if (a[0].fileId == fid) == mine then [a[0]] else [];
      assert (a + b)[0] == a[0] && (a + b)[1..] == a[1..] + b;
      SelectConcat(a[1..], b, fid, mine);
      Assoc(head, Select(a[1..], fid, mine), Select(b, fid, mine));
    }
  }

  /** Adding an entry adds it to its own file's holdings and to no other file's. */
  lemma HeldAfterLock(ranges: seq<LockRange>, x: LockRange, fid: FileId)
    ensures Held(ranges + [x], fid) == Held(ranges, fid) + (if x.fileId == fid then multiset{x} else multiset{})
    ensures x.fileId == fid ==> Select(ranges + [x], fid, false) == Select(ranges, fid, false)
  {
    SelectConcat(ranges, [x], fid, true);
    SelectConcat(ranges, [x], fid, false);
    assert Select([x], fid, true) == if x.fileId == fid then [x] else [];
  }

  /** Because equal ranges of one file are equal entries, unlock takes away exactly the entry named. */
  lemma HeldAfterUnlock(ranges: seq<LockRange>, x: LockRange, fid: FileId)
    requires Consistent(ranges)
    requires x.fileId == fid ==> x in Held(ranges, fid)
    ensures Held(Unlock(ranges, x.fileId, x.start, x.end), fid)
         == Held(ranges, fid) - (if x.fileId == fid then multiset{x} else multiset{})
    ensures x.fileId == fid ==> Select(Unlock(ranges, x.fileId, x.start, x.end), fid, false) == Select(ranges, fid, false)
  {
    var at := UnlockSplits(ranges, x.fileId, x.start, x.end);
    if x.fileId == fid {
      SelectHas(ranges, fid, true, x);
      var k :| 0 <= k < |ranges| && ranges[k] == x;
      assert SameRange(ranges[k], x.fileId, x.start, x.end);
      assert ranges[at] == x by { SameRangeSameEntry(ranges, at, k); }
    }
    if at < |ranges| {
      HeldRemoved(ranges, at, fid);
      if x.fileId == fid { OthersRemoved(ranges, at, fid); }
    }
  }

  lemma {:induction false} SelectAround(ranges: seq<LockRange>, at: nat, fid: FileId, mine: bool)
    requires at < |ranges|
    ensures Select(ranges, fid, mine)
         == Select(ranges[..at], fid, mine)
            + (if (ranges[at].fileId == fid) == mine then [ranges[at]] else [])
            + Select(ranges[at + 1..], fid, mine)
    ensures Select(RemoveAt(ranges, at), fid, mine)
         == Select(ranges[..at], fid, mine) + Select(ranges[at + 1..], fid, mine)
  {
    assert ranges == ranges[..at] + ranges[at..];
    SelectConcat(ranges[..at], ranges[at..], fid, mine);
    assert ranges[at..][1..] == ranges[at + 1..];
    SelectConcat(ranges[..at], ranges[at + 1..], fid, mine);
  }

  lemma MultisetWithout(pre: seq<LockRange>, x: LockRange, post: seq<LockRange>)
    ensures multiset(pre + post) == multiset(pre + [x] + post) - multiset{x}
  {
    assert multiset(pre + [x] + post) == multiset(pre) + multiset{x} + multiset(post);
  }

  lemma {:induction false} HeldRemoved(ranges: seq<LockRange>, at: nat, fid: FileId)
    requires at < |ranges|
    ensures Held(RemoveAt(ranges, at), fid)
         == Held(ranges, fid) - (if ranges[at].fileId == fid then multiset{ranges[at]} else multiset{})
  {
    var pre, x, post := Select(ranges[..at], fid, true), ranges[at], Select(ranges[at + 1..], fid, true);
    var all, left := Select(ranges, fid, true), Select(RemoveAt(ranges, at), fid, true);
    assert left == pre + post && all == pre + (if x.fileId == fid then [x] else []) + post by {
      SelectAround(ranges, at, fid, true);
    }
    if x.fileId == fid {
      MultisetWithout(pre, x, post);
    } else {
      assert all == left;
    }
  }

  lemma {:induction false} OthersRemoved(ranges: seq<LockRange>, at: nat, fid: FileId)
    requires at < |ranges| && ranges[at].fileId == fid
    ensures Select(RemoveAt(ranges, at), fid, false) == Select(ranges, fid, false)
  {
    SelectAround(ranges, at, fid, false);
    var pre, post := Select(ranges[..at], fid, false), Select(ranges[at + 1..], fid, false);
    assert pre + [] + post == pre + post;
  }

  lemma SameRangeSameEntry(ranges: seq<LockRange>, i: nat, k: nat)
    requires Consistent(ranges) && i < |ranges| && k < |ranges|
    requires SameRange(ranges[i], ranges[k].fileId, ranges[k].start, ranges[k].end)
    ensures ranges[i] == ranges[k]
  {
    if i < k { assert Compatible(ranges[i], ranges[k]); }
    if k < i { assert Compatible(ranges[k], ranges[i]); }
  }

  lemma {:induction false} HeldAfterUnlockAll(ranges: seq<LockRange>, gone: FileId, fid: FileId)
    ensures Held(UnlockAll(ranges, gone), fid) == if fid == gone then multiset{} else Held(ranges, fid)
  {
    if ranges != [] {
      HeldAfterUnlockAll(ranges[1..], gone, fid);
      var tail, all := UnlockAll(ranges[1..], gone), UnlockAll(ranges, gone);
      if ranges[0].fileId == gone {
        assert all == tail;
      } else {
        assert all[0] == ranges[0] && all[1..] == tail;
      }
    }
  }

  // ------------------------------------------------------------ enforcement

  /** An admitted access meets no other open's exclusive lock; an admitted write, no lock of another open. */
  lemma AdmittedAccess(ranges: seq<LockRange>, fid: FileId, start: uint64, end: uint64, write: bool)
    ensures !AccessConflicts(ranges, fid, start, end, write)
       <==> forall r :: r in ranges && r.fileId != fid && (write || r.exclusive) ==> !Overlap(start, end, r)
  {
    if !AccessConflicts(ranges, fid, start, end, write) {
      forall r | r in ranges && r.fileId != fid && (write || r.exclusive) ensures !Overlap(start, end, r) {
        var i :| 0 <= i < |ranges| && ranges[i] == r;
      }
    } else {
      var i :| 0 <= i < |ranges| && Overlap(start, end, ranges[i])
            && ranges[i].fileId != fid && (ranges[i].exclusive || write);
      assert ranges[i] in ranges;
    }
  }

  /** The holder of a range is not refused inside it: writes need an exclusive hold, reads any. */
  lemma HolderNotRefused(ranges: seq<LockRange>, hold: LockRange, start: uint64, end: uint64, write: bool)
    requires Consistent(ranges) && hold in ranges
    requires hold.start <= start <= end <= hold.end
    requires write ==> hold.exclusive
    ensures !AccessConflicts(ranges, hold.fileId, start, end, write)
  {
    var k :| 0 <= k < |ranges| && ranges[k] == hold;
    forall i | 0 <= i < |ranges| && Overlap(start, end, ranges[i]) && ranges[i].fileId != hold.fileId
      ensures !(ranges[i].exclusive || write)
    {
      if i < k { assert Compatible(ranges[i], ranges[k]); }
      if k < i { assert Compatible(ranges[k], ranges[i]); }
    }
  }

  // -------------------------------------------------------- the LOCK request

  datatype Outcome = Outcome(ranges: seq<LockRange>, status: Status)

  function RollBack(ranges: seq<LockRange>, fid: FileId, acquired: seq<LockElement>): seq<LockRange>
    decreases |acquired|
  {
    if acquired == [] then ranges
    else
      var l := acquired[0];
      RollBack(Unlock(ranges, fid, l.offset, Add64(l.offset, l.length)), fid, acquired[1..])
  }

  /** The request from its next element on, with what it acquired so far. */
  function RunLock(ranges: seq<LockRange>, fid: FileId, locks: seq<LockElement>, acquired: seq<LockElement>): Outcome
    decreases |locks|
  {
    if locks == [] then Outcome(ranges, Success)
    else
      var l := locks[0];
      var r := RangeOf(fid, l);
      if !ValidRange(l) then Outcome(RollBack(ranges, fid, acquired), InvalidParameter)
      else if HasUnlock(l) then RunLock(Unlock(ranges, fid, r.start, r.end), fid, locks[1..], acquired)
      else if !HasExclusive(l) && !HasShared(l) then Outcome(ranges, InvalidParameter)
      else if Conflicts(ranges, fid, r.start, r.end, r.exclusive) then Outcome(RollBack(ranges, fid, acquired), LockConflict)
      else RunLock(ranges + [r], fid, locks[1..], acquired + [l])
  }

  class LockManager {
    var ranges: seq<LockRange>

    constructor ()
      ensures ranges == []
    {
      ranges := [];
    }

    method ConflictsWith(fid: FileId, start: uint64, end: uint64, exclusive: bool) returns (found: bool)
      ensures found == Conflicts(ranges, fid, start, end, exclusive)
    {
      var i := 0;
      while i < |ranges|
        invariant 0 <= i <= |ranges|
        invariant !Conflicts(ranges[..i], fid, start, end, exclusive)
      {
        var r := ranges[i];
        if start < r.end && r.start < end {
          if r.exclusive || exclusive {
            if r.fileId != fid || r.exclusive != exclusive {
              assert Overlap(start, end, ranges[i]);
              return true;
            }
          }
        }
        assert ranges[..i + 1] == ranges[..i] + [r];
        assert forall k :: 0 <= k < i ==> ranges[..i + 1][k] == ranges[..i][k];
        i := i + 1;
      }
      assert ranges[..i] == ranges;
      return false;
    }

    method CheckConflict(fid: FileId, start: uint64, end: uint64, write: bool) returns (found: bool)
      ensures found == AccessConflicts(ranges, fid, start, end, write)
    {
      var i := 0;
      while i < |ranges|
        invariant 0 <= i <= |ranges|
        invariant !AccessConflicts(ranges[..i], fid, start, end, write)
      {
        var r := ranges[i];
        if start < r.end && r.start < end && r.fileId != fid {
          if r.exclusive || write {
            assert Overlap(start, end, ranges[i]);
            return true;
          }
        }
        assert forall k :: 0 <= k < i ==> ranges[..i + 1][k] == ranges[..i][k];
        i := i + 1;
      }
      assert ranges[..i] == ranges;
      return false;
    }

    method TryLock(fid: FileId, start: uint64, length: uint64, exclusive: bool) returns (ok: bool)
      modifies this
      ensures ok == !Conflicts(old(ranges), fid, start, Add64(start, length), exclusive)
      ensures ok ==> ranges == old(ranges) + [LockRange(fid, start, Add64(start, length), exclusive)]
      ensures !ok ==> ranges == old(ranges)
    {
      var end := Add64(start, length);
      var found := ConflictsWith(fid, start, end, exclusive);
      if found { return false; }
      ranges := ranges + [LockRange(fid, start, end, exclusive)];
      return true;
    }

    method Release(fid: FileId, start: uint64, length: uint64)
      modifies this
      ensures ranges == Unlock(old(ranges), fid, start, Add64(start, length))
    {
      var end := Add64(start, length);
      ghost var at := UnlockSplits(ranges, fid, start, end);
      var i := 0;
      while i < |ranges|
        invariant 0 <= i <= at && i <= |ranges|
        invariant ranges == old(ranges)
      {
        if ranges[i].fileId == fid && ranges[i].start == start && ranges[i].end == end {
          assert SameRange(ranges[i], fid, start, end);
          ranges := ranges[..i] + ranges[i + 1..];
          return;
        }
        i := i + 1;
      }
    }

    method ReleaseAll(fid: FileId)
      modifies this
      ensures ranges == UnlockAll(old(ranges), fid)
    {
      var filtered := [];
      var i := 0;
      while i < |ranges|
        invariant 0 <= i <= |ranges|
        invariant ranges == old(ranges)
        invariant filtered == UnlockAll(ranges[..i], fid)
      {
        assert ranges[..i + 1] == ranges[..i] + [ranges[i]];
        SelectConcat(ranges[..i], [ranges[i]], fid, false);
        if ranges[i].fileId != fid {
          filtered := filtered + [ranges[i]];
        }
        i := i + 1;
      }
      assert ranges[..i] == ranges;
      ranges := filtered;
    }
  }

  method Undo(lm: LockManager, fid: FileId, acquired: seq<LockElement>)
    modifies lm
    ensures lm.ranges == RollBack(old(lm.ranges), fid, acquired)
  {
    var i := 0;
    while i < |acquired|
      invariant 0 <= i <= |acquired|
      invariant RollBack(lm.ranges, fid, acquired[i..]) == RollBack(old(lm.ranges), fid, acquired)
    {
      assert acquired[i..][1..] == acquired[i + 1..];
      lm.Release(fid, acquired[i].offset, acquired[i].length);
      i := i + 1;
    }
  }

  // What one element does, in the numbers of the wire: 4 unlocks, 2 locks exclusively, 1 locks shared.

  /** The first entry of that file and range is gone, if there was one. */
  ghost predicate OneFewer(before: seq<LockRange>, fid: FileId, start: nat, end: nat, after: seq<LockRange>) {
    exists i: nat :: i <= |before| && FirstGone(before, fid, start, end, after, i)
  }

  ghost predicate FirstGone(before: seq<LockRange>, fid: FileId, start: nat, end: nat, after: seq<LockRange>, i: nat)
    requires i <= |before|
  {
    && (forall j :: 0 <= j < i ==> !(before[j].fileId == fid && before[j].start == start && before[j].end == end))
    && if i == |before| then after == before
       else before[i].fileId == fid && before[i].start == start && before[i].end == end && after == before[..i] + before[i + 1..]
  }

  /** An entry stands in the way: it overlaps, and the two are neither both shared nor both exclusive for one file. */
  ghost predicate StandsAgainst(r: LockRange, fid: FileId, start: nat, end: nat, exclusive: bool) {
    && r.start < end && start < r.end
    && !(!r.exclusive && !exclusive) && !(r.exclusive && exclusive && r.fileId == fid)
  }

  ghost predicate TakenOrRefused(before: seq<LockRange>, fid: FileId, start: nat, end: nat, exclusive: bool, after: seq<LockRange>, status: Status) {
    if exists i :: 0 <= i < |before| && StandsAgainst(before[i], fid, start, end, exclusive)
    then status == LockConflict && after == before
    else
      && status == Success && |after| == |before| + 1 && after[..|before|] == before
      && var x := after[|before|];
      && x.fileId == fid && x.start == start && x.end == end && x.exclusive == exclusive
  }

  ghost predicate Decides(before: seq<LockRange>, fid: FileId, l: LockElement, after: seq<LockRange>, status: Status) {
    var start, end := l.offset, l.offset + l.length;
    if l.length == 0 || end >= 0x1_0000_0000_0000_0000 then status == InvalidParameter && after == before
    else if l.flags / 4 % 2 == 1 then status == Success && OneFewer(before, fid, start, end, after)
    else if l.flags / 2 % 2 == 1 then TakenOrRefused(before, fid, start, end, true, after, status)
    else if l.flags % 2 == 1 then TakenOrRefused(before, fid, start, end, false, after, status)
    else status == InvalidParameter && after == before
  }

  lemma FlagBits(flags: uint32)
    ensures Bit(flags, 2) == (flags / 4 % 2 == 1) && Bit(flags, 1) == (flags / 2 % 2 == 1) && Bit(flags, 0) == (flags % 2 == 1)
  {
    assert Bit(flags, 1) == Bit(flags / 2, 0);
    assert Bit(flags, 2) == Bit(flags / 2, 1) == Bit(flags / 2 / 2, 0);
    assert flags / 2 / 2 == flags / 4;
  }

  lemma ConflictsInWords(ranges: seq<LockRange>, fid: FileId, start: uint64, end: uint64, exclusive: bool)
    ensures Conflicts(ranges, fid, start, end, exclusive)
       <==> exists i :: 0 <= i < |ranges| && StandsAgainst(ranges[i], fid, start, end, exclusive)
  {
    if i :| 0 <= i < |ranges| && StandsAgainst(ranges[i], fid, start, end, exclusive) {
      assert Overlap(start, end, ranges[i]);
    }
    if Conflicts(ranges, fid, start, end, exclusive) {
      var i :| 0 <= i < |ranges| && Overlap(start, end, ranges[i]) && (ranges[i].exclusive || exclusive)
            && (ranges[i].fileId != fid || ranges[i].exclusive != exclusive);
      assert StandsAgainst(ranges[i], fid, start, end, exclusive);
    }
  }

  lemma UnlockTakesOne(ranges: seq<LockRange>, fid: FileId, start: uint64, end: uint64)
    ensures OneFewer(ranges, fid, start, end, Unlock(ranges, fid, start, end))
  {
    var at := UnlockSplits(ranges, fid, start, end);
    hide Unlock;
    assert FirstGone(ranges, fid, start, end, Unlock(ranges, fid, start, end), at);
  }

  lemma OneElement(ranges: seq<LockRange>, fid: FileId, l: LockElement)
    ensures var out := RunLock(ranges, fid, [l], []); Decides(ranges, fid, l, out.ranges, out.status)
  {
    hide Unlock, Conflicts, OneFewer, StandsAgainst, Bit;
    FlagBits(l.flags);
    var r := RangeOf(fid, l);
    UnlockTakesOne(ranges, fid, r.start, r.end);
    ConflictsInWords(ranges, fid, r.start, r.end, r.exclusive);
    assert [l][1..] == [];
  }

  /** `live` says whether the tree has an open with this identifier; `lm` is the manager of its path. */
  method HandleLock(lm: LockManager, live: bool, fid: FileId, locks: seq<LockElement>) returns (status: Status)
    modifies lm
    ensures !live ==> status == InvalidHandle && lm.ranges == old(lm.ranges)
    ensures live ==> Outcome(lm.ranges, status) == RunLock(old(lm.ranges), fid, locks, [])
    ensures live && |locks| == 1 ==> Decides(old(lm.ranges), fid, locks[0], lm.ranges, status)
  {
    hide Decides;
    if !live { return InvalidHandle; }
    if |locks| == 1 {
      assert locks == [locks[0]];
      OneElement(lm.ranges, fid, locks[0]);
    }
    var acquired := [];
    var i := 0;
    while i < |locks|
      invariant 0 <= i <= |locks|
      invariant RunLock(lm.ranges, fid, locks[i..], acquired) == RunLock(old(lm.ranges), fid, locks, [])
    {
      var l := locks[i];
      assert locks[i..][0] == l && locks[i..][1..] == locks[i + 1..];
      if l.length == 0 || Add64(l.offset, l.length) < l.offset {
        Undo(lm, fid, acquired);
        return InvalidParameter;
      }
      if HasUnlock(l) {
        lm.Release(fid, l.offset, l.length);
      } else if HasExclusive(l) {
        var ok := lm.TryLock(fid, l.offset, l.length, true);
        if !ok {
          Undo(lm, fid, acquired);
          return LockConflict;
        }
        acquired := acquired + [l];
      } else if HasShared(l) {
        var ok := lm.TryLock(fid, l.offset, l.length, false);
        if !ok {
          Undo(lm, fid, acquired);
          return LockConflict;
        }
        acquired := acquired + [l];
      } else {
        return InvalidParameter;
      }
      i := i + 1;
    }
    return Success;
  }

  // --------------------------------------------------- properties of requests

  function RangesOf(fid: FileId, locks: seq<LockElement>): seq<LockRange> {
    seq(|locks|, i requires 0 <= i < |locks| => RangeOf(fid, locks[i]))
  }

  predicate UnlockFree(locks: seq<LockElement>) {
    forall i :: 0 <= i < |locks| ==> !HasUnlock(locks[i])
  }

  lemma RangesOfFirst(fid: FileId, locks: seq<LockElement>)
    requires locks != []
    ensures multiset(RangesOf(fid, locks)) == multiset{RangeOf(fid, locks[0])} + multiset(RangesOf(fid, locks[1..]))
  {
    assert RangesOf(fid, locks) == [RangeOf(fid, locks[0])] + RangesOf(fid, locks[1..]);
  }

  lemma RangesOfLast(fid: FileId, locks: seq<LockElement>, l: LockElement)
    ensures multiset(RangesOf(fid, locks + [l])) == multiset(RangesOf(fid, locks)) + multiset{RangeOf(fid, l)}
  {
    assert RangesOf(fid, locks + [l]) == RangesOf(fid, locks) + [RangeOf(fid, l)];
  }

  lemma TakenRangeIsNonempty(fid: FileId, l: LockElement)
    requires ValidRange(l)
    ensures RangeOf(fid, l).start < RangeOf(fid, l).end == l.offset + l.length
  {
  }

  /** Taking back everything acquired leaves what the file held before. */
  lemma {:induction false} RollBackRestores(ranges: seq<LockRange>, fid: FileId, acquired: seq<LockElement>, before: multiset<LockRange>)
    requires Consistent(ranges)
    requires Held(ranges, fid) == before + multiset(RangesOf(fid, acquired))
    ensures Consistent(RollBack(ranges, fid, acquired))
    ensures Held(RollBack(ranges, fid, acquired), fid) == before
    ensures Select(RollBack(ranges, fid, acquired), fid, false) == Select(ranges, fid, false)
    decreases |acquired|
  {
    if acquired != [] {
      var x := RangeOf(fid, acquired[0]);
      RangesOfFirst(fid, acquired);
      HeldAfterUnlock(ranges, x, fid);
      UnlockKeepsConsistent(ranges, fid, x.start, x.end);
      UnlockKeepsOthers(ranges, fid, x.start, x.end);
      RollBackRestores(Unlock(ranges, fid, x.start, x.end), fid, acquired[1..], before);
    }
  }

  lemma {:induction false} RollBackKeepsOthers(ranges: seq<LockRange>, fid: FileId, acquired: seq<LockElement>)
    requires Consistent(ranges)
    ensures Consistent(RollBack(ranges, fid, acquired))
    ensures Select(RollBack(ranges, fid, acquired), fid, false) == Select(ranges, fid, false)
    decreases |acquired|
  {
    if acquired != [] {
      var x := RangeOf(fid, acquired[0]);
      UnlockKeepsOthers(ranges, fid, x.start, x.end);
      UnlockKeepsConsistent(ranges, fid, x.start, x.end);
      RollBackKeepsOthers(Unlock(ranges, fid, x.start, x.end), fid, acquired[1..]);
    }
  }

  lemma UnlockKeepsOthers(ranges: seq<LockRange>, fid: FileId, start: uint64, end: uint64)
    ensures Select(Unlock(ranges, fid, start, end), fid, false) == Select(ranges, fid, false)
  {
    var at := UnlockSplits(ranges, fid, start, end);
    if at < |ranges| { OthersRemoved(ranges, at, fid); }
  }

  /** Any request at all keeps the table consistent and the entries of other files, in order. */
  lemma {:induction false} RequestKeepsTable(ranges: seq<LockRange>, fid: FileId, locks: seq<LockElement>, acquired: seq<LockElement>)
    requires Consistent(ranges)
    ensures Consistent(RunLock(ranges, fid, locks, acquired).ranges)
    ensures Select(RunLock(ranges, fid, locks, acquired).ranges, fid, false) == Select(ranges, fid, false)
    decreases |locks|
  {
    RollBackKeepsOthers(ranges, fid, acquired);
    if locks != [] && ValidRange(locks[0]) {
      var r := RangeOf(fid, locks[0]);
      if HasUnlock(locks[0]) {
        UnlockKeepsOthers(ranges, fid, r.start, r.end);
        UnlockKeepsConsistent(ranges, fid, r.start, r.end);
        RequestKeepsTable(Unlock(ranges, fid, r.start, r.end), fid, locks[1..], acquired);
      } else if TakesLock(locks[0]) && !Conflicts(ranges, fid, r.start, r.end, r.exclusive) {
        TakenRangeIsNonempty(fid, locks[0]);
        AdmittedIffConsistent(ranges, r);
        HeldAfterLock(ranges, r, fid);
        RequestKeepsTable(ranges + [r], fid, locks[1..], acquired + [locks[0]]);
      }
    }
  }

  // ------------------------------------------------ what a request leaves its file holding

  /** The element can be carried out: a valid range, to lock or to unlock. */
  predicate Works(l: LockElement) { ValidRange(l) && (HasUnlock(l) || TakesLock(l)) }

  /** The first element at which every request stops that gets so far. */
  function FirstStop(locks: seq<LockElement>): (k: nat)
    ensures k <= |locks|
    ensures forall i :: 0 <= i < k ==> Works(locks[i])
    ensures k < |locks| ==> !Works(locks[k])
  {
    if locks == [] || !Works(locks[0]) then 0 else 1 + FirstStop(locks[1..])
  }

  /** One entry of that range less, if there is one; its kind does not matter. */
  function Without(h: multiset<LockRange>, fid: FileId, start: uint64, end: uint64): multiset<LockRange> {
    var x, y := LockRange(fid, start, end, true), LockRange(fid, start, end, false);
    if x in h then h - multiset{x} else if y in h then h - multiset{y} else h
  }

  /** The holdings after these elements, each locking or unlocking. */
  function After(h: multiset<LockRange>, fid: FileId, done: seq<LockElement>): multiset<LockRange> {
    if done == [] then h
    else
      var l, p := done[|done| - 1], After(h, fid, done[..|done| - 1]);
      var r := RangeOf(fid, l);
      if HasUnlock(l) then Without(p, fid, r.start, r.end) else p + multiset{r}
  }

  /** The elements among these that lock. */
  function Takes(done: seq<LockElement>): seq<LockElement> {
    if done == [] then []
    else Takes(done[..|done| - 1]) + if HasUnlock(done[|done| - 1]) then [] else [done[|done| - 1]]
  }

  /** The holdings after unlocking each of these in turn. */
  function Stripped(h: multiset<LockRange>, fid: FileId, ls: seq<LockElement>): multiset<LockRange>
    decreases |ls|
  {
    if ls == [] then h
    else Stripped(Without(h, fid, ls[0].offset, Add64(ls[0].offset, ls[0].length)), fid, ls[1..])
  }

  /** What remains of a request that carried out `done` and then, perhaps, took its locks back. */
  function Left(h: multiset<LockRange>, fid: FileId, done: seq<LockElement>, undo: bool): multiset<LockRange> {
    var a := After(h, fid, done);
    if undo then Stripped(a, fid, Takes(done)) else a
  }

  /** Entries of one file and range are alike. */
  ghost predicate Uniform(h: multiset<LockRange>) {
    forall x, y :: x in h && y in h && SameRange(x, y.fileId, y.start, y.end) ==> x == y
  }

  lemma HeldIsUniform(ranges: seq<LockRange>, fid: FileId)
    requires Consistent(ranges)
    ensures Uniform(Held(ranges, fid)) && forall x :: x in Held(ranges, fid) ==> x.fileId == fid
  {
    var mine := Select(ranges, fid, true);
    forall x, y | x in Held(ranges, fid) && y in Held(ranges, fid) && SameRange(x, y.fileId, y.start, y.end) ensures x == y {
      assert x in mine && y in mine;
      SelectHas(ranges, fid, true, x);
      SelectHas(ranges, fid, true, y);
      var i :| 0 <= i < |ranges| && ranges[i] == x;
      var k :| 0 <= k < |ranges| && ranges[k] == y;
      SameRangeSameEntry(ranges, i, k);
    }
    forall x | x in Held(ranges, fid) ensures x.fileId == fid {
      assert x in mine;
      SelectHas(ranges, fid, true, x);
    }
  }

  /** On the holdings, unlocking the first match takes away one entry of the range. */
  lemma UnlockOnHoldings(ranges: seq<LockRange>, fid: FileId, start: uint64, end: uint64)
    requires Consistent(ranges)
    ensures Held(Unlock(ranges, fid, start, end), fid) == Without(Held(ranges, fid), fid, start, end)
  {
    hide Consistent, Held, Unlock;
    var x, y, h := LockRange(fid, start, end, true), LockRange(fid, start, end, false), Held(ranges, fid);
    if x in h {
      HeldAfterUnlock(ranges, x, fid);
    } else if y in h {
      HeldAfterUnlock(ranges, y, fid);
    } else {
      NothingToUnlock(ranges, fid, start, end);
    }
  }

  lemma NothingToUnlock(ranges: seq<LockRange>, fid: FileId, start: uint64, end: uint64)
    requires forall e :: LockRange(fid, start, end, e) !in Held(ranges, fid)
    ensures Unlock(ranges, fid, start, end) == ranges
  {
    var at := UnlockSplits(ranges, fid, start, end);
    if at < |ranges| {
      var r := ranges[at];
      SelectHas(ranges, fid, true, r);
      assert false;
    }
  }

  lemma {:induction false} RollBackOnHoldings(ranges: seq<LockRange>, fid: FileId, acquired: seq<LockElement>)
    requires Consistent(ranges)
    ensures Held(RollBack(ranges, fid, acquired), fid) == Stripped(Held(ranges, fid), fid, acquired)
    decreases |acquired|
  {
    hide Consistent, Held, Unlock;
    if acquired != [] {
      var start, end := acquired[0].offset, Add64(acquired[0].offset, acquired[0].length);
      UnlockOnHoldings(ranges, fid, start, end);
      UnlockKeepsConsistent(ranges, fid, start, end);
      RollBackOnHoldings(Unlock(ranges, fid, start, end), fid, acquired[1..]);
    }
  }

  lemma AfterOne(h: multiset<LockRange>, fid: FileId, locks: seq<LockElement>, next: nat)
    requires next < |locks|
    ensures
      var l, p := locks[next], After(h, fid, locks[..next]);
      var r := RangeOf(fid, l);
      After(h, fid, locks[..next + 1]) == if HasUnlock(l) then Without(p, fid, r.start, r.end) else p + multiset{r}
    ensures Takes(locks[..next + 1]) == Takes(locks[..next]) + if HasUnlock(locks[next]) then [] else [locks[next]]
  {
    assert locks[..next + 1][..next] == locks[..next];
  }

  /** One element carried out, on the table and on the holdings. */
  lemma CarryOut(ranges: seq<LockRange>, fid: FileId, locks: seq<LockElement>, next: nat, before: multiset<LockRange>)
    requires Consistent(ranges) && next < |locks| && Works(locks[next]) && Held(ranges, fid) == After(before, fid, locks[..next])
    requires var r := RangeOf(fid, locks[next]); HasUnlock(locks[next]) || !Conflicts(ranges, fid, r.start, r.end, r.exclusive)
    ensures
      var r := RangeOf(fid, locks[next]);
      var after := if HasUnlock(locks[next]) then Unlock(ranges, fid, r.start, r.end) else ranges + [r];
      Consistent(after) && Held(after, fid) == After(before, fid, locks[..next + 1])
  {
    hide Consistent, Held, Unlock, Conflicts, After;
    var r := RangeOf(fid, locks[next]);
    AfterOne(before, fid, locks, next);
    if HasUnlock(locks[next]) {
      UnlockOnHoldings(ranges, fid, r.start, r.end);
      UnlockKeepsConsistent(ranges, fid, r.start, r.end);
    } else {
      TakenRangeIsNonempty(fid, locks[next]);
      AdmittedIffConsistent(ranges, r);
      HeldAfterLock(ranges, r, fid);
    }
  }

  /** Where a request stopped with that status, and what its file then holds. */
  ghost predicate Leaves(h: multiset<LockRange>, status: Status, fid: FileId, locks: seq<LockElement>, k: nat, before: multiset<LockRange>) {
    && k <= FirstStop(locks) && Uniform(After(before, fid, locks[..k]))
    && match status
       case Success => k == |locks| && h == Left(before, fid, locks[..k], false)
       case LockConflict => k < FirstStop(locks) && TakesLock(locks[k]) && h == Left(before, fid, locks[..k], true)
       case InvalidParameter => k == FirstStop(locks) < |locks| && h == Left(before, fid, locks[..k], !ValidRange(locks[k]))
       case InvalidHandle => false
  }

  /** Any request whatever: the elements up to some point are carried out; then all is done, or a conflict
      or an invalid range takes back the locks and not the unlocks, or an element without bits takes back nothing. */
  lemma {:induction false} RequestOutcome(ranges: seq<LockRange>, fid: FileId, locks: seq<LockElement>, next: nat, before: multiset<LockRange>)
    returns (k: nat)
    requires Consistent(ranges) && next <= FirstStop(locks) && Held(ranges, fid) == After(before, fid, locks[..next])
    ensures
      var out := RunLock(ranges, fid, locks[next..], Takes(locks[..next]));
      next <= k && Leaves(Held(out.ranges, fid), out.status, fid, locks, k, before)
    decreases |locks| - next
  {
    hide Consistent, Held, Unlock, Conflicts, After, Takes, Stripped, RollBack;
    HeldIsUniform(ranges, fid);
    var acquired := Takes(locks[..next]);
    RollBackOnHoldings(ranges, fid, acquired);
    k := next;
    if next < FirstStop(locks) {
      var l, r := locks[next], RangeOf(fid, locks[next]);
      assert locks[next..][0] == l && locks[next..][1..] == locks[next + 1..];
      if HasUnlock(l) || !Conflicts(ranges, fid, r.start, r.end, r.exclusive) {
        CarryOut(ranges, fid, locks, next, before);
        AfterOne(before, fid, locks, next);
        var after := if HasUnlock(l) then Unlock(ranges, fid, r.start, r.end) else ranges + [r];
        assert acquired + [] == acquired;
        k := RequestOutcome(after, fid, locks, next + 1, before);
      }
    } else if next < |locks| {
      assert locks[next..][0] == locks[next];
    }
  }

  // ------------------------------------------------------------- holdings by count

  /** How many of the elements name this range. */
  function Naming(ls: seq<LockElement>, start: uint64, end: uint64): nat
    decreases |ls|
  {
    if ls == [] then 0
    else (if ls[0].offset == start && Add64(ls[0].offset, ls[0].length) == end then 1 else 0) + Naming(ls[1..], start, end)
  }

  function Less(n: nat, m: nat): nat { if n >= m then n - m else 0 }

  lemma WithoutCount(h: multiset<LockRange>, fid: FileId, start: uint64, end: uint64, x: LockRange)
    requires Uniform(h) && x.fileId == fid
    ensures Without(h, fid, start, end)[x] == if x.start == start && x.end == end then Less(h[x], 1) else h[x]
    ensures Uniform(Without(h, fid, start, end))
  {
    var w := Without(h, fid, start, end);
    assert forall y :: y in w ==> y in h;
    if x.start == start && x.end == end {
      var y := x.(exclusive := !x.exclusive);
      assert x in h ==> y !in h;
    }
  }

  lemma {:induction false} StrippedCount(h: multiset<LockRange>, fid: FileId, ls: seq<LockElement>, x: LockRange)
    requires Uniform(h) && x.fileId == fid
    ensures Stripped(h, fid, ls)[x] == Less(h[x], Naming(ls, x.start, x.end))
    decreases |ls|
  {
    hide Uniform, Without;
    if ls != [] {
      var start, end := ls[0].offset, Add64(ls[0].offset, ls[0].length);
      WithoutCount(h, fid, start, end, x);
      StrippedCount(Without(h, fid, start, end), fid, ls[1..], x);
    }
  }

  lemma {:induction false} StrippedOthers(h: multiset<LockRange>, fid: FileId, ls: seq<LockElement>, x: LockRange)
    requires x.fileId != fid
    ensures Stripped(h, fid, ls)[x] == h[x]
    decreases |ls|
  {
    if ls != [] {
      StrippedOthers(Without(h, fid, ls[0].offset, Add64(ls[0].offset, ls[0].length)), fid, ls[1..], x);
    }
  }
}
