/** When a LOCK request is all or nothing: exactly, for requests that take no lock after their first unlock, and
    never, for those that start with an unlock and take a lock later. */
module LockRequests {
  import opened Bytes
  import opened FileIds
  import opened Locks

  /** On failure the file holds exactly what it held before, whatever the table was. */
  ghost predicate AllOrNothing(locks: seq<LockElement>) {
    forall ranges: seq<LockRange>, fid: FileId | Consistent(ranges) ::
      RunLock(ranges, fid, locks, []).status != Success
      ==> Held(RunLock(ranges, fid, locks, []).ranges, fid) == Held(ranges, fid)
  }

  /** How many elements at the front take locks. */
  function Lead(locks: seq<LockElement>): (u: nat)
    ensures u <= FirstStop(locks)
    ensures forall i :: 0 <= i < u ==> ValidRange(locks[i]) && TakesLock(locks[i])
    ensures u < FirstStop(locks) ==> HasUnlock(locks[u])
  {
    if locks == [] || !Works(locks[0]) || HasUnlock(locks[0]) then 0 else 1 + Lead(locks[1..])
  }

  /** No lock is taken after the first unlock. */
  predicate LocksFirst(locks: seq<LockElement>) {
    forall i :: Lead(locks) <= i < FirstStop(locks) ==> HasUnlock(locks[i])
  }

  // ------------------------------------------------------------------ holdings

  lemma {:induction false} AfterTakes(h: multiset<LockRange>, fid: FileId, ls: seq<LockElement>)
    requires UnlockFree(ls)
    ensures After(h, fid, ls) == h + multiset(RangesOf(fid, ls)) && Takes(ls) == ls
    decreases |ls|
  {
    if ls != [] {
      var front, l := ls[..|ls| - 1], ls[|ls| - 1];
      AfterTakes(h, fid, front);
      RangesOfLast(fid, front, l);
      assert ls == front + [l];
    }
  }

  lemma {:induction false} StrippedSnoc(h: multiset<LockRange>, fid: FileId, ls: seq<LockElement>, l: LockElement)
    ensures Stripped(h, fid, ls + [l]) == Without(Stripped(h, fid, ls), fid, l.offset, Add64(l.offset, l.length))
    decreases |ls|
  {
    hide Without;
    if ls == [] {
      assert ls + [l] == [l];
    } else {
      assert (ls + [l])[1..] == ls[1..] + [l];
      StrippedSnoc(Without(h, fid, ls[0].offset, Add64(ls[0].offset, ls[0].length)), fid, ls[1..], l);
    }
  }

  lemma {:induction false} AfterTakesAndUnlocks(h: multiset<LockRange>, fid: FileId, ts: seq<LockElement>, us: seq<LockElement>)
    requires UnlockFree(ts) && forall i :: 0 <= i < |us| ==> HasUnlock(us[i])
    ensures After(h, fid, ts + us) == Stripped(h + multiset(RangesOf(fid, ts)), fid, us) && Takes(ts + us) == ts
    decreases |us|
  {
    hide Without;
    if us == [] {
      assert ts + us == ts;
      AfterTakes(h, fid, ts);
    } else {
      var front, l := us[..|us| - 1], us[|us| - 1];
      AfterTakesAndUnlocks(h, fid, ts, front);
      StrippedSnoc(h + multiset(RangesOf(fid, ts)), fid, front, l);
      assert us == front + [l] && (ts + us)[..|ts + us| - 1] == ts + front;
    }
  }

  lemma {:induction false} TakenAtMostNamed(fid: FileId, ls: seq<LockElement>, x: LockRange)
    ensures multiset(RangesOf(fid, ls))[x] <= Naming(ls, x.start, x.end)
    ensures x.fileId == fid && (forall i :: 0 <= i < |ls| && RangeOf(fid, ls[i]).start == x.start && RangeOf(fid, ls[i]).end == x.end ==> RangeOf(fid, ls[i]) == x)
            ==> multiset(RangesOf(fid, ls))[x] == Naming(ls, x.start, x.end)
    decreases |ls|
  {
    if ls != [] {
      RangesOfFirst(fid, ls);
      TakenAtMostNamed(fid, ls[1..], x);
      assert forall i :: 0 <= i < |ls[1..]| ==> ls[1..][i] == ls[i + 1];
    }
  }

  lemma {:induction false} NamingWitness(ls: seq<LockElement>, start: uint64, end: uint64) returns (i: nat)
    requires Naming(ls, start, end) > 0
    ensures i < |ls| && ls[i].offset == start && Add64(ls[i].offset, ls[i].length) == end
    decreases |ls|
  {
    if ls[0].offset == start && Add64(ls[0].offset, ls[0].length) == end {
      i := 0;
    } else {
      var k := NamingWitness(ls[1..], start, end);
      i := k + 1;
    }
  }

  lemma {:induction false} NamingAt(ls: seq<LockElement>, i: nat)
    requires i < |ls|
    ensures Naming(ls, ls[i].offset, Add64(ls[i].offset, ls[i].length)) > 0
    decreases |ls|
  {
    if i > 0 {
      NamingAt(ls[1..], i - 1);
    }
  }

  /** The count of one range once `ts` are locked, `us` unlocked and, if so, `ts` unlocked again. */
  function Remaining(n: nat, taken: nat, ts: nat, us: nat, undo: bool): nat {
    var m := Less(n + taken, us);
    if undo then Less(m, ts) else m
  }

  lemma LeftCount(h: multiset<LockRange>, fid: FileId, ts: seq<LockElement>, us: seq<LockElement>, undo: bool, x: LockRange)
    requires UnlockFree(ts) && (forall i :: 0 <= i < |us| ==> HasUnlock(us[i])) && x.fileId == fid
    requires Uniform(h + multiset(RangesOf(fid, ts))) && Uniform(After(h, fid, ts + us))
    ensures Left(h, fid, ts + us, undo)[x]
         == Remaining(h[x], multiset(RangesOf(fid, ts))[x], Naming(ts, x.start, x.end), Naming(us, x.start, x.end), undo)
  {
    hide Uniform, Stripped, After, Takes;
    AfterTakesAndUnlocks(h, fid, ts, us);
    StrippedCount(h + multiset(RangesOf(fid, ts)), fid, us, x);
    StrippedCount(After(h, fid, ts + us), fid, ts, x);
  }

  // ------------------------------------------------------------ reaching the stop

  lemma ConsistentParts(a: seq<LockRange>, b: seq<LockRange>)
    requires Consistent(a + b)
    ensures Consistent(a) && Consistent(b)
  {
    assert forall i :: 0 <= i < |a| ==> (a + b)[i] == a[i];
    assert forall i :: 0 <= i < |b| ==> (a + b)[|a| + i] == b[i];
  }

  /** A table that admits the leading locks lets the request run to its stop. */
  lemma {:induction false} ReachesStop(ranges: seq<LockRange>, fid: FileId, locks: seq<LockElement>, next: nat, acquired: seq<LockElement>)
    requires LocksFirst(locks) && next <= FirstStop(locks) < |locks| && Consistent(ranges)
    requires next <= Lead(locks) ==> Consistent(ranges + RangesOf(fid, locks[next..Lead(locks)]))
    ensures RunLock(ranges, fid, locks[next..], acquired).status == InvalidParameter
    decreases |locks| - next
  {
    hide Consistent, Conflicts, Unlock, RollBack;
    assert locks[next..][0] == locks[next] && locks[next..][1..] == locks[next + 1..];
    if next < FirstStop(locks) {
      var r := RangeOf(fid, locks[next]);
      if next < Lead(locks) {
        var lead := locks[next..Lead(locks)];
        FirstFits(ranges, fid, lead);
        assert lead[0] == locks[next] && lead[1..] == locks[next + 1..Lead(locks)];
        ReachesStop(ranges + [r], fid, locks, next + 1, acquired + [locks[next]]);
      } else {
        UnlockKeepsConsistent(ranges, fid, r.start, r.end);
        ReachesStop(Unlock(ranges, fid, r.start, r.end), fid, locks, next + 1, acquired);
      }
    }
  }

  lemma FirstFits(ranges: seq<LockRange>, fid: FileId, ls: seq<LockElement>)
    requires ls != [] && ValidRange(ls[0]) && Consistent(ranges + RangesOf(fid, ls))
    ensures
      var r := RangeOf(fid, ls[0]);
      && Consistent(ranges) && !Conflicts(ranges, fid, r.start, r.end, r.exclusive)
      && Consistent(ranges + [r]) && Consistent(ranges + [r] + RangesOf(fid, ls[1..]))
  {
    hide Conflicts;
    var r := RangeOf(fid, ls[0]);
    RangesOfSplits(ranges, fid, ls);
    ConsistentParts(ranges + [r], RangesOf(fid, ls[1..]));
    ConsistentParts(ranges, [r]);
    TakenRangeIsNonempty(fid, ls[0]);
    AdmittedIffConsistent(ranges, r);
  }

  lemma RangesOfSplits(ranges: seq<LockRange>, fid: FileId, ls: seq<LockElement>)
    requires ls != []
    ensures ranges + RangesOf(fid, ls) == ranges + [RangeOf(fid, ls[0])] + RangesOf(fid, ls[1..])
  {
    assert RangesOf(fid, ls) == [RangeOf(fid, ls[0])] + RangesOf(fid, ls[1..]);
  }

  /** Conversely, a request that got to its stop has taken the leading locks. */
  lemma {:induction false} StopMeansTaken(ranges: seq<LockRange>, fid: FileId, locks: seq<LockElement>, next: nat, acquired: seq<LockElement>)
    requires next <= Lead(locks) && Consistent(ranges)
    requires RunLock(ranges, fid, locks[next..], acquired).status == InvalidParameter
    ensures Consistent(ranges + RangesOf(fid, locks[next..Lead(locks)]))
    decreases |locks| - next
  {
    hide Consistent, Conflicts, Unlock, RollBack;
    var u := Lead(locks);
    if next == u {
      assert ranges + RangesOf(fid, locks[next..u]) == ranges;
    } else {
      var r := RangeOf(fid, locks[next]);
      assert locks[next..][0] == locks[next] && locks[next..][1..] == locks[next + 1..];
      TakenRangeIsNonempty(fid, locks[next]);
      AdmittedIffConsistent(ranges, r);
      StopMeansTaken(ranges + [r], fid, locks, next + 1, acquired + [locks[next]]);
      var lead := locks[next..u];
      assert lead[0] == locks[next] && lead[1..] == locks[next + 1..u];
      RangesOfSplits(ranges, fid, lead);
    }
  }

  // ------------------------------------------------------------ the exact condition

  /** The range could already be held when these locks are taken. */
  predicate Holdable(ts: seq<LockElement>, start: uint64, end: uint64, exclusive: bool) {
    Consistent([LockRange(Zeros(16), start, end, exclusive)] + RangesOf(Zeros(16), ts))
  }

  /** Stopping at an invalid range loses what was unlocked; stopping for want of bits keeps whatever does not balance. */
  predicate Unbalanced(locks: seq<LockElement>, l: LockElement) {
    var u, k, end := Lead(locks), FirstStop(locks), Add64(l.offset, l.length);
    var ts, us := Naming(locks[..u], l.offset, end), Naming(locks[u..k], l.offset, end);
    k < |locks| && if ValidRange(locks[k]) then ts != us else us > 0
  }

  /** Some range of the request could be held beforehand and comes out of its failure otherwise. */
  predicate LeavesTraces(locks: seq<LockElement>) {
    exists i, e :: 0 <= i < FirstStop(locks) && Unbalanced(locks, locks[i])
                && Holdable(locks[..Lead(locks)], locks[i].offset, Add64(locks[i].offset, locks[i].length), e)
  }

  lemma KindForgetsFile(x: LockRange, fid: FileId, ts: seq<LockElement>)
    requires x.fileId == fid && Consistent([x] + RangesOf(fid, ts))
    ensures Holdable(ts, x.start, x.end, x.exclusive)
  {
    var a, b := [x] + RangesOf(fid, ts), [x.(fileId := Zeros(16))] + RangesOf(Zeros(16), ts);
    forall i | 0 <= i < |b| ensures b[i].start < b[i].end {
      assert a[i].start < a[i].end;
    }
    forall i, j | 0 <= i < j < |b| ensures Compatible(b[i], b[j]) {
      assert Compatible(a[i], a[j]);
    }
  }

  lemma HeldWithTaken(ranges: seq<LockRange>, fid: FileId, ts: seq<LockElement>, x: LockRange)
    requires Consistent(ranges + RangesOf(fid, ts)) && x in Held(ranges, fid)
    ensures x.fileId == fid && Consistent([x] + RangesOf(fid, ts))
  {
    assert x in Select(ranges, fid, true);
    SelectHas(ranges, fid, true, x);
    var i :| 0 <= i < |ranges| && ranges[i] == x;
    OneWithRest(ranges, RangesOf(fid, ts), i);
  }

  lemma OneWithRest(a: seq<LockRange>, b: seq<LockRange>, i: nat)
    requires Consistent(a + b) && i < |a|
    ensures Consistent([a[i]] + b)
  {
    var all, some := a + b, [a[i]] + b;
    assert all[i] == a[i] && forall k :: 0 <= k < |b| ==> all[|a| + k] == b[k];
    forall k | 0 <= k < |some| ensures some[k].start < some[k].end {
      assert some[k] == all[if k == 0 then i else |a| + k - 1];
    }
    forall k, m | 0 <= k < m < |some| ensures Compatible(some[k], some[m]) {
      assert some[k] == all[if k == 0 then i else |a| + k - 1] && some[m] == all[|a| + m - 1];
    }
  }

  /** A range taken could as well be held twice. */
  lemma TakenIsHoldable(fid: FileId, ts: seq<LockElement>, i: nat)
    requires Consistent(RangesOf(fid, ts)) && i < |ts|
    ensures Consistent([RangeOf(fid, ts[i])] + RangesOf(fid, ts))
  {
    var a := RangesOf(fid, ts);
    var b := [a[i]] + a;
    forall k, m | 0 <= k < m < |b| ensures Compatible(b[k], b[m]) {
      if k == 0 && m - 1 > i {
        assert Compatible(a[i], a[m - 1]);
      } else if k == 0 && m - 1 < i {
        assert Compatible(a[m - 1], a[i]);
      } else if k > 0 {
        assert Compatible(a[k - 1], a[m - 1]);
      }
    }
  }

  /** Taken along with `x`, every lock of its range is of its kind. */
  lemma SameKind(x: LockRange, fid: FileId, ts: seq<LockElement>)
    requires x.fileId == fid && Consistent([x] + RangesOf(fid, ts))
    ensures multiset(RangesOf(fid, ts))[x] == Naming(ts, x.start, x.end)
  {
    var all := [x] + RangesOf(fid, ts);
    forall i | 0 <= i < |ts| && RangeOf(fid, ts[i]).start == x.start && RangeOf(fid, ts[i]).end == x.end
      ensures RangeOf(fid, ts[i]) == x
    {
      assert all[i + 1] == RangeOf(fid, ts[i]);
      SameRangeSameEntry(all, i + 1, 0);
    }
    TakenAtMostNamed(fid, ts, x);
  }

  lemma UniformWithTaken(ranges: seq<LockRange>, fid: FileId, ts: seq<LockElement>)
    requires Consistent(ranges + RangesOf(fid, ts))
    ensures Held(ranges + RangesOf(fid, ts), fid) == Held(ranges, fid) + multiset(RangesOf(fid, ts))
    ensures Uniform(Held(ranges, fid) + multiset(RangesOf(fid, ts)))
  {
    SelectConcat(ranges, RangesOf(fid, ts), fid, true);
    AllMine(fid, RangesOf(fid, ts));
    HeldIsUniform(ranges + RangesOf(fid, ts), fid);
  }

  lemma {:induction false} AllMine(fid: FileId, a: seq<LockRange>)
    requires forall i :: 0 <= i < |a| ==> a[i].fileId == fid
    ensures Select(a, fid, true) == a
    decreases |a|
  {
    if a != [] {
      AllMine(fid, a[1..]);
      assert a == [a[0]] + a[1..];
    }
  }

  /** The count of one range after a request that ran to its stop. */
  lemma CountAtStop(ranges: seq<LockRange>, fid: FileId, locks: seq<LockElement>, x: LockRange)
    requires LocksFirst(locks) && FirstStop(locks) < |locks| && x.fileId == fid
    requires Consistent(ranges + RangesOf(fid, locks[..Lead(locks)]))
    requires Uniform(After(Held(ranges, fid), fid, locks[..FirstStop(locks)]))
    ensures
      var u, k, h := Lead(locks), FirstStop(locks), Held(ranges, fid);
      var undo := !ValidRange(locks[k]);
      Left(h, fid, locks[..k], undo)[x]
      == Remaining(h[x], multiset(RangesOf(fid, locks[..u]))[x], Naming(locks[..u], x.start, x.end), Naming(locks[u..k], x.start, x.end), undo)
  {
    hide Uniform, Left, Consistent, After, RangesOf, Naming;
    var u, k := Lead(locks), FirstStop(locks);
    assert locks[..u] + locks[u..k] == locks[..k];
    UniformWithTaken(ranges, fid, locks[..u]);
    LeftCount(Held(ranges, fid), fid, locks[..u], locks[u..k], !ValidRange(locks[k]), x);
  }

  lemma {:induction false} AfterOthers(h: multiset<LockRange>, fid: FileId, done: seq<LockElement>, x: LockRange)
    requires x.fileId != fid
    ensures After(h, fid, done)[x] == h[x]
    decreases |done|
  {
    if done != [] {
      AfterOthers(h, fid, done[..|done| - 1], x);
    }
  }

  lemma LeftOthers(h: multiset<LockRange>, fid: FileId, done: seq<LockElement>, undo: bool, x: LockRange)
    requires x.fileId != fid
    ensures Left(h, fid, done, undo)[x] == h[x]
  {
    hide After, Stripped, Takes;
    AfterOthers(h, fid, done, x);
    StrippedOthers(After(h, fid, done), fid, Takes(done), x);
  }

  /** Locks alone are taken back without a trace. */
  lemma PureLeft(h: multiset<LockRange>, fid: FileId, ts: seq<LockElement>)
    requires UnlockFree(ts) && Uniform(After(h, fid, ts))
    ensures Left(h, fid, ts, true) == h
  {
    hide After, Stripped, Takes, Left, Naming, RangesOf;
    AfterTakes(h, fid, ts);
    forall x: LockRange ensures Left(h, fid, ts, true)[x] == h[x] {
      if x.fileId != fid {
        LeftOthers(h, fid, ts, true, x);
      } else {
        PureCount(h, fid, ts, x);
      }
    }
    assert forall x :: x in h <==> x in Left(h, fid, ts, true);
  }

  lemma PureCount(h: multiset<LockRange>, fid: FileId, ts: seq<LockElement>, x: LockRange)
    requires UnlockFree(ts) && x.fileId == fid && Uniform(h + multiset(RangesOf(fid, ts)))
    ensures Left(h, fid, ts, true)[x] == h[x]
  {
    hide After, Stripped, Takes;
    AfterTakes(h, fid, ts);
    StrippedCount(h + multiset(RangesOf(fid, ts)), fid, ts, x);
    if x in h {
      forall i | 0 <= i < |ts| && RangeOf(fid, ts[i]).start == x.start && RangeOf(fid, ts[i]).end == x.end
        ensures RangeOf(fid, ts[i]) == x
      {
        assert RangeOf(fid, ts[i]) in RangesOf(fid, ts) by { assert RangesOf(fid, ts)[i] == RangeOf(fid, ts[i]); }
        assert RangeOf(fid, ts[i]) in h + multiset(RangesOf(fid, ts));
      }
    }
    TakenAtMostNamed(fid, ts, x);
  }

  /** Where no range both matters and could be held, the stop changes no count. */
  lemma CountUnchanged(ranges: seq<LockRange>, fid: FileId, locks: seq<LockElement>, x: LockRange)
    requires LocksFirst(locks) && FirstStop(locks) < |locks| && !LeavesTraces(locks) && x.fileId == fid
    requires Consistent(ranges + RangesOf(fid, locks[..Lead(locks)]))
    ensures
      var u, k, h := Lead(locks), FirstStop(locks), Held(ranges, fid);
      Remaining(h[x], multiset(RangesOf(fid, locks[..u]))[x], Naming(locks[..u], x.start, x.end), Naming(locks[u..k], x.start, x.end),
                !ValidRange(locks[k])) == h[x]
  {
    hide LeavesTraces, Holdable, Naming, Consistent, LocksFirst, Held, RangesOf;
    var ts := locks[..Lead(locks)];
    TakenAtMostNamed(fid, ts, x);
    if x in Held(ranges, fid) {
      HeldWithTaken(ranges, fid, ts, x);
      SameKind(x, fid, ts);
      KindForgetsFile(x, fid, ts);
      NotUnbalanced(locks, x.start, x.end, x.exclusive);
    } else if multiset(RangesOf(fid, ts))[x] > 0 {
      var i := TakenWitness(fid, ts, x);
      ConsistentParts(ranges, RangesOf(fid, ts));
      TakenIsHoldable(fid, ts, i);
      KindForgetsFile(x, fid, ts);
      NotUnbalanced(locks, x.start, x.end, x.exclusive);
    }
  }

  lemma TakenWitness(fid: FileId, ts: seq<LockElement>, x: LockRange) returns (i: nat)
    requires multiset(RangesOf(fid, ts))[x] > 0
    ensures i < |ts| && RangeOf(fid, ts[i]) == x
  {
    assert x in RangesOf(fid, ts);
    i :| i < |ts| && RangesOf(fid, ts)[i] == x;
  }

  lemma NotUnbalanced(locks: seq<LockElement>, start: uint64, end: uint64, e: bool)
    requires FirstStop(locks) < |locks| && !LeavesTraces(locks) && Holdable(locks[..Lead(locks)], start, end, e)
    ensures
      var u, k := Lead(locks), FirstStop(locks);
      var t, n := Naming(locks[..u], start, end), Naming(locks[u..k], start, end);
      if ValidRange(locks[k]) then t == n else n == 0
  {
    hide Holdable, Naming, LeavesTraces, Unbalanced;
    var u, k := Lead(locks), FirstStop(locks);
    var t, n := Naming(locks[..u], start, end), Naming(locks[u..k], start, end);
    if t > 0 {
      var i := NamingWitness(locks[..u], start, end);
      BalancedAt(locks, i, e);
    } else if n > 0 {
      var i := NamingWitness(locks[u..k], start, end);
      BalancedAt(locks, u + i, e);
    }
  }

  lemma BalancedAt(locks: seq<LockElement>, i: nat, e: bool)
    requires i < FirstStop(locks) < |locks| && !LeavesTraces(locks)
    requires Holdable(locks[..Lead(locks)], locks[i].offset, Add64(locks[i].offset, locks[i].length), e)
    ensures
      var u, k, end := Lead(locks), FirstStop(locks), Add64(locks[i].offset, locks[i].length);
      var t, n := Naming(locks[..u], locks[i].offset, end), Naming(locks[u..k], locks[i].offset, end);
      if ValidRange(locks[k]) then t == n else n == 0
  {
    hide Holdable, Naming;
    assert !Unbalanced(locks, locks[i]);
  }

  lemma NothingRemains(ranges: seq<LockRange>, fid: FileId, locks: seq<LockElement>)
    requires LocksFirst(locks) && !LeavesTraces(locks)
    requires Consistent(ranges) && RunLock(ranges, fid, locks, []).status != Success
    ensures Held(RunLock(ranges, fid, locks, []).ranges, fid) == Held(ranges, fid)
  {
    hide Left, After, LeavesTraces, Naming, Held;
    var h := Held(ranges, fid);
    AfterNothing(h, fid);
    assert locks[..0] == [] && locks[0..] == locks;
    var k := RequestOutcome(ranges, fid, locks, 0, h);
    if RunLock(ranges, fid, locks, []).status == LockConflict {
      assert UnlockFree(locks[..k]);
      PureLeft(h, fid, locks[..k]);
    } else {
      StopMeansTaken(ranges, fid, locks, 0, []);
      var undo := !ValidRange(locks[k]);
      forall x: LockRange ensures Left(h, fid, locks[..k], undo)[x] == h[x] {
        if x.fileId != fid {
          LeftOthers(h, fid, locks[..k], undo, x);
        } else {
          CountAtStop(ranges, fid, locks, x);
          CountUnchanged(ranges, fid, locks, x);
        }
      }
      assert forall x :: x in h <==> x in Left(h, fid, locks[..k], undo);
    }
  }

  lemma AfterNothing(h: multiset<LockRange>, fid: FileId)
    ensures After(h, fid, []) == h && Takes([]) == []
  {
  }

  lemma SomethingRemains(locks: seq<LockElement>)
    requires LocksFirst(locks) && LeavesTraces(locks)
    ensures !AllOrNothing(locks)
  {
    var fid := Zeros(16);
    var i, e :| 0 <= i < FirstStop(locks) && Unbalanced(locks, locks[i])
             && Holdable(locks[..Lead(locks)], locks[i].offset, Add64(locks[i].offset, locks[i].length), e);
    var x := LockRange(fid, locks[i].offset, Add64(locks[i].offset, locks[i].length), e);
    TraceOf(locks, i, x);
    assert Consistent([x]) && RunLock([x], fid, locks, []).status != Success;
  }

  lemma TraceOf(locks: seq<LockElement>, i: nat, x: LockRange)
    requires LocksFirst(locks) && i < FirstStop(locks) && Unbalanced(locks, locks[i])
    requires x.fileId == Zeros(16) && x.start == locks[i].offset && x.end == Add64(locks[i].offset, locks[i].length)
    requires Consistent([x] + RangesOf(Zeros(16), locks[..Lead(locks)]))
    ensures Consistent([x]) && RunLock([x], Zeros(16), locks, []).status != Success
    ensures Held(RunLock([x], Zeros(16), locks, []).ranges, Zeros(16)) != Held([x], Zeros(16))
  {
    hide Left, After, Naming, Consistent, Held, RunLock, Uniform, FirstStop, Lead, RangesOf;
    var fid, u := Zeros(16), Lead(locks);
    var ts := locks[..u];
    ConsistentParts([x], RangesOf(fid, ts));
    OneHeld(x);
    AfterNothing(Held([x], fid), fid);
    assert locks[..0] == [] && locks[0..] == locks && locks[0..u] == ts;
    ReachesStop([x], fid, locks, 0, []);
    var k := RequestOutcome([x], fid, locks, 0, Held([x], fid));
    SameKind(x, fid, ts);
    CountAtStop([x], fid, locks, x);
  }

  lemma OneHeld(x: LockRange)
    ensures Held([x], x.fileId) == multiset{x}
  {
    assert [x][1..] == [] && Select([x], x.fileId, true) == [x];
  }

  /** The exact condition, for every request that takes no lock after its first unlock: all locks, all
      unlocks, and locks followed by unlocks among them. */
  lemma AllOrNothingIff(locks: seq<LockElement>)
    requires LocksFirst(locks)
    ensures AllOrNothing(locks) <==> !LeavesTraces(locks)
  {
    hide LocksFirst, LeavesTraces, Held, RunLock, Consistent;
    if LeavesTraces(locks) {
      SomethingRemains(locks);
    } else {
      forall ranges: seq<LockRange>, fid: FileId | Consistent(ranges) && RunLock(ranges, fid, locks, []).status != Success
        ensures Held(RunLock(ranges, fid, locks, []).ranges, fid) == Held(ranges, fid)
      {
        NothingRemains(ranges, fid, locks);
      }
    }
  }

  /** A request that cannot stop, once past its locks, is all or nothing. */
  lemma {:induction false} UnlocksLastAllOrNothing(locks: seq<LockElement>)
    requires LocksFirst(locks) && FirstStop(locks) == |locks|
    ensures AllOrNothing(locks)
  {
    hide AllOrNothing, LocksFirst, Holdable, Naming;
    AllOrNothingIff(locks);
  }

  /** A request of lock elements alone, none of them without bits, is all or nothing. */
  lemma PureLocksAllOrNothing(ranges: seq<LockRange>, fid: FileId, locks: seq<LockElement>)
    requires Consistent(ranges) && RunLock(ranges, fid, locks, []).status != Success
    requires forall i :: 0 <= i < |locks| ==> TakesLock(locks[i])
    ensures Held(RunLock(ranges, fid, locks, []).ranges, fid) == Held(ranges, fid)
  {
    hide Held, RunLock, Consistent, Holdable;
    assert Lead(locks) == FirstStop(locks);
    assert locks[Lead(locks)..FirstStop(locks)] == [];
    NothingRemains(ranges, fid, locks);
  }

  // ------------------------------------------------------ a lock after an unlock

  /** The request runs through its leading locks and the unlocks behind them into the range of another file. */
  lemma {:induction false} RefusedAt(ranges: seq<LockRange>, fid: FileId, locks: seq<LockElement>, next: nat, j: nat, before: multiset<LockRange>, f: LockRange)
    requires next <= j < FirstStop(locks) && TakesLock(locks[j]) && forall m :: Lead(locks) <= m < j ==> HasUnlock(locks[m])
    requires Consistent(ranges) && Held(ranges, fid) == After(before, fid, locks[..next]) && f in ranges && f.fileId != fid
    requires Lead(locks) <= j && (next <= Lead(locks) ==> Consistent(ranges + RangesOf(fid, locks[next..Lead(locks)])))
    requires var r := RangeOf(fid, locks[j]); Overlap(r.start, r.end, f) && (f.exclusive || r.exclusive)
    ensures
      var out := RunLock(ranges, fid, locks[next..], Takes(locks[..next]));
      out.status == LockConflict && Held(out.ranges, fid) == Left(before, fid, locks[..j], true)
    ensures Uniform(After(before, fid, locks[..j]))
    decreases j - next
  {
    hide Consistent, Held, Unlock, Conflicts, After, Takes, Stripped, RollBack, Uniform, Overlap;
    var acquired := Takes(locks[..next]);
    assert locks[next..][0] == locks[next] && locks[next..][1..] == locks[next + 1..];
    if next == j {
      HeldIsUniform(ranges, fid);
      RollBackOnHoldings(ranges, fid, acquired);
      var r := RangeOf(fid, locks[j]);
      InTheWay(ranges, fid, r.start, r.end, r.exclusive, f);
    } else {
      var r := RangeOf(fid, locks[next]);
      if next < Lead(locks) {
        var lead := locks[next..Lead(locks)];
        FirstFits(ranges, fid, lead);
        assert lead[0] == locks[next] && lead[1..] == locks[next + 1..Lead(locks)];
      }
      CarryOut(ranges, fid, locks, next, before);
      AfterOne(before, fid, locks, next);
      var after := if HasUnlock(locks[next]) then Unlock(ranges, fid, r.start, r.end) else ranges + [r];
      OtherStays(ranges, fid, r.start, r.end, f);
      assert acquired + [] == acquired;
      RefusedAt(after, fid, locks, next + 1, j, before, f);
    }
  }

  lemma InTheWay(ranges: seq<LockRange>, fid: FileId, start: uint64, end: uint64, exclusive: bool, f: LockRange)
    requires f in ranges && f.fileId != fid && Overlap(start, end, f) && (f.exclusive || exclusive)
    ensures Conflicts(ranges, fid, start, end, exclusive)
  {
    var i :| 0 <= i < |ranges| && ranges[i] == f;
  }

  lemma OtherStays(ranges: seq<LockRange>, fid: FileId, start: uint64, end: uint64, f: LockRange)
    requires f in ranges && f.fileId != fid
    ensures f in Unlock(ranges, fid, start, end)
  {
    UnlockKeepsOthers(ranges, fid, start, end);
    SelectHas(ranges, fid, false, f);
    SelectHas(Unlock(ranges, fid, start, end), fid, false, f);
  }

  /** Whatever else the request holds: a lock refused after an unlock costs the file a range. `x` is held and
      unlocked; `f` is a range of another file that leaves the leading locks alone and stops the later one. */
  lemma {:induction false} ConflictAfterUnlockLoses(locks: seq<LockElement>, i: nat, j: nat, x: LockRange, f: LockRange)
    requires Lead(locks) <= i < j < FirstStop(locks) && TakesLock(locks[j]) && forall m :: Lead(locks) <= m < j ==> HasUnlock(locks[m])
    requires x.fileId == Zeros(16) && x.start == locks[i].offset && x.end == Add64(locks[i].offset, locks[i].length)
    requires f.fileId != Zeros(16) && Consistent([x, f] + RangesOf(Zeros(16), locks[..Lead(locks)]))
    requires var r := RangeOf(Zeros(16), locks[j]); Overlap(r.start, r.end, f) && (f.exclusive || r.exclusive)
    ensures
      var out := RunLock([x, f], Zeros(16), locks, []);
      Consistent([x, f]) && out.status == LockConflict && x !in Held(out.ranges, Zeros(16)) && x in Held([x, f], Zeros(16))
  {
    hide Left, After, Overlap, RangesOf, Consistent, Held, RunLock, Uniform, Unlock;
    var fid, u := Zeros(16), Lead(locks);
    RefusedRun(locks, j, x, f);
    LeadParts(locks, j);
    assert locks[u..j][i - u] == locks[i];
    OnlyMine(x, f);
    UnlockedIsLost([x, f], fid, locks[..u], locks[u..j], i - u, x);
  }

  lemma {:induction false} RefusedRun(locks: seq<LockElement>, j: nat, x: LockRange, f: LockRange)
    requires Lead(locks) <= j < FirstStop(locks) && TakesLock(locks[j]) && forall m :: Lead(locks) <= m < j ==> HasUnlock(locks[m])
    requires x.fileId == Zeros(16) && f.fileId != Zeros(16) && Consistent([x, f] + RangesOf(Zeros(16), locks[..Lead(locks)]))
    requires var r := RangeOf(Zeros(16), locks[j]); Overlap(r.start, r.end, f) && (f.exclusive || r.exclusive)
    ensures
      var out := RunLock([x, f], Zeros(16), locks, []);
      && Consistent([x, f]) && out.status == LockConflict
      && Held(out.ranges, Zeros(16)) == Left(multiset{x}, Zeros(16), locks[..j], true)
      && Uniform(After(multiset{x}, Zeros(16), locks[..j]))
  {
    hide Left, After, Overlap, RangesOf, Consistent, Held, RunLock, Uniform, Lead, HasUnlock, TakesLock;
    var fid, table := Zeros(16), [x, f];
    ConsistentParts(table, RangesOf(fid, locks[..Lead(locks)]));
    OnlyMine(x, f);
    AfterNothing(multiset{x}, fid);
    assert locks[..0] == [] && locks[0..] == locks && locks[0..Lead(locks)] == locks[..Lead(locks)];
    RefusedAt(table, fid, locks, 0, j, multiset{x}, f);
  }

  lemma {:induction false} LeadParts(locks: seq<LockElement>, j: nat)
    requires Lead(locks) <= j <= |locks| && forall m :: Lead(locks) <= m < j ==> HasUnlock(locks[m])
    ensures
      var u := Lead(locks);
      && UnlockFree(locks[..u]) && (forall m :: 0 <= m < j - u ==> HasUnlock(locks[u..j][m]))
      && locks[..u] + locks[u..j] == locks[..j]
  {
    hide HasUnlock;
  }

  /** Of a range held once and unlocked, nothing is left when the locks are taken back. */
  lemma {:induction false} UnlockedIsLost(table: seq<LockRange>, fid: FileId, ts: seq<LockElement>, us: seq<LockElement>, i: nat, x: LockRange)
    requires table != [] && table[0] == x && x.fileId == fid && Held(table, fid) == multiset{x}
    requires Consistent(table + RangesOf(fid, ts)) && UnlockFree(ts) && forall m :: 0 <= m < |us| ==> HasUnlock(us[m])
    requires Uniform(After(multiset{x}, fid, ts + us))
    requires i < |us| && x.start == us[i].offset && x.end == Add64(us[i].offset, us[i].length)
    ensures x !in Left(multiset{x}, fid, ts + us, true)
  {
    hide Left, After, Naming, RangesOf, Consistent, Held, Uniform;
    OneWithRest(table, RangesOf(fid, ts), 0);
    SameKind(x, fid, ts);
    UniformWithTaken(table, fid, ts);
    LeftCount(multiset{x}, fid, ts, us, true, x);
    NamingAt(us, i);
  }

  lemma OnlyMine(x: LockRange, f: LockRange)
    requires x.fileId != f.fileId
    ensures Held([x, f], x.fileId) == multiset{x}
  {
    assert [x, f][1..] == [f] && [f][1..] == [];
    assert Select([f], x.fileId, true) == [];
    assert Select([x, f], x.fileId, true) == [x];
  }

  // ------------------------------------------------------ a request that starts with an unlock

  function Copies(x: LockRange, n: nat): (r: seq<LockRange>)
    ensures |r| == n && forall i :: 0 <= i < n ==> r[i] == x
  {
    seq(n, i => x)
  }

  lemma CopiesHeld(x: LockRange, n: nat)
    ensures Held(Copies(x, n), x.fileId)[x] == n
  {
    AllMine(x.fileId, Copies(x, n));
    CopiesCount(x, n);
  }

  lemma {:induction false} CopiesCount(x: LockRange, n: nat)
    ensures multiset(Copies(x, n))[x] == n
  {
    if n > 0 {
      CopiesCount(x, n - 1);
      assert Copies(x, n) == Copies(x, n - 1) + [x];
    }
  }

  lemma UnlockCopies(x: LockRange, n: nat, start: uint64, end: uint64)
    ensures
      var m := if n > 0 && x.start == start && x.end == end then n - 1 else n;
      Unlock(Copies(x, n), x.fileId, start, end) == Copies(x, m)
  {
    var at := UnlockSplits(Copies(x, n), x.fileId, start, end);
  }

  lemma {:induction false} RollBackCopies(x: LockRange, n: nat, us: seq<LockElement>) returns (m: nat)
    ensures n - |us| <= m <= n && RollBack(Copies(x, n), x.fileId, us) == Copies(x, m)
    ensures us != [] && n > 0 && x.start == us[0].offset && x.end == Add64(us[0].offset, us[0].length) ==> m < n
    decreases |us|
  {
    hide Unlock, Copies, Add64;
    if us == [] {
      m := n;
    } else {
      UnlockCopies(x, n, us[0].offset, Add64(us[0].offset, us[0].length));
      var named := n > 0 && x.start == us[0].offset && x.end == Add64(us[0].offset, us[0].length);
      m := RollBackCopies(x, if named then n - 1 else n, us[1..]);
    }
  }

  /** Leading unlocks are carried out one by one. */
  lemma {:induction false} RunsThrough(ranges: seq<LockRange>, fid: FileId, locks: seq<LockElement>, j: nat)
    requires j <= |locks| && forall m :: 0 <= m < j ==> ValidRange(locks[m]) && HasUnlock(locks[m])
    ensures RunLock(ranges, fid, locks, []) == RunLock(RollBack(ranges, fid, locks[..j]), fid, locks[j..], [])
    decreases j
  {
    hide Unlock, ValidRange, HasUnlock, Conflicts;
    if j == 0 {
      assert locks[0..] == locks;
    } else {
      var l := locks[0];
      RunsThrough(Unlock(ranges, fid, l.offset, Add64(l.offset, l.length)), fid, locks[1..], j - 1);
      assert locks[..j][0] == l && locks[..j][1..] == locks[1..][..j - 1] && locks[1..][j - 1..] == locks[j..];
    }
  }

  lemma CopiesConsistent(x: LockRange, n: nat)
    requires x.start < x.end
    ensures Consistent(Copies(x, n))
  {
  }

  /** A shared lock within the unlocked range is refused by what is left of the file's own exclusive locks there. */
  lemma RefusedByOwn(locks: seq<LockElement>, j: nat)
    requires 0 < j < |locks| && forall m :: 0 <= m < j ==> ValidRange(locks[m]) && HasUnlock(locks[m])
    requires ValidRange(locks[j]) && TakesLock(locks[j]) && !HasExclusive(locks[j])
    requires var u, r := RangeOf(Zeros(16), locks[0]), RangeOf(Zeros(16), locks[j]); u.start <= r.start && r.end <= u.end
    ensures !AllOrNothing(locks)
  {
    hide HasUnlock, HasExclusive, HasShared, RollBack, Held;
    var fid := Zeros(16);
    var x := RangeOf(fid, locks[0]).(exclusive := true);
    var table := Copies(x, j + 1);
    CopiesConsistent(x, j + 1);
    RunsThrough(table, fid, locks, j);
    assert locks[..j][0] == locks[0];
    var m := RollBackCopies(x, j + 1, locks[..j]);
    var left, r := Copies(x, m), RangeOf(fid, locks[j]);
    assert Overlap(r.start, r.end, left[0]);
    assert Conflicts(left, fid, r.start, r.end, r.exclusive);
    assert locks[j..][0] == locks[j];
    assert RollBack(left, fid, []) == left by { NothingTakenBack(left, fid); }
    CopiesHeld(x, j + 1);
    CopiesHeld(x, m);
    assert RunLock(table, fid, locks, []) == Outcome(left, LockConflict);
  }

  lemma NothingTakenBack(ranges: seq<LockRange>, fid: FileId)
    ensures RollBack(ranges, fid, []) == ranges
  {
  }

  const OTHER_FILE: FileId := seq(16, i => 1)

  /** Another file's range refuses the lock and does not meet the range unlocked before. */
  lemma RefusedByOther(locks: seq<LockElement>, j: nat, x: LockRange, f: LockRange)
    requires Lead(locks) == 0 && 0 < j < FirstStop(locks) && TakesLock(locks[j]) && forall m :: 0 <= m < j ==> HasUnlock(locks[m])
    requires x.fileId == Zeros(16) && x.start == locks[0].offset && x.end == Add64(locks[0].offset, locks[0].length)
    requires f.fileId != Zeros(16) && Consistent([x, f])
    requires var r := RangeOf(Zeros(16), locks[j]); Overlap(r.start, r.end, f) && (f.exclusive || r.exclusive)
    ensures !AllOrNothing(locks)
  {
    hide Consistent, Held, RunLock, Overlap, TakesLock, HasUnlock, FirstStop, Lead;
    assert locks[..0] == [] && [x, f] + RangesOf(Zeros(16), []) == [x, f];
    ConflictAfterUnlockLoses(locks, 0, j, x, f);
  }

  lemma {:induction false} FirstLockDecides(locks: seq<LockElement>, j: nat)
    requires Lead(locks) == 0 && 0 < j < FirstStop(locks) && TakesLock(locks[j])
    requires forall m :: 0 <= m < j ==> HasUnlock(locks[m]) && ValidRange(locks[m])
    requires ValidRange(locks[j])
    ensures !AllOrNothing(locks)
  {
    hide AllOrNothing, Lead, FirstStop, HasUnlock, HasExclusive, HasShared;
    var u, r := RangeOf(Zeros(16), locks[0]), RangeOf(Zeros(16), locks[j]);
    var x := u.(exclusive := false);
    assert OTHER_FILE[0] != Zeros(16)[0];
    if r.exclusive {
      RefusedByOther(locks, j, x, LockRange(OTHER_FILE, r.start, r.end, false));
    } else if u.start <= r.start && r.end <= u.end {
      RefusedByOwn(locks, j);
    } else {
      var b: uint64 := if r.start < u.start || u.end <= r.start then r.start else u.end;
      RefusedByOther(locks, j, x, LockRange(OTHER_FILE, b, b + 1, true));
    }
  }

  /** A request that starts with an unlock and comes to a lock is never all or nothing. */
  lemma {:induction false} UnlockFirstNeverAllOrNothing(locks: seq<LockElement>, j: nat)
    requires Lead(locks) == 0 && j < FirstStop(locks) && TakesLock(locks[j])
    ensures !AllOrNothing(locks)
    decreases j
  {
    hide AllOrNothing, Lead, RangeOf, HasUnlock, HasExclusive, HasShared;
    if m :| 0 <= m < j && !HasUnlock(locks[m]) {
      assert Works(locks[m]);
      UnlockFirstNeverAllOrNothing(locks, m);
    } else {
      assert forall m :: 0 <= m <= j ==> Works(locks[m]);
      FirstLockDecides(locks, j);
    }
  }
}
