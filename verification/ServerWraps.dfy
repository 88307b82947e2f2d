/** Counters that come around in reachable states: the CREATE and the TREE_CONNECT that orphan an oplock. */
module ServerWraps {
  import opened Bytes
  import opened FileIds
  import opened Locks
  import opened ServerState
  import opened ServerInvariant
  import opened ServerSteps
  import opened ServerRuns
  import opened ServerExamples

  const OTHER_OPEN := CreateRequest("g", 1, false, false, false)
  const OWNER := OpenKey(TREE, MakeFileId(1, 0, 1))

  /** The first open of the first tree holds the oplock of its file, and its connection is at rest. */
  predicate Holding(s: State) {
    && At(s, 0, Idle) && GateOpen(s, TREE) && !s.trees[TREE].readOnly
    && OWNER in s.opens && s.opens[OWNER].path == FILE && s.opens[OWNER].number == 1
    && FILE in s.oplocks && s.oplocks[FILE] == OWNER
  }

  lemma OwnerIsNamed(s: State)
    requires Holding(s)
    ensures !Unnamed(TablesOf(s), OWNER)
  {
    hide MakeFileId, Held;
    assert FILE in TablesOf(s).oplocks;
  }

  /** One CREATE, about to be given an oplock. */
  lemma GrantingReached() returns (s: State)
    ensures Reachable(s) && At(s, 0, Granting(OWNER)) && s.opens == map[OWNER := Open(FILE, false, 1, false)] && s.oplocks == map[]
    ensures GateOpen(s, TREE) && s.trees[TREE] == Tree(false, 1) && s.sessions[SessKey(0, 1)].nextTree == 1
  {
    hide Reachable, MakeFileId, Unnamed;
    var s1 := OneSessionReached();
    ReachableExtends(s1, ConnectTree(0, 1, false));
    var s2 := Apply(s1, ConnectTree(0, 1, false));
    assert s2.trees == map[TREE := Tree(false, 0)] && s2.opens == map[] && s2.oplocks == map[];
    var step := Create(0, TREE, WITH_OPLOCK, true);
    ReachableExtends(s2, step);
    s := Apply(s2, step);
  }

  lemma HoldingReached() returns (s: State)
    ensures Reachable(s) && Holding(s) && s.trees[TREE].nextId == 1 && s.sessions[SessKey(0, 1)].nextTree == 1
  {
    hide Reachable, MakeFileId;
    var s1 := GrantingReached();
    ReachableExtends(s1, Grant(0));
    s := Apply(s1, Grant(0));
  }

  // ---------------------------------------------------------------- the counter of a tree

  lemma OneMoreOpen(s: State) returns (s': State)
    requires Reachable(s) && Holding(s) && 1 <= s.trees[TREE].nextId < 0x1_0000_0000
    ensures Reachable(s') && Holding(s') && s'.trees[TREE].nextId == s.trees[TREE].nextId + 1
  {
    hide Reachable, MakeFileId, Unnamed, Inv;
    ReachableInv(s);
    FreshKey(s, TREE);
    var step := Create(0, TREE, OTHER_OPEN, true);
    ReachableExtends(s, step);
    s' := Apply(s, step);
  }

  lemma {:induction false} OpensReached(n: nat) returns (s: State)
    requires 1 <= n <= 0x1_0000_0000
    ensures Reachable(s) && Holding(s) && s.trees[TREE].nextId == n
    decreases n
  {
    hide Reachable;
    if n == 1 {
      s := HoldingReached();
    } else {
      var s1 := OpensReached(n - 1);
      s := OneMoreOpen(s1);
    }
  }

  /** After 2^32 CREATEs on one tree the next takes the identifier of the first, which still holds its oplock. */
  lemma OpenCounterWrapIsReached()
    ensures exists s, step: Step :: Reachable(s) && step.Create? && Enabled(s, step) && !AllNamed(Apply(s, step))
  {
    hide Reachable, Inv, MakeFileId, Unnamed, AllNamed;
    var s := OpensReached(0x1_0000_0000);
    ReachableInv(s);
    OwnerIsNamed(s);
    CounterWrapOrphans(s, 0, TREE, OTHER_OPEN, OWNER);
    var step := Create(0, TREE, OTHER_OPEN, true);
    assert Enabled(s, step) && !AllNamed(Apply(s, step));
  }

  // ---------------------------------------------------------------- the counter of a session

  lemma OneMoreTree(s: State) returns (s': State)
    requires Reachable(s) && Holding(s) && 1 <= s.sessions[SessKey(0, 1)].nextTree < 0x1_0000_0000
    ensures Reachable(s') && Holding(s') && s'.sessions[SessKey(0, 1)].nextTree == s.sessions[SessKey(0, 1)].nextTree + 1
  {
    hide Reachable, MakeFileId, SlotFree, Inv;
    ReachableInv(s);
    FreeSlot(s, SessKey(0, 1));
    var step := ConnectTree(0, 1, false);
    ReachableExtends(s, step);
    s' := Apply(s, step);
  }

  lemma {:induction false} TreesReached(n: nat) returns (s: State)
    requires 1 <= n <= 0x1_0000_0000
    ensures Reachable(s) && Holding(s) && s.sessions[SessKey(0, 1)].nextTree == n
    decreases n
  {
    hide Reachable;
    if n == 1 {
      s := HoldingReached();
    } else {
      var s1 := TreesReached(n - 1);
      s := OneMoreTree(s1);
    }
  }

  /** After 2^32 TREE_CONNECTs of one session the next replaces the first tree, on which an oplock is held. */
  lemma TreeCounterWrapIsReached()
    ensures exists s, step: Step :: Reachable(s) && step.ConnectTree? && Enabled(s, step) && !AllNamed(Apply(s, step))
  {
    hide Reachable, Inv, MakeFileId, Unnamed, AllNamed;
    var s := TreesReached(0x1_0000_0000);
    ReachableInv(s);
    OwnerIsNamed(s);
    assert NextSlot(s, SessKey(0, 1)) == TREE && OWNER in TablesOf(s).opens;
    ConnectTreeKeepsNamesIff(s, 0, 1, false);
    var step := ConnectTree(0, 1, false);
    assert Enabled(s, step) && !AllNamed(Apply(s, step));
  }
}
