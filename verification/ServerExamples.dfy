/** The first steps of runs that other modules carry on. */
module ServerExamples {
  import opened Bytes
  import opened FileIds
  import opened Locks
  import opened ServerState
  import opened ServerInvariant
  import opened ServerSteps
  import opened ServerRuns

  const FILE := "f"
  const TREE := TreeKey(0, 1, 0)
  const PLAIN_OPEN := CreateRequest(FILE, 1, false, false, false)
  const WITH_OPLOCK := CreateRequest(FILE, 1, false, false, true)

  /** One connection with a writable tree on which `m` files were opened, and `n` messages waiting for it. */
  predicate Standing(s: State, m: nat, n: nat) {
    && 0 in s.pc && GateOpen(s, TREE) && s.trees[TREE] == Tree(false, m)
    && 0 in s.channels && s.channels[0] == n
  }

  lemma OneSessionReached() returns (s: State)
    ensures Reachable(s) && At(s, 0, Idle) && s.channels == map[0 := 0] && s.oplocks == map[] && s.opens == map[] && s.trees == map[]
    ensures s.sessions == map[SessKey(0, 1) := Session(true, 0)]
  {
    hide Reachable;
    InitialReached();
    ReachableExtends(INITIAL, Connect(0));
    var s1 := Apply(INITIAL, Connect(0));
    ReachableExtends(s1, SetupNew(0, true));
    s := Apply(s1, SetupNew(0, true));
  }

  lemma OneTreeReached() returns (s: State)
    ensures Reachable(s) && At(s, 0, Idle) && Standing(s, 0, 0) && s.oplocks == map[]
  {
    hide Reachable;
    var s1 := OneSessionReached();
    ReachableExtends(s1, ConnectTree(0, 1, false));
    s := Apply(s1, ConnectTree(0, 1, false));
  }

  lemma FreeSlot(s: State, sk: SessKey)
    requires Inv(s) && sk in s.sessions && s.sessions[sk].nextTree < 0x1_0000_0000
    ensures SlotFree(TablesOf(s), NextSlot(s, sk))
  {
    hide LocksOk, OplocksOk, ThreadsOk, ClosingOk, TreesOk, SessionsOk, CallsOk, ChannelsOk, OpensOk, Unnamed;
    NewSlotIsFresh(s.sessions, s.trees, s.opens, NextSlot(s, sk));
  }
}
