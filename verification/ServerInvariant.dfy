/** What every step of every connection keeps, however their steps interleave. */
module ServerInvariant {
  import opened Bytes
  import opened FileIds
  import opened Locks
  import opened ServerState

  /** Counters have not run past what their identifiers can tell apart. */
  predicate Bounded(s: State) {
    && s.nextSess < 0x1_0000_0000_0000_0000
    && (forall sk :: sk in s.sessions ==> s.sessions[sk].nextTree <= 0x1_0000_0000)
    && (forall t :: t in s.trees ==> s.trees[t].nextId <= 0x1_0000_0000)
  }

  // ------------------------------------------------- sessions, trees and opens

  predicate SessionsOk(nextSess: nat, owner: map<uint64, ConnId>, sessions: map<SessKey, Session>) {
    && (forall id :: id in owner ==> 1 <= id <= nextSess)
    && (forall sk :: sk in sessions ==> sk.sess in owner && owner[sk.sess] == sk.conn)
  }

  /** Trees hang off authenticated sessions and carry ids already counted. */
  predicate TreesOk(sessions: map<SessKey, Session>, trees: map<TreeKey, Tree>) {
    forall t :: t in trees ==>
      && SessionAt(t) in sessions
      && sessions[SessionAt(t)].authenticated
      && t.tree < sessions[SessionAt(t)].nextTree
  }

  predicate OpensOk(trees: map<TreeKey, Tree>, opens: map<OpenKey, Open>) {
    forall k :: k in opens ==>
      && k.at in trees
      && k.fid == MakeFileId(k.at.sess, k.at.tree, opens[k].number)
      && 1 <= opens[k].number <= trees[k.at].nextId
      && (trees[k.at].readOnly ==> !opens[k].deletePending)
  }

  predicate ClosingOk(opens: map<OpenKey, Open>, pc: map<ConnId, Pc>) {
    forall k :: k in opens && opens[k].closing ==>
      k.at.conn in pc && (pc[k.at.conn] == Releasing(k) || pc[k.at.conn] == Unlocking(k))
  }

  /** Only reads reach a read-only share. */
  predicate CallsOk(calls: seq<BackendCall>) {
    forall i :: 0 <= i < |calls| && calls[i].readOnly ==> calls[i].call.Touch? && !calls[i].call.access.write
  }

  /** Channels stay within their size, and whoever is to be notified has one. */
  predicate ChannelsOk(owner: map<uint64, ConnId>, channels: map<ConnId, nat>, pc: map<ConnId, Pc>) {
    && (forall id :: id in owner ==> owner[id] in pc)
    && channels.Keys == pc.Keys
    && (forall c :: c in channels ==> channels[c] <= CHANNEL_SIZE)
    && (forall c :: c in pc && pc[c].Notifying? ==> pc[c].to in pc)
  }

  // ------------------------------------------------------------ shared tables

  datatype Tables = Tables(opens: map<OpenKey, Open>, locks: map<string, seq<LockRange>>, oplocks: map<string, OpenKey>) {
    function At(path: string): seq<LockRange> {
      if path in locks then locks[path] else []
    }

    function Holds(job: LockJob): multiset<LockRange> {
      Held(At(job.path), job.key.fid)
    }
  }

  function TablesOf(s: State): Tables { Tables(s.opens, s.locks, s.oplocks) }

  /** The only key an identifier can belong to. */
  function KeyOf(owner: map<uint64, ConnId>, fid: FileId): OpenKey
    requires SessionOf(fid) in owner
  {
    OpenKey(TreeKey(owner[SessionOf(fid)], SessionOf(fid), TreeOf(fid)), fid)
  }

  predicate NamesOpen(owner: map<uint64, ConnId>, opens: map<OpenKey, Open>, fid: FileId, path: string) {
    SessionOf(fid) in owner && KeyOf(owner, fid) in opens && opens[KeyOf(owner, fid)].path == path
  }

  predicate TableOk(owner: map<uint64, ConnId>, opens: map<OpenKey, Open>, path: string, ranges: seq<LockRange>) {
    Consistent(ranges) && forall r :: r in ranges ==> NamesOpen(owner, opens, r.fileId, path)
  }

  predicate LocksOk(owner: map<uint64, ConnId>, opens: map<OpenKey, Open>, locks: map<string, seq<LockRange>>) {
    forall p :: p in locks ==> TableOk(owner, opens, p, locks[p])
  }

  predicate OplocksOk(opens: map<OpenKey, Open>, oplocks: map<string, OpenKey>) {
    forall p :: p in oplocks ==> oplocks[p] in opens && opens[oplocks[p]].path == p
  }

  /** Opens carry identifiers that lead back to their keys. */
  predicate KeysOk(owner: map<uint64, ConnId>, opens: map<OpenKey, Open>) {
    forall k :: k in opens ==> SessionOf(k.fid) in owner && KeyOf(owner, k.fid) == k
  }

  // -------------------------------------------------------- where threads are

  predicate Mine(t: Tables, c: ConnId, key: OpenKey, path: string) {
    key.at.conn == c && key in t.opens && t.opens[key].path == path && !t.opens[key].closing
  }

  predicate NoOplock(t: Tables, key: OpenKey) {
    forall p :: p in t.oplocks ==> t.oplocks[p] != key
  }

  /** No table names the open any more. */
  ghost predicate Unnamed(t: Tables, key: OpenKey) {
    NoOplock(t, key) && forall p :: Held(t.At(p), key.fid) == multiset{}
  }

  /** In the middle of a LOCK request the file holds what the elements carried out so far made of it. */
  ghost predicate LockingOk(h: multiset<LockRange>, job: LockJob, next: nat, acquired: seq<LockElement>) {
    && next <= FirstStop(job.locks) && acquired == Takes(job.locks[..next])
    && h == After(job.before, job.key.fid, job.locks[..next])
  }

  ghost predicate LeftBy(h: multiset<LockRange>, job: LockJob, stop: nat, status: Status) {
    Leaves(h, status, job.key.fid, job.locks, stop, job.before)
  }

  /** A rollback answers a conflict or an invalid range, and has only to unlock what was acquired. */
  ghost predicate RollingOk(h: multiset<LockRange>, job: LockJob, stop: nat, acquired: seq<LockElement>, status: Status) {
    LeftBy(Stripped(h, job.key.fid, acquired), job, stop, status)
  }

  ghost predicate DrainingOk(t: Tables, c: ConnId, todo: set<OpenKey>, half: Option<OpenKey>, goal: Goal) {
    && (forall k :: k in todo ==> k in t.opens && InScope(k, c, goal))
    && (forall k :: k in t.opens && InScope(k, c, goal) && k !in todo ==> Unnamed(t, k))
    && (half.Some? ==> half.value in todo && NoOplock(t, half.value))
    && (goal.DropTree? ==> goal.tree.conn == c)
    && (goal.DropSession? ==> goal.sess.conn == c)
  }

  ghost predicate ThreadOk(t: Tables, c: ConnId, pc: Pc) {
    match pc
    case Idle => true
    case Granting(key) => key.at.conn == c && key in t.opens && !t.opens[key].closing
    case Breaking(_) => true
    case Notifying(_) => true
    case Accessing(a, readOnly) => Mine(t, c, a.key, a.path) && (a.write ==> !readOnly)
    case Locking(job, next, acquired) => Mine(t, c, job.key, job.path) && LockingOk(t.Holds(job), job, next, acquired)
    case RollingBack(job, stop, acquired, status) => Mine(t, c, job.key, job.path) && RollingOk(t.Holds(job), job, stop, acquired, status)
    case LockDone(job, stop, status) => Mine(t, c, job.key, job.path) && LeftBy(t.Holds(job), job, stop, status)
    case Releasing(key) => key.at.conn == c && key in t.opens && t.opens[key].closing
    case Unlocking(key) => key.at.conn == c && key in t.opens && t.opens[key].closing && NoOplock(t, key)
    case Removing(readOnly) => !readOnly
    case Draining(todo, half, goal) => DrainingOk(t, c, todo, half, goal)
    case Closed => forall k :: k in t.opens ==> k.at.conn != c
  }

  ghost predicate ThreadsOk(t: Tables, pc: map<ConnId, Pc>) {
    forall c :: c in pc ==> ThreadOk(t, c, pc[c])
  }

  ghost predicate Inv(s: State) {
    && SessionsOk(s.nextSess, s.owner, s.sessions)
    && TreesOk(s.sessions, s.trees)
    && OpensOk(s.trees, s.opens)
    && ClosingOk(s.opens, s.pc)
    && LocksOk(s.owner, s.opens, s.locks)
    && OplocksOk(s.opens, s.oplocks)
    && ThreadsOk(TablesOf(s), s.pc)
    && CallsOk(s.calls)
    && ChannelsOk(s.owner, s.channels, s.pc)
  }

  // -------------------------------------------------------------- identifiers

  lemma KeysLeadBack(s: State)
    requires SessionsOk(s.nextSess, s.owner, s.sessions) && TreesOk(s.sessions, s.trees) && OpensOk(s.trees, s.opens)
    ensures KeysOk(s.owner, s.opens)
  {
    forall k | k in s.opens ensures SessionOf(k.fid) in s.owner && KeyOf(s.owner, k.fid) == k {
      FileIdParts(k.at.sess, k.at.tree, s.opens[k].number);
      assert SessionAt(k.at) in s.sessions;
    }
  }

  /** Identifiers of opens are unique across all connections, closing ones included. */
  lemma UniqueFileIds(s: State, k1: OpenKey, k2: OpenKey)
    requires Inv(s) && k1 in s.opens && k2 in s.opens && k1.fid == k2.fid
    ensures k1 == k2
  {
    KeysLeadBack(s);
    assert KeyOf(s.owner, k1.fid) == k1;
  }

  // ------------------------------------------------- steps of other connections

  /** A change that leaves alone what a connection's own opens mean to the tables. */
  ghost predicate Steady(t: Tables, t': Tables, c: ConnId) {
    && (forall k: OpenKey :: k.at.conn == c ==> (k in t.opens <==> k in t'.opens))
    && (forall k :: k in t.opens && k.at.conn == c ==> t'.opens[k] == t.opens[k])
    && (forall p :: p in t'.oplocks && t'.oplocks[p].at.conn == c ==> p in t.oplocks && t.oplocks[p] == t'.oplocks[p])
    && (forall k, p :: k in t.opens && k.at.conn == c ==> Held(t'.At(p), k.fid) == Held(t.At(p), k.fid))
  }

  lemma SteadyNoOplock(t: Tables, t': Tables, k: OpenKey)
    requires Steady(t, t', k.at.conn) && NoOplock(t, k)
    ensures NoOplock(t', k)
  {
  }

  lemma SteadyUnnamed(t: Tables, t': Tables, k: OpenKey)
    requires Steady(t, t', k.at.conn) && k in t.opens && Unnamed(t, k)
    ensures Unnamed(t', k)
  {
    SteadyNoOplock(t, t', k);
  }

  lemma SteadyDraining(t: Tables, t': Tables, c: ConnId, todo: set<OpenKey>, half: Option<OpenKey>, goal: Goal)
    requires Steady(t, t', c) && DrainingOk(t, c, todo, half, goal)
    ensures DrainingOk(t', c, todo, half, goal)
  {
    forall k | k in t'.opens && InScope(k, c, goal) && k !in todo ensures Unnamed(t', k) {
      SteadyUnnamed(t, t', k);
    }
    if half.Some? { SteadyNoOplock(t, t', half.value); }
  }

  lemma SteadyThread(t: Tables, t': Tables, c: ConnId, pc: Pc)
    requires Steady(t, t', c) && ThreadOk(t, c, pc)
    ensures ThreadOk(t', c, pc)
  {
    hide LockingOk, RollingOk, LeftBy;
    match pc
    case Draining(todo, half, goal) => SteadyDraining(t, t', c, todo, half, goal);
    case _ =>
  }

  /** One connection moves on; the others need only find their tables steady. */
  lemma ThreadsStep(t: Tables, t': Tables, pc: map<ConnId, Pc>, c: ConnId, next: Pc)
    requires ThreadsOk(t, pc) && ThreadOk(t', c, next)
    requires forall d :: d in pc && d != c ==> Steady(t, t', d)
    ensures ThreadsOk(t', pc[c := next])
  {
    var pc' := pc[c := next];
    forall d | d in pc' ensures ThreadOk(t', d, pc'[d]) {
      if d != c { SteadyThread(t, t', d, pc[d]); }
    }
  }

  lemma SteadyRefl(t: Tables, c: ConnId)
    ensures Steady(t, t, c)
  {
  }

  lemma GotoKeepsThreads(t: Tables, pc: map<ConnId, Pc>, c: ConnId, next: Pc)
    requires ThreadsOk(t, pc) && ThreadOk(t, c, next)
    ensures ThreadsOk(t, pc[c := next])
  {
    forall d | d in pc && d != c ensures Steady(t, t, d) { SteadyRefl(t, d); }
    ThreadsStep(t, t, pc, c, next);
  }

  lemma OplockDropSteady(t: Tables, p: string, d: ConnId)
    ensures Steady(t, t.(oplocks := t.oplocks - {p}), d)
  {
  }

  lemma OplockGrantSteady(t: Tables, p: string, key: OpenKey, d: ConnId)
    requires d != key.at.conn
    ensures Steady(t, t.(oplocks := t.oplocks[p := key]), d)
  {
  }

  lemma OpensSteady(t: Tables, opens': map<OpenKey, Open>, c: ConnId, d: ConnId)
    requires d != c
    requires forall k: OpenKey :: k.at.conn != c ==> (k in t.opens <==> k in opens')
    requires forall k :: k in t.opens && k.at.conn != c ==> opens'[k] == t.opens[k]
    ensures Steady(t, t.(opens := opens'), d)
  {
  }

  /** A change of one file's entries at one path. */
  ghost predicate OnlyFile(before: seq<LockRange>, after: seq<LockRange>, fid: FileId) {
    forall f: FileId :: f != fid ==> Held(after, f) == Held(before, f)
  }

  lemma LocksSteady(owner: map<uint64, ConnId>, t: Tables, path: string, after: seq<LockRange>, key: OpenKey, d: ConnId)
    requires KeysOk(owner, t.opens) && key in t.opens && d != key.at.conn
    requires OnlyFile(t.At(path), after, key.fid)
    ensures Steady(t, t.(locks := t.locks[path := after]), d)
  {
    var t' := t.(locks := t.locks[path := after]);
    forall k, p | k in t.opens && k.at.conn == d ensures Held(t'.At(p), k.fid) == Held(t.At(p), k.fid) {
      assert KeyOf(owner, k.fid) == k && KeyOf(owner, key.fid) == key;
    }
  }

  // ------------------------------------------------- identifiers that come around

  /** The identifier the next CREATE on the tree gives out. */
  function NextKey(s: State, at: TreeKey): OpenKey
    requires at in s.trees
  {
    OpenKey(at, MakeFileId(at.sess, at.tree, s.trees[at].nextId + 1))
  }

  /** The place the next TREE_CONNECT on the session gives out. */
  function NextSlot(s: State, sk: SessKey): TreeKey
    requires sk in s.sessions
  {
    TreeKey(sk.conn, sk.sess, s.sessions[sk].nextTree % 0x1_0000_0000)
  }

  /** Taking this identifier forgets no open that a table still names under another path. */
  ghost predicate KeyFree(t: Tables, key: OpenKey, path: string) {
    key !in t.opens || t.opens[key].path == path || Unnamed(t, key)
  }

  ghost predicate SlotFree(t: Tables, slot: TreeKey) {
    forall k :: k in t.opens && k.at == slot ==> Unnamed(t, k)
  }

  predicate Makes(s: State, at: TreeKey, req: CreateRequest, ok: bool)
    requires at in s.trees
  {
    ok && !(s.trees[at].readOnly && RefusedReadOnly(req))
  }

  /** The identifier a step gives out is not one that something still hangs on. */
  ghost predicate Safe(s: State, step: Step)
    requires Enabled(s, step)
  {
    match step
    case SetupNew(_, _) => s.nextSess + 1 < 0x1_0000_0000_0000_0000
    case ConnectTree(c, sess, _) => SlotFree(TablesOf(s), NextSlot(s, SessKey(c, sess)))
    case Create(_, at, req, ok) => Makes(s, at, req, ok) ==> KeyFree(TablesOf(s), NextKey(s, at), req.path)
    case _ => true
  }
}
