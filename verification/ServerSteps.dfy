/** Every step keeps the invariant of the server. */
module ServerSteps {
  import opened Bytes
  import opened FileIds
  import opened Locks
  import opened ServerState
  import opened ServerInvariant

  // ---------------------------------------------------------------- monotonicity

  lemma LocksOkMono(owner: map<uint64, ConnId>, opens: map<OpenKey, Open>, owner': map<uint64, ConnId>, opens': map<OpenKey, Open>, locks: map<string, seq<LockRange>>)
    requires LocksOk(owner, opens, locks)
    requires forall id :: id in owner ==> id in owner' && owner'[id] == owner[id]
    requires forall k :: k in opens ==> k in opens' && opens'[k].path == opens[k].path
    ensures LocksOk(owner', opens', locks)
  {
    forall p | p in locks ensures TableOk(owner', opens', p, locks[p]) {
      forall r | r in locks[p] ensures NamesOpen(owner', opens', r.fileId, p) {
        assert NamesOpen(owner, opens, r.fileId, p);
      }
    }
  }

  lemma LocksOkPut(owner: map<uint64, ConnId>, opens: map<OpenKey, Open>, locks: map<string, seq<LockRange>>, path: string, after: seq<LockRange>)
    requires LocksOk(owner, opens, locks) && TableOk(owner, opens, path, after)
    ensures LocksOk(owner, opens, locks[path := after])
  {
  }

  lemma ClosingElsewhere(opens: map<OpenKey, Open>, pc: map<ConnId, Pc>, c: ConnId, next: Pc)
    requires ClosingOk(opens, pc) && (c in pc ==> !pc[c].Releasing? && !pc[c].Unlocking?)
    ensures ClosingOk(opens, pc[c := next])
  {
  }

  lemma ClosingMovesOn(opens: map<OpenKey, Open>, pc: map<ConnId, Pc>, c: ConnId)
    requires ClosingOk(opens, pc) && c in pc && pc[c].Releasing?
    ensures ClosingOk(opens, pc[c := Unlocking(pc[c].key)])
  {
  }

  lemma OplocksOkMono(opens: map<OpenKey, Open>, opens': map<OpenKey, Open>, oplocks: map<string, OpenKey>)
    requires OplocksOk(opens, oplocks)
    requires forall k :: k in opens ==> k in opens' && opens'[k].path == opens[k].path
    ensures OplocksOk(opens', oplocks)
  {
  }

  lemma OplocksOkDrop(opens: map<OpenKey, Open>, oplocks: map<string, OpenKey>, path: string)
    requires OplocksOk(opens, oplocks)
    ensures OplocksOk(opens, oplocks - {path})
  {
  }

  lemma OplocksOkGrant(opens: map<OpenKey, Open>, oplocks: map<string, OpenKey>, key: OpenKey)
    requires OplocksOk(opens, oplocks) && key in opens
    ensures OplocksOk(opens, oplocks[opens[key].path := key])
  {
  }

  lemma ChannelsGoto(owner: map<uint64, ConnId>, channels: map<ConnId, nat>, pc: map<ConnId, Pc>, c: ConnId, next: Pc)
    requires ChannelsOk(owner, channels, pc) && c in pc && (next.Notifying? ==> next.to in pc)
    ensures ChannelsOk(owner, channels, pc[c := next])
  {
    assert pc[c := next].Keys == pc.Keys;
  }

  // ------------------------------------------------------------ session steps

  lemma ConnectKeeps(s: State, c: ConnId)
    requires Inv(s) && c !in s.pc
    ensures Inv(Goto(s.(channels := s.channels[c := 0]), c, Idle))
  {
    hide LocksOk, OplocksOk, ThreadsOk, ClosingOk, TreesOk, OpensOk, SessionsOk, CallsOk, ChannelsOk;
    GotoKeepsThreads(TablesOf(s), s.pc, c, Idle);
    ClosingElsewhere(s.opens, s.pc, c, Idle);
    NewChannel(s.owner, s.channels, s.pc, c);
  }

  lemma NewChannel(owner: map<uint64, ConnId>, channels: map<ConnId, nat>, pc: map<ConnId, Pc>, c: ConnId)
    requires ChannelsOk(owner, channels, pc)
    ensures ChannelsOk(owner, channels[c := 0], pc[c := Idle])
  {
    assert pc[c := Idle].Keys == pc.Keys + {c} && channels[c := 0].Keys == channels.Keys + {c};
  }

  /** A message enters or leaves a channel. */
  lemma ChannelKeeps(s: State, c: ConnId, n: nat)
    requires Inv(s) && c in s.channels && n <= CHANNEL_SIZE
    ensures Inv(s.(channels := s.channels[c := n]))
  {
    hide LocksOk, OplocksOk, ThreadsOk, ClosingOk, TreesOk, OpensOk, SessionsOk, CallsOk;
    assert s.channels[c := n].Keys == s.channels.Keys;
  }

  lemma NewSessionIsFresh(s: State, c: ConnId, accepted: bool)
    requires SessionsOk(s.nextSess, s.owner, s.sessions) && TreesOk(s.sessions, s.trees)
    requires s.nextSess + 1 < 0x1_0000_0000_0000_0000
    ensures
      var s' := NewSession(s, c, accepted);
      && SessionsOk(s'.nextSess, s'.owner, s'.sessions) && TreesOk(s'.sessions, s'.trees)
      && forall id :: id in s.owner ==> id in s'.owner && s'.owner[id] == s.owner[id]
  {
    var id: uint64 := s.nextSess + 1;
    assert id !in s.owner;
  }

  lemma NewSessionKeeps(s: State, c: ConnId, accepted: bool)
    requires Inv(s) && c in s.pc && s.nextSess + 1 < 0x1_0000_0000_0000_0000
    ensures Inv(NewSession(s, c, accepted))
  {
    hide LocksOk, OplocksOk, ThreadsOk, ClosingOk, TreesOk, OpensOk, SessionsOk, CallsOk;
    var s' := NewSession(s, c, accepted);
    NewSessionIsFresh(s, c, accepted);
    LocksOkMono(s.owner, s.opens, s'.owner, s.opens, s.locks);
  }

  lemma SetupMoreKeeps(s: State, sk: SessKey, accepted: bool)
    requires Inv(s) && sk in s.sessions
    ensures Inv(SetupMore(s, sk, accepted))
  {
  }

  lemma NewTreeTrees(s: State, c: ConnId, sess: uint64, readOnly: bool)
    requires TreesOk(s.sessions, s.trees) && OpensOk(s.trees, s.opens)
    requires SessionsOk(s.nextSess, s.owner, s.sessions)
    requires var sk := SessKey(c, sess); sk in s.sessions && s.sessions[sk].authenticated
    ensures
      var s' := NewTree(s, c, sess, readOnly);
      SessionsOk(s'.nextSess, s'.owner, s'.sessions) && TreesOk(s'.sessions, s'.trees) && OpensOk(s'.trees, s'.opens)
  {
    var sk := SessKey(c, sess);
    AddTree(s.sessions, s.trees, s.opens, sk, NextSlot(s, sk), readOnly);
    SessionsChange(s.nextSess, s.owner, s.sessions, sk, s.sessions[sk].(nextTree := s.sessions[sk].nextTree + 1));
    hide TreesOk, OpensOk, SessionsOk;
  }

  lemma SessionsChange(nextSess: nat, owner: map<uint64, ConnId>, sessions: map<SessKey, Session>, sk: SessKey, session: Session)
    requires SessionsOk(nextSess, owner, sessions) && sk in sessions
    ensures SessionsOk(nextSess, owner, sessions[sk := session])
  {
  }

  /** The opens outside a slot. */
  function OutsideSlot(opens: map<OpenKey, Open>, slot: TreeKey): map<OpenKey, Open> {
    map k | k in opens && k.at != slot :: opens[k]
  }

  lemma AddTree(sessions: map<SessKey, Session>, trees: map<TreeKey, Tree>, opens: map<OpenKey, Open>, sk: SessKey, t: TreeKey, readOnly: bool)
    requires TreesOk(sessions, trees) && OpensOk(trees, opens)
    requires sk in sessions && sessions[sk].authenticated && SessionAt(t) == sk && t.tree <= sessions[sk].nextTree
    ensures TreesOk(sessions[sk := sessions[sk].(nextTree := sessions[sk].nextTree + 1)], trees[t := Tree(readOnly, 0)])
    ensures OpensOk(trees[t := Tree(readOnly, 0)], OutsideSlot(opens, t))
  {
  }

  /** Emptying a slot whose opens no table names. */
  lemma EmptySlot(owner: map<uint64, ConnId>, t: Tables, pc: map<ConnId, Pc>, c: ConnId, slot: TreeKey)
    requires KeysOk(owner, t.opens) && LocksOk(owner, t.opens, t.locks) && OplocksOk(t.opens, t.oplocks)
    requires ThreadsOk(t, pc) && ClosingOk(t.opens, pc) && slot.conn == c && c in pc && pc[c] == Idle && SlotFree(t, slot)
    ensures
      var t' := t.(opens := OutsideSlot(t.opens, slot));
      LocksOk(owner, t'.opens, t'.locks) && OplocksOk(t'.opens, t'.oplocks) && ThreadsOk(t', pc) && ClosingOk(t'.opens, pc)
  {
    hide KeysOk, LocksOk, OplocksOk;
    var t' := t.(opens := OutsideSlot(t.opens, slot));
    assert forall k :: k in t.opens && k !in t'.opens ==> Unnamed(t, k);
    RemoveUnnamed(owner, t, t'.opens);
    forall d | d in pc && d != c ensures Steady(t, t', d) { OpensSteady(t, t'.opens, c, d); }
    ThreadsStep(t, t', pc, c, Idle);
    assert pc[c := Idle] == pc;
  }

  lemma NewTreeKeeps(s: State, c: ConnId, sess: uint64, readOnly: bool)
    requires Inv(s) && c in s.pc && s.pc[c] == Idle && SessKey(c, sess) in s.sessions && s.sessions[SessKey(c, sess)].authenticated
    requires SlotFree(TablesOf(s), NextSlot(s, SessKey(c, sess)))
    ensures Inv(NewTree(s, c, sess, readOnly))
  {
    hide LocksOk, OplocksOk, ThreadsOk, ClosingOk, TreesOk, OpensOk, SessionsOk, CallsOk, ChannelsOk, SlotFree;
    NewTreeTrees(s, c, sess, readOnly);
    KeysLeadBack(s);
    EmptySlot(s.owner, TablesOf(s), s.pc, c, NextSlot(s, SessKey(c, sess)));
  }

  // ------------------------------------------------------------- open and close

  /** Under the bound a new open never takes the identifier of one that is still there. */
  lemma NewIdIsFresh(trees: map<TreeKey, Tree>, opens: map<OpenKey, Open>, at: TreeKey)
    requires OpensOk(trees, opens) && at in trees && trees[at].nextId < 0x1_0000_0000
    ensures OpenKey(at, MakeFileId(at.sess, at.tree, trees[at].nextId + 1)) !in opens
  {
    var n := trees[at].nextId + 1;
    var key := OpenKey(at, MakeFileId(at.sess, at.tree, n));
    if key in opens {
      FileIdsCollideIff(at.sess, at.tree, n, at.sess, at.tree, opens[key].number);
    }
  }

  /** Entries of the tables that name the key name it under the path it keeps. */
  lemma NamedStay(owner: map<uint64, ConnId>, t: Tables, key: OpenKey, open: Open)
    requires LocksOk(owner, t.opens, t.locks) && OplocksOk(t.opens, t.oplocks) && KeyFree(t, key, open.path)
    ensures LocksOk(owner, t.opens[key := open], t.locks) && OplocksOk(t.opens[key := open], t.oplocks)
  {
    forall p | p in t.locks ensures TableOk(owner, t.opens[key := open], p, t.locks[p]) {
      assert TableOk(owner, t.opens, p, t.locks[p]);
      forall r | r in t.locks[p] ensures NamesOpen(owner, t.opens[key := open], r.fileId, p) {
        assert NamesOpen(owner, t.opens, r.fileId, p);
        if KeyOf(owner, r.fileId) == key && t.opens[key].path != open.path {
          NamedIsNamed(t, key, p, r);
          assert false;
        }
      }
    }
  }

  lemma NamedIsNamed(t: Tables, key: OpenKey, p: string, r: LockRange)
    requires p in t.locks && r in t.locks[p] && r.fileId == key.fid
    ensures !Unnamed(t, key)
  {
    SelectHas(t.At(p), key.fid, true, r);
    assert r in Held(t.At(p), key.fid);
  }

  lemma AddOpen(owner: map<uint64, ConnId>, t: Tables, pc: map<ConnId, Pc>, c: ConnId, key: OpenKey, open: Open, next: Pc)
    requires LocksOk(owner, t.opens, t.locks) && OplocksOk(t.opens, t.oplocks) && ClosingOk(t.opens, pc) && ThreadsOk(t, pc)
    requires KeyFree(t, key, open.path) && key.at.conn == c && !open.closing && c in pc && pc[c] == Idle
    requires next == Granting(key) || next == Idle
    ensures
      var t' := t.(opens := t.opens[key := open]);
      && LocksOk(owner, t'.opens, t'.locks) && OplocksOk(t'.opens, t'.oplocks)
      && ClosingOk(t'.opens, pc[c := next]) && ThreadsOk(t', pc[c := next])
  {
    hide LocksOk, OplocksOk, KeyFree;
    var t' := t.(opens := t.opens[key := open]);
    NamedStay(owner, t, key, open);
    forall d | d in pc && d != c ensures Steady(t, t', d) { OpensSteady(t, t'.opens, c, d); }
    ThreadsStep(t, t', pc, c, next);
  }

  lemma AddOpenOpens(sessions: map<SessKey, Session>, trees: map<TreeKey, Tree>, opens: map<OpenKey, Open>, key: OpenKey, open: Open)
    requires OpensOk(trees, opens) && TreesOk(sessions, trees) && key.at in trees
    requires open.number == trees[key.at].nextId + 1 && key.fid == MakeFileId(key.at.sess, key.at.tree, open.number)
    requires trees[key.at].readOnly ==> !open.deletePending
    ensures
      var trees' := trees[key.at := trees[key.at].(nextId := open.number)];
      OpensOk(trees', opens[key := open]) && TreesOk(sessions, trees')
  {
  }

  lemma InsertOpenKeeps(s: State, c: ConnId, key: OpenKey, open: Open, next: Pc)
    requires Inv(s) && c in s.pc && s.pc[c] == Idle && key.at.conn == c && key.at in s.trees && KeyFree(TablesOf(s), key, open.path)
    requires open.number == s.trees[key.at].nextId + 1 && key.fid == MakeFileId(key.at.sess, key.at.tree, open.number)
    requires (s.trees[key.at].readOnly ==> !open.deletePending) && !open.closing
    requires next == Granting(key) || next == Idle
    ensures Inv(s.(trees := s.trees[key.at := s.trees[key.at].(nextId := open.number)],
                   opens := s.opens[key := open],
                   pc := s.pc[c := next]))
  {
    hide LocksOk, OplocksOk, ThreadsOk, ClosingOk, TreesOk, OpensOk, SessionsOk, CallsOk, ChannelsOk;
    ChannelsGoto(s.owner, s.channels, s.pc, c, next);
    AddOpen(s.owner, TablesOf(s), s.pc, c, key, open, next);
    AddOpenOpens(s.sessions, s.trees, s.opens, key, open);
  }

  lemma CreateOpenKeeps(s: State, c: ConnId, at: TreeKey, req: CreateRequest, ok: bool)
    requires Inv(s) && c in s.pc && s.pc[c] == Idle && at.conn == c && at in s.trees
    requires Makes(s, at, req, ok) ==> KeyFree(TablesOf(s), NextKey(s, at), req.path)
    ensures Inv(CreateOpen(s, c, at, req, ok))
  {
    hide LocksOk, OplocksOk, ThreadsOk, ClosingOk, TreesOk, OpensOk, SessionsOk, CallsOk, ChannelsOk, KeyFree;
    if Makes(s, at, req, ok) {
      var key := NextKey(s, at);
      var next := if req.wantsOplock then Granting(key) else Idle;
      InsertOpenKeeps(s, c, key, Open(req.path, req.deleteOnClose, s.trees[at].nextId + 1, false), next);
      assert s.pc[c := Idle] == s.pc;
    }
  }

  lemma GrantKeeps(s: State, c: ConnId)
    requires Inv(s) && c in s.pc && s.pc[c].Granting? && s.pc[c].key in s.opens
    ensures Inv(GrantOplock(s, c))
  {
    hide LocksOk, OplocksOk, ThreadsOk, ClosingOk, TreesOk, OpensOk, SessionsOk, CallsOk, ChannelsOk;
    var key := s.pc[c].key;
    var path := s.opens[key].path;
    var t := TablesOf(s);
    if path in s.oplocks {
      GotoKeepsThreads(t, s.pc, c, Breaking(path));
      ClosingElsewhere(s.opens, s.pc, c, Breaking(path));
      ChannelsGoto(s.owner, s.channels, s.pc, c, Breaking(path));
    } else {
      ChannelsGoto(s.owner, s.channels, s.pc, c, Idle);
      GrantThreads(t, s.pc, c, path, key);
      OplocksOkGrant(s.opens, s.oplocks, key);
      ClosingElsewhere(s.opens, s.pc, c, Idle);
    }
  }

  lemma GrantThreads(t: Tables, pc: map<ConnId, Pc>, c: ConnId, path: string, key: OpenKey)
    requires ThreadsOk(t, pc) && c in pc && pc[c] == Granting(key)
    ensures ThreadsOk(t.(oplocks := t.oplocks[path := key]), pc[c := Idle])
  {
    var t' := t.(oplocks := t.oplocks[path := key]);
    assert ThreadOk(t, c, pc[c]);
    forall d | d in pc && d != c ensures Steady(t, t', d) { OplockGrantSteady(t, path, key, d); }
    ThreadsStep(t, t', pc, c, Idle);
  }

  lemma DropOplockThreads(t: Tables, pc: map<ConnId, Pc>, c: ConnId, path: string, next: Pc)
    requires ThreadsOk(t, pc) && ThreadOk(t.(oplocks := t.oplocks - {path}), c, next)
    ensures ThreadsOk(t.(oplocks := t.oplocks - {path}), pc[c := next])
  {
    var t' := t.(oplocks := t.oplocks - {path});
    forall d | d in pc && d != c ensures Steady(t, t', d) { OplockDropSteady(t, path, d); }
    ThreadsStep(t, t', pc, c, next);
  }

  /** The thread may move anywhere its own condition holds, as long as no close of its own is under way. */
  lemma DropOplockKeeps(s: State, c: ConnId, path: string, next: Pc)
    requires Inv(s) && c in s.pc && ThreadOk(TablesOf(s).(oplocks := s.oplocks - {path}), c, next)
    requires s.pc[c].Releasing? ==> next == Unlocking(s.pc[c].key)
    requires !s.pc[c].Unlocking? && (next.Notifying? ==> next.to in s.pc)
    ensures Inv(DropOplock(s, c, path, next))
  {
    hide LocksOk, OplocksOk, ThreadsOk, ClosingOk, TreesOk, OpensOk, SessionsOk, CallsOk, ChannelsOk;
    ChannelsGoto(s.owner, s.channels, s.pc, c, next);
    DropOplockThreads(TablesOf(s), s.pc, c, path, next);
    OplocksOkDrop(s.opens, s.oplocks, path);
    if s.pc[c].Releasing? {
      ClosingMovesOn(s.opens, s.pc, c);
    } else {
      ClosingElsewhere(s.opens, s.pc, c, next);
    }
  }

  /** The holder of an oplock is a connection that was once set up. */
  lemma HolderIsThere(s: State, path: string)
    requires Inv(s) && path in s.oplocks
    ensures s.oplocks[path].at.conn in s.pc
  {
    hide LocksOk, ThreadsOk, ClosingOk, CallsOk;
    var k := s.oplocks[path];
    assert k in s.opens && k.at in s.trees && SessionAt(k.at) in s.sessions;
    assert s.owner[k.at.sess] == k.at.conn;
  }

  lemma BreakKeeps(s: State, c: ConnId, path: string)
    requires Inv(s) && c in s.pc && s.pc[c].Breaking?
    ensures Inv(BreakOplock(s, c, path))
  {
    hide Inv;
    if path in s.oplocks { HolderIsThere(s, path); }
    DropOplockKeeps(s, c, path, if path in s.oplocks then Notifying(s.oplocks[path].at.conn) else Idle);
  }

  lemma OplockGone(t: Tables, key: OpenKey)
    requires OplocksOk(t.opens, t.oplocks) && key in t.opens
    ensures NoOplock(t.(oplocks := t.oplocks - {t.opens[key].path}), key)
  {
  }

  lemma ReleaseKeeps(s: State, c: ConnId)
    requires Inv(s) && c in s.pc && s.pc[c].Releasing? && s.pc[c].key in s.opens
    ensures Inv(DropOplock(s, c, s.opens[s.pc[c].key].path, Unlocking(s.pc[c].key)))
  {
    hide LocksOk, OplocksOk, ThreadsOk, ClosingOk, TreesOk, OpensOk, SessionsOk, CallsOk, ChannelsOk;
    ThreadAt(s, c);
    OplockGone(TablesOf(s), s.pc[c].key);
    DropOplockKeeps(s, c, s.opens[s.pc[c].key].path, Unlocking(s.pc[c].key));
  }

  lemma ChangeOpenThreads(t: Tables, pc: map<ConnId, Pc>, c: ConnId, key: OpenKey, open: Open, next: Pc)
    requires ThreadsOk(t, pc) && key.at.conn == c && ThreadOk(t.(opens := t.opens[key := open]), c, next)
    ensures ThreadsOk(t.(opens := t.opens[key := open]), pc[c := next])
  {
    var t' := t.(opens := t.opens[key := open]);
    forall d | d in pc && d != c ensures Steady(t, t', d) { OpensSteady(t, t'.opens, c, d); }
    ThreadsStep(t, t', pc, c, next);
  }

  lemma ChangeOpenOpens(trees: map<TreeKey, Tree>, opens: map<OpenKey, Open>, pc: map<ConnId, Pc>, c: ConnId, key: OpenKey, open: Open, next: Pc)
    requires OpensOk(trees, opens) && ClosingOk(opens, pc)
    requires key in opens && key.at.conn == c && c in pc && pc[c] == Idle
    requires open.number == opens[key].number
    requires trees[key.at].readOnly ==> !open.deletePending
    requires open.closing ==> next == Releasing(key)
    ensures OpensOk(trees, opens[key := open]) && ClosingOk(opens[key := open], pc[c := next])
  {
  }

  lemma StartCloseKeeps(s: State, c: ConnId, key: OpenKey)
    requires Inv(s) && c in s.pc && s.pc[c] == Idle && key.at.conn == c && key in s.opens && !s.opens[key].closing
    ensures Inv(StartClose(s, c, key))
  {
    hide LocksOk, OplocksOk, ThreadsOk, ClosingOk, TreesOk, SessionsOk, CallsOk, ChannelsOk;
    var open := s.opens[key].(closing := true);
    ChannelsGoto(s.owner, s.channels, s.pc, c, Releasing(key));
    LocksOkMono(s.owner, s.opens, s.owner, s.opens[key := open], s.locks);
    OplocksOkMono(s.opens, s.opens[key := open], s.oplocks);
    ChangeOpenOpens(s.trees, s.opens, s.pc, c, key, open, Releasing(key));
    ChangeOpenThreads(TablesOf(s), s.pc, c, key, open, Releasing(key));
  }

  lemma ChangeFileKeeps(s: State, c: ConnId, key: OpenKey, setting: Setting)
    requires Inv(s) && c in s.pc && s.pc[c] == Idle && key.at.conn == c && key in s.opens && !s.opens[key].closing && key.at in s.trees
    ensures Inv(ChangeFile(s, key, setting))
  {
    hide LocksOk, OplocksOk, ThreadsOk, ClosingOk, TreesOk, OpensOk, SessionsOk, ChannelsOk;
    if setting.Disposition? && !s.trees[key.at].readOnly {
      var open := s.opens[key].(deletePending := setting.delete);
      LocksOkMono(s.owner, s.opens, s.owner, s.opens[key := open], s.locks);
      OplocksOkMono(s.opens, s.opens[key := open], s.oplocks);
      ChangeOpenOpens(s.trees, s.opens, s.pc, c, key, open, Idle);
      ChangeOpenThreads(TablesOf(s), s.pc, c, key, open, Idle);
      assert s.pc[c := Idle] == s.pc;
    }
  }

  // ---------------------------------------------------------------- LOCK steps

  /** A change of one file's entries at its own path is all right for the tables and for every other thread. */
  lemma PutRangesKeeps(s: State, c: ConnId, key: OpenKey, path: string, after: seq<LockRange>, next: Pc)
    requires Inv(s) && c in s.pc && !s.pc[c].Releasing? && !s.pc[c].Unlocking?
    requires key in s.opens && key.at.conn == c && s.opens[key].path == path
    requires Consistent(after) && OnlyFile(RangesAt(s, path), after, key.fid)
    requires forall r :: r in after ==> r in RangesAt(s, path) || r.fileId == key.fid
    requires ThreadOk(TablesOf(s).(locks := s.locks[path := after]), c, next) && !next.Notifying?
    ensures Inv(Goto(PutRanges(s, path, after), c, next))
  {
    hide LocksOk, OplocksOk, ThreadsOk, ClosingOk, TreesOk, OpensOk, SessionsOk, CallsOk, ChannelsOk;
    ChannelsGoto(s.owner, s.channels, s.pc, c, next);
    KeysLeadBack(s);
    PutRangesLocks(s.owner, TablesOf(s), key, path, after);
    PutRangesThreads(s.owner, TablesOf(s), s.pc, c, key, path, after, next);
    ClosingElsewhere(s.opens, s.pc, c, next);
  }

  lemma PutRangesLocks(owner: map<uint64, ConnId>, t: Tables, key: OpenKey, path: string, after: seq<LockRange>)
    requires KeysOk(owner, t.opens) && LocksOk(owner, t.opens, t.locks)
    requires key in t.opens && t.opens[key].path == path && Consistent(after)
    requires forall r :: r in after ==> r in t.At(path) || r.fileId == key.fid
    ensures LocksOk(owner, t.opens, t.locks[path := after])
  {
    forall r | r in after ensures NamesOpen(owner, t.opens, r.fileId, path) {
      if r.fileId == key.fid { assert KeyOf(owner, key.fid) == key; }
    }
    LocksOkPut(owner, t.opens, t.locks, path, after);
  }

  lemma PutRangesThreads(owner: map<uint64, ConnId>, t: Tables, pc: map<ConnId, Pc>, c: ConnId, key: OpenKey, path: string, after: seq<LockRange>, next: Pc)
    requires KeysOk(owner, t.opens) && ThreadsOk(t, pc)
    requires key in t.opens && key.at.conn == c
    requires OnlyFile(t.At(path), after, key.fid)
    requires ThreadOk(t.(locks := t.locks[path := after]), c, next)
    ensures ThreadsOk(t.(locks := t.locks[path := after]), pc[c := next])
  {
    var t' := t.(locks := t.locks[path := after]);
    forall d | d in pc && d != c ensures Steady(t, t', d) { LocksSteady(owner, t, path, after, key, d); }
    ThreadsStep(t, t', pc, c, next);
  }

  lemma GotoKeeps(s: State, c: ConnId, next: Pc)
    requires Inv(s) && c in s.pc && !s.pc[c].Releasing? && !s.pc[c].Unlocking? && ThreadOk(TablesOf(s), c, next) && !next.Notifying?
    ensures Inv(Goto(s, c, next))
  {
    hide LocksOk, OplocksOk, ThreadsOk, ClosingOk, TreesOk, OpensOk, SessionsOk, CallsOk, ChannelsOk;
    ChannelsGoto(s.owner, s.channels, s.pc, c, next);
    GotoKeepsThreads(TablesOf(s), s.pc, c, next);
    ClosingElsewhere(s.opens, s.pc, c, next);
  }

  lemma TableAt(owner: map<uint64, ConnId>, t: Tables, path: string)
    requires LocksOk(owner, t.opens, t.locks)
    ensures Consistent(t.At(path))
  {
  }

  lemma TableConsistent(s: State, path: string)
    requires Inv(s)
    ensures Consistent(RangesAt(s, path))
  {
  }

  lemma UnlockTouchesOneFile(ranges: seq<LockRange>, fid: FileId, start: uint64, end: uint64)
    requires Consistent(ranges)
    ensures Consistent(Unlock(ranges, fid, start, end))
    ensures OnlyFile(ranges, Unlock(ranges, fid, start, end), fid)
    ensures forall r :: r in Unlock(ranges, fid, start, end) ==> r in ranges
  {
    UnlockKeepsConsistent(ranges, fid, start, end);
    forall f: FileId | f != fid ensures Held(Unlock(ranges, fid, start, end), f) == Held(ranges, f) {
      HeldAfterUnlock(ranges, LockRange(fid, start, end, false), f);
    }
    var at := UnlockSplits(ranges, fid, start, end);
  }

  lemma LockTouchesOneFile(ranges: seq<LockRange>, x: LockRange)
    ensures OnlyFile(ranges, ranges + [x], x.fileId)
  {
    forall f: FileId | f != x.fileId ensures Held(ranges + [x], f) == Held(ranges, f) {
      HeldAfterLock(ranges, x, f);
    }
  }

  lemma UnlockAllTouchesOneFile(ranges: seq<LockRange>, fid: FileId)
    requires Consistent(ranges)
    ensures Consistent(UnlockAll(ranges, fid)) && OnlyFile(ranges, UnlockAll(ranges, fid), fid)
    ensures Held(UnlockAll(ranges, fid), fid) == multiset{}
    ensures forall r :: r in UnlockAll(ranges, fid) ==> r in ranges && r.fileId != fid
  {
    UnlockAllKeepsConsistent(ranges, fid);
    HeldAfterUnlockAll(ranges, fid, fid);
    forall f: FileId | f != fid ensures Held(UnlockAll(ranges, fid), f) == Held(ranges, f) {
      HeldAfterUnlockAll(ranges, fid, f);
    }
    forall r | r in UnlockAll(ranges, fid) ensures r in ranges && r.fileId != fid {
      SelectHas(ranges, fid, false, r);
    }
  }

  lemma StartLockKeeps(s: State, c: ConnId, key: OpenKey, locks: seq<LockElement>)
    requires Inv(s) && c in s.pc && s.pc[c] == Idle && key.at.conn == c && key in s.opens && !s.opens[key].closing
    ensures Inv(StartLock(s, c, key, locks))
  {
    hide Inv;
    var path := s.opens[key].path;
    var job := LockJob(key, path, locks, Held(RangesAt(s, path), key.fid));
    assert locks[..0] == [];
    GotoKeeps(s, c, Locking(job, 0, []));
  }

  lemma ThreadAt(s: State, c: ConnId)
    requires Inv(s) && c in s.pc
    ensures ThreadOk(TablesOf(s), c, s.pc[c])
  {
  }

  /** What one action of a LOCK request does to its file's holdings and to the condition on its thread. */
  lemma LockNextOk(ranges: seq<LockRange>, job: LockJob, next: nat, acquired: seq<LockElement>)
    requires Consistent(ranges) && next <= |job.locks| && LockingOk(Held(ranges, job.key.fid), job, next, acquired)
    ensures
      var (after, pc) := LockNext(ranges, job, next, acquired);
      && Consistent(after) && OnlyFile(ranges, after, job.key.fid) && (forall r :: r in after ==> r in ranges || r.fileId == job.key.fid)
      && PlaceOk(Held(after, job.key.fid), pc)
  {
    hide Consistent, Held, Unlock, Conflicts, After, Takes, Stripped, Uniform, OnlyFile;
    var fid, locks := job.key.fid, job.locks;
    HeldIsUniform(ranges, fid);
    OneFileUnchanged(ranges, fid);
    if next < FirstStop(locks) {
      var l, r := locks[next], RangeOf(fid, locks[next]);
      if HasUnlock(l) {
        CarryOut(ranges, fid, locks, next, job.before);
        AfterOne(job.before, fid, locks, next);
        UnlockTouchesOneFile(ranges, fid, r.start, r.end);
        assert acquired + [] == acquired;
      } else if !Conflicts(ranges, fid, r.start, r.end, r.exclusive) {
        CarryOut(ranges, fid, locks, next, job.before);
        AfterOne(job.before, fid, locks, next);
        LockTouchesOneFile(ranges, r);
      }
    }
  }

  lemma OneFileUnchanged(ranges: seq<LockRange>, fid: FileId)
    ensures OnlyFile(ranges, ranges, fid)
  {
  }

  /** The condition on a thread within a LOCK request, given what its file holds. */
  ghost predicate PlaceOk(h: multiset<LockRange>, pc: Pc)
    requires InLockRequest(pc)
  {
    match pc
    case Locking(job, next, acquired) => LockingOk(h, job, next, acquired)
    case RollingBack(job, stop, acquired, status) => RollingOk(h, job, stop, acquired, status)
    case LockDone(job, stop, status) => LeftBy(h, job, stop, status)
    case _ => true
  }

  lemma UndoNextOk(ranges: seq<LockRange>, job: LockJob, stop: nat, acquired: seq<LockElement>, status: Status)
    requires Consistent(ranges) && RollingOk(Held(ranges, job.key.fid), job, stop, acquired, status)
    ensures
      var (after, pc) := UndoNext(ranges, job, stop, acquired, status);
      && Consistent(after) && OnlyFile(ranges, after, job.key.fid) && (forall r :: r in after ==> r in ranges)
      && PlaceOk(Held(after, job.key.fid), pc)
  {
    hide Consistent, Held, Unlock, LeftBy, OnlyFile;
    OneFileUnchanged(ranges, job.key.fid);
    if acquired != [] {
      var r := RangeOf(job.key.fid, acquired[0]);
      UnlockOnHoldings(ranges, job.key.fid, r.start, r.end);
      UnlockTouchesOneFile(ranges, job.key.fid, r.start, r.end);
    }
  }

  /** The next place of a LOCK request with its table written. */
  lemma RequestMoves(s: State, c: ConnId, after: seq<LockRange>, next: Pc)
    requires Inv(s) && c in s.pc && InLockRequest(s.pc[c]) && InLockRequest(next) && next.job == s.pc[c].job
    requires
      var job := next.job;
      var ranges := RangesAt(s, job.path);
      && Consistent(after) && OnlyFile(ranges, after, job.key.fid) && (forall r :: r in after ==> r in ranges || r.fileId == job.key.fid)
      && PlaceOk(Held(after, job.key.fid), next)
    ensures Inv(Goto(PutRanges(s, next.job.path, after), c, next))
  {
    hide Inv, LockingOk, RollingOk, LeftBy, Consistent, OnlyFile;
    ThreadAt(s, c);
    var job := next.job;
    var t' := TablesOf(s).(locks := s.locks[job.path := after]);
    assert t'.Holds(job) == Held(after, job.key.fid);
    PutRangesKeeps(s, c, job.key, job.path, after, next);
  }

  lemma StepLockKeeps(s: State, c: ConnId)
    requires Inv(s) && c in s.pc && s.pc[c].Locking? && s.pc[c].next <= |s.pc[c].job.locks|
    ensures Inv(StepLock(s, c))
  {
    hide Inv, LockingOk, PlaceOk, LockNext, Consistent, OnlyFile;
    ThreadAt(s, c);
    var Locking(job, next, acquired) := s.pc[c];
    var ranges := RangesAt(s, job.path);
    TableConsistent(s, job.path);
    LockNextOk(ranges, job, next, acquired);
    var (after, pc) := LockNext(ranges, job, next, acquired);
    RequestMoves(s, c, after, pc);
  }

  lemma StepUndoKeeps(s: State, c: ConnId)
    requires Inv(s) && c in s.pc && s.pc[c].RollingBack?
    ensures Inv(StepUndo(s, c))
  {
    hide Inv, RollingOk, PlaceOk, UndoNext, Consistent, OnlyFile;
    ThreadAt(s, c);
    var RollingBack(job, stop, acquired, status) := s.pc[c];
    var ranges := RangesAt(s, job.path);
    TableConsistent(s, job.path);
    UndoNextOk(ranges, job, stop, acquired, status);
    var (after, pc) := UndoNext(ranges, job, stop, acquired, status);
    RequestMoves(s, c, after, pc);
  }

  // ---------------------------------------------------- dropping table entries

  lemma NamedUnderOwnPath(owner: map<uint64, ConnId>, t: Tables, p: string, r: LockRange, key: OpenKey)
    requires KeysOk(owner, t.opens) && LocksOk(owner, t.opens, t.locks)
    requires key in t.opens && r.fileId == key.fid && r in t.At(p)
    ensures t.opens[key].path == p
  {
    assert NamesOpen(owner, t.opens, r.fileId, p) && KeyOf(owner, key.fid) == key;
  }

  /** An open holds ranges under its own path only. */
  lemma HeldElsewhere(owner: map<uint64, ConnId>, t: Tables, key: OpenKey, p: string)
    requires KeysOk(owner, t.opens) && LocksOk(owner, t.opens, t.locks) && key in t.opens && t.opens[key].path != p
    ensures Held(t.At(p), key.fid) == multiset{}
  {
    var mine := Select(t.At(p), key.fid, true);
    if mine != [] {
      var r := mine[0];
      SelectHas(t.At(p), key.fid, true, r);
      NamedUnderOwnPath(owner, t, p, r, key);
      assert false;
    }
  }

  lemma UnnamedOnceUnlocked(owner: map<uint64, ConnId>, t: Tables, key: OpenKey)
    requires KeysOk(owner, t.opens) && LocksOk(owner, t.opens, t.locks) && key in t.opens && NoOplock(t, key)
    ensures
      var path := t.opens[key].path;
      Unnamed(t.(locks := t.locks[path := UnlockAll(t.At(path), key.fid)]), key)
  {
    var path := t.opens[key].path;
    var t' := t.(locks := t.locks[path := UnlockAll(t.At(path), key.fid)]);
    forall p ensures Held(t'.At(p), key.fid) == multiset{} {
      if p == path {
        HeldAfterUnlockAll(t.At(path), key.fid, key.fid);
      } else {
        HeldElsewhere(owner, t, key, p);
      }
    }
  }

  /** Opens that no table names can be taken out without orphaning an entry. */
  lemma RemoveUnnamed(owner: map<uint64, ConnId>, t: Tables, opens': map<OpenKey, Open>)
    requires KeysOk(owner, t.opens) && LocksOk(owner, t.opens, t.locks) && OplocksOk(t.opens, t.oplocks)
    requires forall k :: k in opens' ==> k in t.opens && opens'[k] == t.opens[k]
    requires forall k :: k in t.opens && k !in opens' ==> Unnamed(t, k)
    ensures LocksOk(owner, opens', t.locks) && OplocksOk(opens', t.oplocks)
  {
    forall p | p in t.locks ensures TableOk(owner, opens', p, t.locks[p]) {
      assert TableOk(owner, t.opens, p, t.locks[p]);
      forall r | r in t.locks[p] ensures NamesOpen(owner, opens', r.fileId, p) {
        NamedIsKept(owner, t, opens', p, r);
      }
    }
    forall p | p in t.oplocks ensures t.oplocks[p] in opens' {
      assert NoOplock(t, t.oplocks[p]) || t.oplocks[p] in opens';
    }
  }

  lemma NamedIsKept(owner: map<uint64, ConnId>, t: Tables, opens': map<OpenKey, Open>, p: string, r: LockRange)
    requires p in t.locks && r in t.locks[p] && NamesOpen(owner, t.opens, r.fileId, p)
    requires forall k :: k in opens' ==> k in t.opens && opens'[k] == t.opens[k]
    requires forall k :: k in t.opens && k !in opens' ==> Unnamed(t, k)
    ensures NamesOpen(owner, opens', r.fileId, p)
  {
    var k := KeyOf(owner, r.fileId);
    if k !in opens' {
      assert multiset(Select(t.At(p), k.fid, true)) == multiset{};
      SelectHas(t.At(p), k.fid, true, r);
      assert false;
    }
  }

  lemma SteadyTrans(t0: Tables, t1: Tables, t2: Tables, c: ConnId)
    requires Steady(t0, t1, c) && Steady(t1, t2, c)
    ensures Steady(t0, t2, c)
  {
    forall k, p | k in t0.opens && k.at.conn == c ensures Held(t2.At(p), k.fid) == Held(t0.At(p), k.fid) {
      assert k in t1.opens && Held(t1.At(p), k.fid) == Held(t0.At(p), k.fid);
    }
  }

  lemma FinishCloseTables(owner: map<uint64, ConnId>, t: Tables, pc: map<ConnId, Pc>, c: ConnId, key: OpenKey, next: Pc)
    requires KeysOk(owner, t.opens) && LocksOk(owner, t.opens, t.locks) && OplocksOk(t.opens, t.oplocks) && ThreadsOk(t, pc)
    requires key in t.opens && key.at.conn == c && NoOplock(t, key) && (next == Idle || next == Removing(false))
    ensures
      var path := t.opens[key].path;
      var t' := Tables(t.opens - {key}, t.locks[path := UnlockAll(t.At(path), key.fid)], t.oplocks);
      && LocksOk(owner, t'.opens, t'.locks) && OplocksOk(t'.opens, t'.oplocks) && ThreadsOk(t', pc[c := next])
  {
    hide KeysOk, LocksOk, OplocksOk, ThreadsOk, Consistent, OnlyFile, Unnamed;
    var path := t.opens[key].path;
    var after := UnlockAll(t.At(path), key.fid);
    var t1 := t.(locks := t.locks[path := after]);
    TableAt(owner, t, path);
    UnlockAllTouchesOneFile(t.At(path), key.fid);
    PutRangesLocks(owner, t, key, path, after);
    UnnamedOnceUnlocked(owner, t, key);
    RemoveUnnamed(owner, t1, t.opens - {key});
    FinishCloseThreads(owner, t, pc, c, key, after, next);
  }

  lemma FinishCloseThreads(owner: map<uint64, ConnId>, t: Tables, pc: map<ConnId, Pc>, c: ConnId, key: OpenKey, after: seq<LockRange>, next: Pc)
    requires KeysOk(owner, t.opens) && ThreadsOk(t, pc) && key in t.opens && key.at.conn == c && (next == Idle || next == Removing(false))
    requires OnlyFile(t.At(t.opens[key].path), after, key.fid)
    ensures ThreadsOk(Tables(t.opens - {key}, t.locks[t.opens[key].path := after], t.oplocks), pc[c := next])
  {
    hide KeysOk, OnlyFile, Steady;
    var path := t.opens[key].path;
    var t1 := t.(locks := t.locks[path := after]);
    var t' := t1.(opens := t.opens - {key});
    forall d | d in pc && d != c ensures Steady(t, t', d) {
      LocksSteady(owner, t, path, after, key, d);
      OpensSteady(t1, t'.opens, c, d);
      SteadyTrans(t, t1, t', d);
    }
    ThreadsStep(t, t', pc, c, next);
  }

  lemma RemoveOpenOpens(trees: map<TreeKey, Tree>, opens: map<OpenKey, Open>, pc: map<ConnId, Pc>, c: ConnId, key: OpenKey, next: Pc)
    requires OpensOk(trees, opens) && ClosingOk(opens, pc) && c in pc && pc[c] == Unlocking(key) && key in opens && key.at.conn == c
    ensures OpensOk(trees, opens - {key}) && ClosingOk(opens - {key}, pc[c := next])
  {
  }

  /** Only opens on writable shares are ever marked for deletion. */
  lemma DeletableIsWritable(trees: map<TreeKey, Tree>, opens: map<OpenKey, Open>, key: OpenKey)
    requires OpensOk(trees, opens) && key in opens && opens[key].deletePending
    ensures key.at in trees && !trees[key.at].readOnly
  {
  }

  lemma FinishCloseKeeps(s: State, c: ConnId)
    requires Inv(s) && c in s.pc && s.pc[c].Unlocking? && s.pc[c].key in s.opens && s.pc[c].key.at in s.trees
    ensures Inv(FinishClose(s, c))
  {
    hide LocksOk, OplocksOk, ThreadsOk, ClosingOk, TreesOk, OpensOk, SessionsOk, CallsOk, ChannelsOk;
    ThreadAt(s, c);
    KeysLeadBack(s);
    var key := s.pc[c].key;
    var next := if s.opens[key].deletePending then Removing(s.trees[key.at].readOnly) else Idle;
    if s.opens[key].deletePending { DeletableIsWritable(s.trees, s.opens, key); }
    ChannelsGoto(s.owner, s.channels, s.pc, c, next);
    FinishCloseTables(s.owner, TablesOf(s), s.pc, c, key, next);
    RemoveOpenOpens(s.trees, s.opens, s.pc, c, key, next);
  }

  // ------------------------------------------------------------------- drains

  lemma StartDrainKeeps(s: State, c: ConnId, goal: Goal)
    requires Inv(s) && c in s.pc && s.pc[c] == Idle && MayDrain(s, c, goal)
    ensures Inv(StartDrain(s, c, goal))
  {
    hide Inv;
    GotoKeeps(s, c, Draining((set k | k in s.opens && InScope(k, c, goal)), None, goal));
  }

  lemma DrainOplockThread(t: Tables, c: ConnId, todo: set<OpenKey>, goal: Goal, key: OpenKey)
    requires DrainingOk(t, c, todo, None, goal) && OplocksOk(t.opens, t.oplocks) && key in todo && key in t.opens
    ensures DrainingOk(t.(oplocks := t.oplocks - {t.opens[key].path}), c, todo, Some(key), goal)
  {
    var t' := t.(oplocks := t.oplocks - {t.opens[key].path});
    OplockGone(t, key);
    OplockDropSteady(t, t.opens[key].path, c);
    SteadyDraining(t, t', c, todo, None, goal);
  }

  lemma DrainOplockKeeps(s: State, c: ConnId, key: OpenKey)
    requires Inv(s) && c in s.pc && s.pc[c].Draining? && s.pc[c].half == None && key in s.pc[c].todo && key in s.opens
    ensures Inv(DropOplock(s, c, s.opens[key].path, s.pc[c].(half := Some(key))))
  {
    hide LocksOk, OplocksOk, ThreadsOk, ClosingOk, TreesOk, OpensOk, SessionsOk, CallsOk, ChannelsOk;
    ThreadAt(s, c);
    DrainOplockThread(TablesOf(s), c, s.pc[c].todo, s.pc[c].goal, key);
    DropOplockKeeps(s, c, s.opens[key].path, s.pc[c].(half := Some(key)));
  }

  lemma DrainUnlockThread(owner: map<uint64, ConnId>, t: Tables, c: ConnId, todo: set<OpenKey>, key: OpenKey, goal: Goal)
    requires KeysOk(owner, t.opens) && LocksOk(owner, t.opens, t.locks)
    requires DrainingOk(t, c, todo, Some(key), goal) && Consistent(t.At(t.opens[key].path))
    ensures
      var path := t.opens[key].path;
      DrainingOk(t.(locks := t.locks[path := UnlockAll(t.At(path), key.fid)]), c, todo - {key}, None, goal)
  {
    var path := t.opens[key].path;
    var t' := t.(locks := t.locks[path := UnlockAll(t.At(path), key.fid)]);
    UnlockAllTouchesOneFile(t.At(path), key.fid);
    forall k | k in t'.opens && InScope(k, c, goal) && k !in todo - {key} ensures Unnamed(t', k) {
      if k == key {
        UnnamedOnceUnlocked(owner, t, key);
      } else {
        assert KeyOf(owner, k.fid) == k && KeyOf(owner, key.fid) == key;
        StaysUnnamed(t, path, UnlockAll(t.At(path), key.fid), key, k);
      }
    }
  }

  lemma StaysUnnamed(t: Tables, path: string, after: seq<LockRange>, key: OpenKey, k: OpenKey)
    requires Unnamed(t, k) && OnlyFile(t.At(path), after, key.fid) && k.fid != key.fid
    ensures Unnamed(t.(locks := t.locks[path := after]), k)
  {
    var t' := t.(locks := t.locks[path := after]);
    forall p ensures Held(t'.At(p), k.fid) == multiset{} {
      assert Held(t.At(p), k.fid) == multiset{};
    }
  }

  lemma DrainUnlockKeeps(s: State, c: ConnId)
    requires Inv(s) && c in s.pc && s.pc[c].Draining? && s.pc[c].half.Some? && s.pc[c].half.value in s.opens
    ensures Inv(DrainUnlock(s, c))
  {
    hide LocksOk, OplocksOk, ThreadsOk, ClosingOk, TreesOk, OpensOk, SessionsOk, CallsOk, ChannelsOk;
    ThreadAt(s, c);
    KeysLeadBack(s);
    var Draining(todo, half, goal) := s.pc[c];
    var key := half.value;
    var path := s.opens[key].path;
    TableConsistent(s, path);
    DrainUnlockThread(s.owner, TablesOf(s), c, todo, key, goal);
    UnlockAllTouchesOneFile(RangesAt(s, path), key.fid);
    PutRangesKeeps(s, c, key, path, UnlockAll(RangesAt(s, path), key.fid), Draining(todo - {key}, None, goal));
  }

  /** The opens that outlive a drain. */
  function Outside(opens: map<OpenKey, Open>, c: ConnId, goal: Goal): map<OpenKey, Open> {
    map k | k in opens && !InScope(k, c, goal) :: opens[k]
  }

  lemma EndDrainTables(owner: map<uint64, ConnId>, t: Tables, pc: map<ConnId, Pc>, c: ConnId, goal: Goal, next: Pc)
    requires KeysOk(owner, t.opens) && LocksOk(owner, t.opens, t.locks) && OplocksOk(t.opens, t.oplocks) && ThreadsOk(t, pc)
    requires c in pc && pc[c] == Draining({}, None, goal)
    requires next == if goal.DropConn? then Closed else Idle
    ensures
      var t' := t.(opens := Outside(t.opens, c, goal));
      && LocksOk(owner, t'.opens, t'.locks) && OplocksOk(t'.opens, t'.oplocks) && ThreadsOk(t', pc[c := next])
  {
    hide KeysOk, LocksOk, OplocksOk;
    var t' := t.(opens := Outside(t.opens, c, goal));
    assert ThreadOk(t, c, pc[c]);
    assert forall k :: k in t.opens && k !in t'.opens ==> Unnamed(t, k);
    RemoveUnnamed(owner, t, t'.opens);
    EndDrainThreads(t, pc, c, goal, next);
  }

  lemma EndDrainThreads(t: Tables, pc: map<ConnId, Pc>, c: ConnId, goal: Goal, next: Pc)
    requires ThreadsOk(t, pc) && next == if goal.DropConn? then Closed else Idle
    ensures ThreadsOk(t.(opens := Outside(t.opens, c, goal)), pc[c := next])
  {
    var t' := t.(opens := Outside(t.opens, c, goal));
    forall d | d in pc && d != c ensures Steady(t, t', d) { OpensSteady(t, t'.opens, c, d); }
    ThreadsStep(t, t', pc, c, next);
  }

  lemma DropTreeOpens(sessions: map<SessKey, Session>, trees: map<TreeKey, Tree>, opens: map<OpenKey, Open>, c: ConnId, t: TreeKey)
    requires TreesOk(sessions, trees) && OpensOk(trees, opens) && t.conn == c
    ensures TreesOk(sessions, trees - {t}) && OpensOk(trees - {t}, Outside(opens, c, DropTree(t)))
  {
  }

  lemma DropSessionOpens(sessions: map<SessKey, Session>, trees: map<TreeKey, Tree>, opens: map<OpenKey, Open>, c: ConnId, sk: SessKey)
    requires TreesOk(sessions, trees) && OpensOk(trees, opens) && sk.conn == c
    ensures
      var trees' := map t | t in trees && SessionAt(t) != sk :: trees[t];
      TreesOk(sessions - {sk}, trees') && OpensOk(trees', Outside(opens, c, DropSession(sk)))
  {
  }

  lemma SessionsDrop(nextSess: nat, owner: map<uint64, ConnId>, sessions: map<SessKey, Session>, sk: SessKey)
    requires SessionsOk(nextSess, owner, sessions)
    ensures SessionsOk(nextSess, owner, sessions - {sk})
  {
  }

  lemma DropNoOpens(trees: map<TreeKey, Tree>, opens: map<OpenKey, Open>, c: ConnId)
    requires OpensOk(trees, opens)
    ensures OpensOk(trees, Outside(opens, c, DropConn))
  {
  }

  lemma EndDrainOpens(s: State, c: ConnId, goal: Goal)
    requires SessionsOk(s.nextSess, s.owner, s.sessions) && TreesOk(s.sessions, s.trees) && OpensOk(s.trees, s.opens)
    requires goal.DropTree? ==> goal.tree.conn == c
    requires goal.DropSession? ==> goal.sess.conn == c
    ensures
      var s' := FinishDrain(s, c, goal);
      && SessionsOk(s'.nextSess, s'.owner, s'.sessions) && TreesOk(s'.sessions, s'.trees) && OpensOk(s'.trees, s'.opens)
  {
    hide TreesOk, OpensOk, SessionsOk;
    match goal
    case DropTree(t) => DropTreeOpens(s.sessions, s.trees, s.opens, c, t);
    case DropSession(sk) =>
      DropSessionOpens(s.sessions, s.trees, s.opens, c, sk);
      SessionsDrop(s.nextSess, s.owner, s.sessions, sk);
    case DropConn => DropNoOpens(s.trees, s.opens, c);
  }

  lemma EndDrainClosing(opens: map<OpenKey, Open>, pc: map<ConnId, Pc>, c: ConnId, goal: Goal, next: Pc)
    requires ClosingOk(opens, pc) && c in pc && pc[c].Draining?
    ensures ClosingOk(Outside(opens, c, goal), pc[c := next])
  {
  }

  lemma DrainedState(s: State, c: ConnId, goal: Goal)
    ensures
      var s' := FinishDrain(s, c, goal);
      s' == s.(opens := Outside(s.opens, c, goal), sessions := s'.sessions, trees := s'.trees,
               pc := s.pc[c := if goal.DropConn? then Closed else Idle])
  {
  }

  lemma EndDrainKeeps(s: State, c: ConnId)
    requires Inv(s) && c in s.pc && s.pc[c].Draining? && s.pc[c].half == None && s.pc[c].todo == {}
    ensures Inv(FinishDrain(s, c, s.pc[c].goal))
  {
    hide LocksOk, OplocksOk, ThreadsOk, ClosingOk, TreesOk, OpensOk, SessionsOk, CallsOk, ChannelsOk;
    ThreadAt(s, c);
    KeysLeadBack(s);
    var goal := s.pc[c].goal;
    hide KeysOk, InScope, DrainingOk, FinishDrain, Outside;
    DrainedState(s, c, goal);
    var next := if goal.DropConn? then Closed else Idle;
    ChannelsGoto(s.owner, s.channels, s.pc, c, next);
    EndDrainTables(s.owner, TablesOf(s), s.pc, c, goal, next);
    EndDrainOpens(s, c, goal);
    EndDrainClosing(s.opens, s.pc, c, goal, next);
  }

  // -------------------------------------------------------------- backend calls

  lemma CallKeeps(s: State, call: Call, readOnly: bool)
    requires Inv(s) && (readOnly ==> call.Touch? && !call.access.write)
    ensures Inv(s.(calls := s.calls + [BackendCall(call, readOnly)]))
  {
    hide LocksOk, OplocksOk, ThreadsOk, ClosingOk, TreesOk, OpensOk, SessionsOk, ChannelsOk;
  }

  lemma StartAccessKeeps(s: State, c: ConnId, key: OpenKey, offset: uint64, length: Length, write: bool)
    requires Inv(s) && c in s.pc && s.pc[c] == Idle && key.at.conn == c && key in s.opens && !s.opens[key].closing && key.at in s.trees
    requires write ==> !s.trees[key.at].readOnly
    ensures Inv(StartAccess(s, c, key, offset, length, write))
  {
    hide Inv;
    GotoKeeps(s, c, Accessing(Access(key, s.opens[key].path, offset, Add64(offset, length), write), s.trees[key.at].readOnly));
  }

  lemma EndAccessKeeps(s: State, c: ConnId)
    requires Inv(s) && c in s.pc && s.pc[c].Accessing?
    ensures Inv(EndAccess(s, c, s.pc[c].access, s.pc[c].readOnly))
  {
    hide Inv;
    ThreadAt(s, c);
    CallKeeps(s, Touch(s.pc[c].access), s.pc[c].readOnly);
    GotoKeeps(s.(calls := s.calls + [BackendCall(Touch(s.pc[c].access), s.pc[c].readOnly)]), c, Idle);
  }

  lemma RemoveClosedKeeps(s: State, c: ConnId)
    requires Inv(s) && c in s.pc && s.pc[c].Removing?
    ensures !s.pc[c].readOnly && Inv(RemoveClosed(s, c, s.pc[c].readOnly))
  {
    hide Inv;
    ThreadAt(s, c);
    CallKeeps(s, Remove, false);
    GotoKeeps(s.(calls := s.calls + [BackendCall(Remove, false)]), c, Idle);
  }

  // ------------------------------------------------------------------ all steps

  lemma SessionStepKeeps(s: State, step: Step)
    requires Inv(s) && Enabled(s, step) && Safe(s, step)
    requires step.Connect? || step.SetupNew? || step.SetupAgain? || step.ConnectTree?
    ensures Inv(Apply(s, step))
  {
    hide Inv, SlotFree;
    match step
    case Connect(c) => ConnectKeeps(s, c);
    case SetupNew(c, accepted) => NewSessionKeeps(s, c, accepted);
    case SetupAgain(c, sess, accepted) => SetupMoreKeeps(s, SessKey(c, sess), accepted);
    case ConnectTree(c, sess, readOnly) => NewTreeKeeps(s, c, sess, readOnly);
  }

  predicate OplockStep(step: Step) {
    step.Grant? || step.Break? || step.Notify? || step.SkipNotify? || step.WriteWaiting? || step.FinalArrives?
  }

  lemma OplockStepKeeps(s: State, step: Step)
    requires Inv(s) && Enabled(s, step) && OplockStep(step)
    ensures Inv(Apply(s, step))
  {
    hide Inv;
    match step
    case Grant(c) => GrantKeeps(s, c);
    case Break(c) => BreakKeeps(s, c, s.pc[c].path);
    case Notify(c) =>
      var to := s.pc[c].to;
      ChannelKeeps(s, to, s.channels[to] + 1);
      GotoKeeps(s.(channels := s.channels[to := s.channels[to] + 1]), c, Idle);
    case SkipNotify(c) => GotoKeeps(s, c, Idle);
    case WriteWaiting(c) =>
      ChannelSize(s, c);
      ChannelKeeps(s, c, s.channels[c] - 1);
    case FinalArrives(c) => ChannelKeeps(s, c, s.channels[c] + 1);
  }

  lemma ChannelSize(s: State, c: ConnId)
    requires Inv(s) && c in s.channels
    ensures s.channels[c] <= CHANNEL_SIZE
  {
  }

  lemma OpenStepKeeps(s: State, step: Step)
    requires Inv(s) && Enabled(s, step) && Safe(s, step)
    requires step.Create? || step.CheckRead? || step.CheckWrite? || step.DoAccess? || step.SetFile?
    ensures Inv(Apply(s, step))
  {
    hide Inv, KeyFree;
    match step
    case Create(c, at, req, ok) => CreateOpenKeeps(s, c, at, req, ok);
    case CheckRead(c, key, offset, length, _) => StartAccessKeeps(s, c, key, offset, length, false);
    case CheckWrite(c, key, offset, size, _) => StartAccessKeeps(s, c, key, offset, size, true);
    case DoAccess(c) => EndAccessKeeps(s, c);
    case SetFile(c, key, setting) => ChangeFileKeeps(s, c, key, setting);
  }

  lemma LockStepKeeps(s: State, step: Step)
    requires Inv(s) && Enabled(s, step)
    requires step.BeginLock? || step.NextLock? || step.NextUndo? || step.AnswerLock?
    ensures Inv(Apply(s, step))
  {
    hide Inv;
    match step
    case BeginLock(c, key, locks) => StartLockKeeps(s, c, key, locks);
    case NextLock(c) => StepLockKeeps(s, c);
    case NextUndo(c) => StepUndoKeeps(s, c);
    case AnswerLock(c) => GotoKeeps(s, c, Idle);
  }

  lemma CloseStepKeeps(s: State, step: Step)
    requires Inv(s) && Enabled(s, step)
    requires step.BeginClose? || step.ReleaseOplock? || step.DropLocks? || step.RemoveFile?
    ensures Inv(Apply(s, step))
  {
    hide Inv;
    match step
    case BeginClose(c, key) => StartCloseKeeps(s, c, key);
    case ReleaseOplock(c) => ReleaseKeeps(s, c);
    case DropLocks(c) => FinishCloseKeeps(s, c);
    case RemoveFile(c) => RemoveClosedKeeps(s, c);
  }

  lemma DrainStepKeeps(s: State, step: Step)
    requires Inv(s) && Enabled(s, step)
    requires step.BeginDrain? || step.DrainOplock? || step.DrainLocks? || step.EndDrain?
    ensures Inv(Apply(s, step))
  {
    hide Inv;
    match step
    case BeginDrain(c, goal) => StartDrainKeeps(s, c, goal);
    case DrainOplock(c, key) => DrainOplockKeeps(s, c, key);
    case DrainLocks(c) => DrainUnlockKeeps(s, c);
    case EndDrain(c) => EndDrainKeeps(s, c);
  }

  /** No step that gives out a free identifier breaks the invariant. */
  lemma StepKeeps(s: State, step: Step)
    requires Inv(s) && Enabled(s, step) && Safe(s, step)
    ensures Inv(Apply(s, step))
  {
    hide Inv, Apply, Enabled, Safe;
    if step.Connect? || step.SetupNew? || step.SetupAgain? || step.ConnectTree? {
      SessionStepKeeps(s, step);
    } else if OplockStep(step) {
      OplockStepKeeps(s, step);
    } else if step.Create? || step.CheckRead? || step.CheckWrite? || step.DoAccess? || step.SetFile? {
      OpenStepKeeps(s, step);
    } else if step.BeginLock? || step.NextLock? || step.NextUndo? || step.AnswerLock? {
      LockStepKeeps(s, step);
    } else if step.BeginClose? || step.ReleaseOplock? || step.DropLocks? || step.RemoveFile? {
      CloseStepKeeps(s, step);
    } else {
      DrainStepKeeps(s, step);
    }
  }

  // -------------------------------------------------------------- within the counters

  /** A step that stays within the counters gives out a free identifier. */
  lemma BoundedIsSafe(s: State, step: Step)
    requires Inv(s) && Enabled(s, step) && Bounded(Apply(s, step))
    ensures Safe(s, step)
  {
    hide Inv, SlotFree, KeyFree, Bounded;
    if step.SetupNew? {
      hide NewSession;
      BoundedSession(s, step.c, step.accepted);
    } else if step.ConnectTree? {
      hide NewTree;
      BoundedSlot(s, step.c, step.sess, step.readOnly);
    } else if step.Create? {
      hide CreateOpen;
      if Makes(s, step.at, step.req, step.ok) { BoundedKey(s, step.c, step.at, step.req, step.ok); }
    } else {
      hide Apply, Enabled;
    }
  }

  lemma BoundedSession(s: State, c: ConnId, accepted: bool)
    requires Bounded(NewSession(s, c, accepted))
    ensures s.nextSess + 1 < 0x1_0000_0000_0000_0000
  {
  }

  lemma BoundedSlot(s: State, c: ConnId, sess: uint64, readOnly: bool)
    requires Inv(s) && SessKey(c, sess) in s.sessions && Bounded(NewTree(s, c, sess, readOnly))
    ensures SlotFree(TablesOf(s), NextSlot(s, SessKey(c, sess)))
  {
    hide LocksOk, OplocksOk, ThreadsOk, ClosingOk, SessionsOk, CallsOk, ChannelsOk, TreesOk, OpensOk, Unnamed;
    assert NewTree(s, c, sess, readOnly).sessions[SessKey(c, sess)].nextTree <= 0x1_0000_0000;
    NewSlotIsFresh(s.sessions, s.trees, s.opens, NextSlot(s, SessKey(c, sess)));
  }

  lemma BoundedKey(s: State, c: ConnId, at: TreeKey, req: CreateRequest, ok: bool)
    requires Inv(s) && at in s.trees && Makes(s, at, req, ok) && Bounded(CreateOpen(s, c, at, req, ok))
    ensures KeyFree(TablesOf(s), NextKey(s, at), req.path)
  {
    hide LocksOk, OplocksOk, ThreadsOk, ClosingOk, SessionsOk, CallsOk, ChannelsOk, TreesOk, OpensOk, Unnamed;
    assert CreateOpen(s, c, at, req, ok).trees[at].nextId <= 0x1_0000_0000;
    NewIdIsFresh(s.trees, s.opens, at);
  }

  lemma NewSlotIsFresh(sessions: map<SessKey, Session>, trees: map<TreeKey, Tree>, opens: map<OpenKey, Open>, t: TreeKey)
    requires TreesOk(sessions, trees) && OpensOk(trees, opens)
    requires SessionAt(t) in sessions && t.tree == sessions[SessionAt(t)].nextTree
    ensures forall k :: k in opens ==> k.at != t
  {
  }
}
