/** Which number a read starts from: a Get sees everything that was answered before it began, and so does a
    snapshot, for as long as it is held. */
module DatabaseFreshness {
  import opened Keys
  import opened Database
  import opened DatabaseQueue
  import opened DatabaseMemory
  import opened DatabaseStorage
  import opened DatabaseReaders
  import opened DatabaseAcks
  import opened DatabaseRuns
  import opened DatabaseGuarantees
  import opened DatabaseLevels
  import opened DatabaseGets

  /** What was answered OK is committed, and of what was answered otherwise nothing is. */
  lemma AnsweredIsCommitted(s: State, a: Ack)
    requires Reachable(s) && a in s.q.acks
    ensures if a.ok then Entries(a.entries) <= Committed(s) else Entries(a.entries) !! Committed(s)
  {
    ReachableInv(s);
    InvFacts(s);
    hide Inv, Reachable, UniqueNumbers, History, Committed, Numbering, Shape;
    InvNumbering(s);
    forall e | e in a.entries && e in History(s) ensures e in Committed(s) {
      CommittedUpTo(s, e);
    }
    CommittedInHistory(s);
    SeenWholly(a, History(s), s.q.lastSequence, s.q.acks);
    forall e | e in a.entries ensures e in Committed(s) <==> a.ok {
      assert e in SeenOf(a.entries, History(s), s.q.lastSequence) <==> e in History(s);
    }
  }

  lemma InvNumbering(s: State)
    requires Inv(s)
    ensures Numbering(s) && Shape(s.q) && ReadersOk(s)
  {
    hide Numbering, Placement, Logged, StorageOk, ReadersOk, AcksOk, Orphaned, EditLog, Scheduling, InOrder, Shape, LogsOrdered;
  }

  lemma CommittedInHistory(s: State)
    ensures Committed(s) <= History(s)
  {
    hide History;
  }

  // ---------- readers ----------

  lemma {:induction false} HeldLevelRunIsRun(L: Leveled, actions: seq<LevelAction>, L': Leveled, id: nat)
    requires HeldLevelRun(L, actions, L', id)
    ensures LevelRuns(L, actions, L')
    decreases |actions|
  {
    hide LevelDo, LevelEnabled;
    if actions != [] {
      HeldLevelRunIsRun(LevelDo(L, actions[0]), actions[1..], L', id);
    }
  }

  lemma HeldRunsInTurn(L: Leveled, a1: seq<LevelAction>, L1: Leveled, a2: seq<LevelAction>, L2: Leveled,
                       a3: seq<LevelAction>, L3: Leveled, id: nat)
    requires HeldLevelRun(L, a1, L1, id) && HeldLevelRun(L1, a2, L2, id) && HeldLevelRun(L2, a3, L3, id)
    ensures LevelRuns(L, a1 + a2 + a3, L3)
  {
    hide HeldLevelRun, LevelRuns;
    HeldLevelRunIsRun(L, a1, L1, id);
    HeldLevelRunIsRun(L1, a2, L2, id);
    HeldLevelRunIsRun(L2, a3, L3, id);
    LevelRunsOn(L, a1, L1, a2, L2);
    LevelRunsOn(L, a1 + a2, L2, a3, L3);
  }

  lemma OneLevelStep(L: Leveled, a: LevelAction)
    requires LevelEnabled(L, a)
    ensures LevelRuns(L, [a], LevelDo(L, a))
  {
    hide LevelDo, LevelEnabled;
    assert [a][1..] == [];
    assert LevelRuns(LevelDo(L, a), [], LevelDo(L, a));
  }

  lemma ViewOnly(L: Leveled, a: LevelAction)
    requires LevelInv(L) && LevelEnabled(L, a) && a.action.OfView?
    ensures var M := LevelDo(L, a);
      M.s.q == L.s.q && History(M.s) == History(L.s) && ViewEnabled(L.s, a.action.view) && M.s == DoView(L.s, a.action.view)
  {
    LevelFrame(L, a);
    hide LevelEnabled, LevelDo, Inv, LevelsOk, History, ViewEnabled, DoView;
    ViewKeepsInv(L.s, a.action.view);
  }

  lemma BegunReader(s: State, id: nat, snapshot: Option<nat>, k: UserKey)
    requires Inv(s) && ViewEnabled(s, BeginRead(id, snapshot))
    ensures var t := DoView(s, BeginRead(id, snapshot));
      && id in t.v.readers && t.v.readers[id] == Capture(s, snapshot)
      && Read(History(s), k, Capture(s, snapshot).snapshot) == Wanted(s, snapshot, k)
  {
    InvNumbering(s);
    hide Inv, Numbering, Shape, History, Wanted, Read, Capture;
    CaptureReads(s, snapshot, k);
  }

  lemma SnapshotReached(s: State, id: nat)
    requires ReadersOk(s) && id in s.v.readers
    ensures s.v.readers[id].snapshot <= s.q.lastSequence
  {
    hide Read, History, Layers;
  }

  /** A Get that begins without a snapshot answers with the newest of all that is committed, whenever it
      looks at its three layers; with a snapshot, with the newest up to its number. So a caller reads what it
      has written. */
  lemma NewReaderReads(L: Leveled, a: LevelAction, id: nat, snapshot: Option<nat>, a1: seq<LevelAction>, L1: Leveled,
                       a2: seq<LevelAction>, L2: Leveled, a3: seq<LevelAction>, L3: Leveled, k: UserKey)
    requires LevelReachable(L) && LevelEnabled(L, a) && a.action == OfView(BeginRead(id, snapshot))
    requires HeldLevelRun(LevelDo(L, a), a1, L1, id) && HeldLevelRun(L1, a2, L2, id) && HeldLevelRun(L2, a3, L3, id)
    ensures var r := LevelDo(L, a).s.v.readers[id];
      id in L3.captured &&
      Search(CapturedMem(L1.s.m, r), CapturedImm(L2.s.m, r), L3.captured[id], k, r.snapshot) == Wanted(L.s, snapshot, k)
  {
    hide LevelReachable, LevelInv, Reachable, HeldLevelRun, LevelRuns, Runs, Search, Read, History, Wanted, Capture, LevelEnabled, LevelDo,
         CapturedMem, CapturedImm, Inv, LevelsOk, ViewEnabled, DoView;
    var M := LevelDo(L, a);
    LevelReachableInv(L);
    InvOfLevels(L);
    ViewOnly(L, a);
    BegunReader(L.s, id, snapshot, k);
    OneLevelStep(L, a);
    LevelReachableOn(L, [a], M);
    LevelReachableInv(M);
    ReaderReadsAcross(M, a1, L1, a2, L2, a3, L3, id, k);
    HeldRunsInTurn(M, a1, L1, a2, L2, a3, L3, id);
    LevelRunsAreRuns(M, a1 + a2 + a3, L3);
    ReachableInv(M.s);
    InvNumbering(M.s);
    SnapshotReached(M.s, id);
    ReadsNeverChange(M.s, Plain(a1 + a2 + a3), L3.s, k, M.s.v.readers[id].snapshot);
  }

  // ---------- snapshots ----------

  /** A run that does not release the snapshot. */
  ghost predicate SnapshotRun(L: Leveled, actions: seq<LevelAction>, L': Leveled, p: nat)
    decreases |actions|
  {
    if actions == [] then L' == L
    else
      && LevelEnabled(L, actions[0]) && !Releases(L.s, actions[0].action, p)
      && SnapshotRun(LevelDo(L, actions[0]), actions[1..], L', p)
  }

  predicate Releases(s: State, a: Action, p: nat) {
    a.OfView? && a.view.ReleaseSnapshot? && a.view.index < |s.v.snapshots| && s.v.snapshots[a.view.index] == p
  }

  lemma StaysInList(s: State, a: Action, p: nat)
    requires Enabled(s, a) && p in s.v.snapshots && !Releases(s, a, p)
    ensures p in Do(s, a).v.snapshots
  {
    if a.OfWork? {
      WorkFrame(s, a.work);
      hide DoWork;
    } else if a.OfView? && a.view.ReleaseSnapshot? {
      var i, n := a.view.index, |s.v.snapshots|;
      var j :| 0 <= j < n && s.v.snapshots[j] == p;
      var left := s.v.snapshots[..i] + s.v.snapshots[i + 1..];
      assert left[if j < i then j else j - 1] == p;
    } else if a.OfView? {
      hide MaybeSchedule;
    } else {
      hide GroupOps, Answers, AppendTo, MaybeSchedule, Numbered, Insert, SyncMemory;
    }
  }

  /** A snapshot is in the list, and so counts for every compaction, as long as nobody releases it. */
  lemma {:induction false} SnapshotStays(L: Leveled, actions: seq<LevelAction>, L': Leveled, p: nat)
    requires SnapshotRun(L, actions, L', p) && p in L.s.v.snapshots
    ensures p in L'.s.v.snapshots && LevelRuns(L, actions, L')
    decreases |actions|
  {
    hide Enabled, Do, LevelEnabled, LevelDo, Releases;
    if actions != [] {
      LevelFrame(L, actions[0]);
      StaysInList(L.s, actions[0].action, p);
      SnapshotStays(LevelDo(L, actions[0]), actions[1..], L', p);
    }
  }

  function Latest(v: Views): nat {
    if v.snapshots == [] then 0 else v.snapshots[|v.snapshots| - 1]
  }

  lemma TakenSnapshot(s: State, k: UserKey)
    requires Inv(s)
    ensures var t := DoView(s, TakeSnapshot);
      && Latest(t.v) in t.v.snapshots && Latest(t.v) == s.q.lastSequence
      && Read(History(s), k, Latest(t.v)) == Read(Committed(s), k, MAX_SEQUENCE)
  {
    InvNumbering(s);
    hide Inv, Numbering, Shape, History, Committed, Read;
    CommittedIsRead(s, k);
  }

  /** GetSnapshot takes a number at which all that is committed is read; a Get at it answers so, whatever
      happens until it is released. */
  lemma NewSnapshotReads(L: Leveled, a: LevelAction, actions: seq<LevelAction>, L': Leveled, k: UserKey)
    requires LevelReachable(L) && LevelEnabled(L, a) && a.action == OfView(TakeSnapshot)
    requires SnapshotRun(LevelDo(L, a), actions, L', Latest(LevelDo(L, a).s.v))
    ensures var p := Latest(LevelDo(L, a).s.v);
      && p in L'.s.v.snapshots
      && Search(Mem(L'.s.m), Imm(L'.s.m), L'.current, k, p) == Read(Committed(L.s), k, MAX_SEQUENCE)
  {
    hide LevelReachable, LevelInv, Reachable, SnapshotRun, LevelRuns, Runs, Search, Read, History, Committed, LevelEnabled, LevelDo, Inv,
         Mem, Imm, LevelsOk, DoView, Latest;
    var M := LevelDo(L, a);
    LevelReachableInv(L);
    InvOfLevels(L);
    ViewOnly(L, a);
    TakenSnapshot(L.s, k);
    var p := Latest(M.s.v);
    OneLevelStep(L, a);
    LevelReachableOn(L, [a], M);
    SnapshotStays(M, actions, L', p);
    LevelReachableInv(M);
    LevelReachableOn(M, actions, L');
    LevelRunsAreRuns(M, actions, L');
    GetReadsHistory(L', k, p);
    ReadsNeverChange(M.s, Plain(actions), L'.s, k, p);
  }

  lemma InvOfLevels(L: Leveled)
    requires LevelInv(L)
    ensures Inv(L.s)
  {
    hide Inv, LevelsOk;
  }
}
