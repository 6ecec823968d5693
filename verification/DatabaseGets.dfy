/** What Get answers: memtable, immutable memtable, and then the levels of the version from the top, each
    asked only when those before had nothing. */
module DatabaseGets {
  import opened Keys
  import opened Database
  import opened DatabaseReaders
  import opened DatabaseRuns
  import opened DatabaseGuarantees
  import opened Levels
  import opened VersionGet
  import opened DatabaseLevels

  /** DBImpl::Get with Version::Get. */
  ghost function Search(mem: set<Entry>, imm: set<Entry>, v: Version, k: UserKey, p: nat): Option<Value> {
    var inMem := Newest(mem, k, p);
    var inImm := Newest(imm, k, p);
    if inMem.Some? then ValueOf(inMem)
    else if inImm.Some? then ValueOf(inImm)
    else ValueOf(FirstNewest(LevelContents(v), k, p))
  }

  ghost predicate LevelReachable(L: Leveled) {
    exists start, actions :: LevelsOpened(start) && LevelRuns(start, actions, L)
  }

  lemma LevelReachableInv(L: Leveled)
    requires LevelReachable(L)
    ensures LevelInv(L) && Reachable(L.s)
  {
    hide LevelInv, LevelRuns, Opened, Runs, Sound, Fits;
    var start, actions :| LevelsOpened(start) && LevelRuns(start, actions, L);
    OpenedLevelsOk(start);
    LevelRunKeeps(start, actions, L);
    LevelRunsAreRuns(start, actions, L);
  }

  /** On levels in order the search answers like a read of the tables as one set. */
  lemma SearchIsLayered(mem: set<Entry>, imm: set<Entry>, tables: map<nat, set<Entry>>, files: set<nat>, v: Version, k: UserKey, p: nat)
    requires Sound(v) && Fits(tables, files, v)
    ensures Search(mem, imm, v, k, p) == LayeredGet(mem, imm, Union(tables, files), k, p)
  {
    SearchIsRead(v, k, p);
    ContentOfFiles(tables, files, v);
    hide Ordered, NumberedByAge, Fits, AllTables, Union, Newest, FirstNewest, Content;
  }

  lemma ContentOfFiles(tables: map<nat, set<Entry>>, files: set<nat>, v: Version)
    requires Fits(tables, files, v)
    ensures Union(tables, files) == Content(AllTables(v))
  {
    hide AllTables;
    forall e ensures e in Union(tables, files) <==> e in Content(AllTables(v)) {
      if t :| t in AllTables(v) && e in t.entries {
        assert t.number in files && e in tables[t.number];
      }
    }
  }

  // ---------- guarantees ----------

  /** A Get at the last sequence number or at a held snapshot answers with the newest entry that was
      ever inserted and is not newer than the snapshot: nothing is lost, and no flush, compaction or move
      shows, in runs in which none of them splits a user key or comes in between. */
  lemma GetReadsHistory(L: Leveled, k: UserKey, p: nat)
    requires LevelReachable(L) && (p == L.s.q.lastSequence || p in L.s.v.snapshots)
    ensures Searchable(L.current)
    ensures Search(Mem(L.s.m), Imm(L.s.m), L.current, k, p) == Read(History(L.s), k, p)
  {
    LevelReachableInv(L);
    OrderedIsSearchable(L.current);
    hide LevelReachable, Reachable, Inv, Sound, Fits, Search, LayeredGet, Read, Union, Searchable, ReaderLevels, WorkLevels;
    LayersReadHistory(L.s, k, p);
    SearchIsLayered(Mem(L.s.m), Imm(L.s.m), L.s.f.tables, L.s.f.current.version, L.current, k, p);
  }

  /** So does a reader that captured its memtables and version earlier, and lost the mutex since. */
  lemma ReaderReadsHistory(L: Leveled, id: nat, k: UserKey)
    requires LevelReachable(L) && id in L.s.v.readers
    ensures id in L.captured && Searchable(L.captured[id])
    ensures var r := L.s.v.readers[id];
      Search(CapturedMem(L.s.m, r), CapturedImm(L.s.m, r), L.captured[id], k, r.snapshot) == Read(History(L.s), k, r.snapshot)
  {
    LevelReachableInv(L);
    OrderedIsSearchable(L.captured[id]);
    hide LevelReachable, Reachable, Inv, Sound, Fits, Search, LayeredGet, Read, Union, Searchable, WorkLevels, CapturedMem, CapturedImm;
    var r := L.s.v.readers[id];
    CapturedLayersRead(L.s, id, k);
    SearchIsLayered(CapturedMem(L.s.m, r), CapturedImm(L.s.m, r), L.s.f.tables, r.version, L.captured[id], k, r.snapshot);
  }

  /** A run during which the reader is not finished. */
  ghost predicate HeldLevelRun(L: Leveled, actions: seq<LevelAction>, L': Leveled, id: nat)
    decreases |actions|
  {
    && id in L.s.v.readers
    && if actions == [] then L' == L else LevelEnabled(L, actions[0]) && HeldLevelRun(LevelDo(L, actions[0]), actions[1..], L', id)
  }

  lemma CapturedStays(L: Leveled, a: LevelAction, id: nat)
    requires LevelInv(L) && LevelEnabled(L, a) && id in L.s.v.readers && id in Do(L.s, a.action).v.readers
    ensures LevelDo(L, a).captured[id] == L.captured[id]
  {
    hide Inv, Enabled, Do, Sound, Fits, WorkLevels;
  }

  lemma {:induction false} HeldLevelRunHolds(L: Leveled, actions: seq<LevelAction>, L': Leveled, id: nat)
    requires LevelInv(L) && HeldLevelRun(L, actions, L', id)
    ensures LevelInv(L') && HeldRun(L.s, Plain(actions), L'.s, id)
    ensures id in L.captured && id in L'.captured && L'.captured[id] == L.captured[id]
    decreases |actions|
  {
    hide LevelInv, Enabled, Do, LevelEnabled, LevelDo, Sound, Fits;
    IsCaptured(L, id);
    if actions != [] {
      var M := LevelDo(L, actions[0]);
      assert Plain(actions)[1..] == Plain(actions[1..]);
      LevelFrame(L, actions[0]);
      LevelStepKeeps(L, actions[0]);
      HeldLevelRunHolds(M, actions[1..], L', id);
      assert id in M.s.v.readers by {
        hide HeldRun;
        HeldFirst(M, actions[1..], L', id);
      }
      CapturedStays(L, actions[0], id);
    }
  }

  lemma HeldFirst(L: Leveled, actions: seq<LevelAction>, L': Leveled, id: nat)
    requires HeldLevelRun(L, actions, L', id)
    ensures id in L.s.v.readers
  {
    hide LevelEnabled, LevelDo;
  }

  lemma IsCaptured(L: Leveled, id: nat)
    requires LevelInv(L) && id in L.s.v.readers
    ensures id in L.captured && Sound(L.captured[id]) && Fits(L.s.f.tables, L.s.v.readers[id].version, L.captured[id])
  {
    hide Inv, Sound, Fits, WorkLevels;
  }

  /** A Get does not look at its three layers at once: it takes mem_, imm_ and the version in turn,
      without the mutex, while everyone else goes on. It answers all the same as if it had looked at
      once. */
  lemma ReaderReadsAcross(L: Leveled, a1: seq<LevelAction>, L1: Leveled, a2: seq<LevelAction>, L2: Leveled,
                          a3: seq<LevelAction>, L3: Leveled, id: nat, k: UserKey)
    requires LevelReachable(L) && HeldLevelRun(L, a1, L1, id) && HeldLevelRun(L1, a2, L2, id) && HeldLevelRun(L2, a3, L3, id)
    ensures id in L.s.v.readers && id in L3.captured
    ensures var r := L.s.v.readers[id];
      Search(CapturedMem(L1.s.m, r), CapturedImm(L2.s.m, r), L3.captured[id], k, r.snapshot) == Read(History(L3.s), k, r.snapshot)
  {
    LevelReachableInv(L);
    hide LevelReachable, LevelInv, Reachable, HeldLevelRun, HeldRun, Search, LayeredGet, Read, Sound, Fits, Union, History,
         CapturedMem, CapturedImm;
    HeldLevelRunHolds(L, a1, L1, id);
    HeldLevelRunHolds(L1, a2, L2, id);
    HeldLevelRunHolds(L2, a3, L3, id);
    LayersReadAcross(L.s, Plain(a1), L1.s, Plain(a2), L2.s, Plain(a3), L3.s, id, k);
    var r := L.s.v.readers[id];
    SameReader(L.s, Plain(a1), L1.s, id);
    SameReader(L1.s, Plain(a2), L2.s, id);
    SameReader(L2.s, Plain(a3), L3.s, id);
    IsCaptured(L3, id);
    SearchIsLayered(CapturedMem(L1.s.m, r), CapturedImm(L2.s.m, r), L3.s.f.tables, r.version, L3.captured[id], k, r.snapshot);
  }

  lemma {:induction false} SameReader(s: State, actions: seq<Action>, t: State, id: nat)
    requires HeldRun(s, actions, t, id)
    ensures id in s.v.readers && id in t.v.readers && t.v.readers[id] == s.v.readers[id]
    decreases |actions|
  {
    if actions != [] {
      StepKeepsReader(s, actions[0], id);
      hide Do, Enabled;
      SameReader(Do(s, actions[0]), actions[1..], t, id);
    }
  }

  lemma StepKeepsReader(s: State, a: Action, id: nat)
    requires Enabled(s, a) && id in s.v.readers && id in Do(s, a).v.readers
    ensures Do(s, a).v.readers[id] == s.v.readers[id]
  {
    hide GroupOps, Answers, AppendTo, MaybeSchedule, Numbered, MergeInput, MergeOutput, Live, Mem, Imm, Union, SyncMemory, Insert;
  }

  /** A snapshot is repeatable: whatever was written, flushed, compacted, moved and deleted since it was
      taken, a Get at it answers the same as long as it is held. */
  lemma SnapshotIsRepeatable(L: Leveled, actions: seq<LevelAction>, L': Leveled, k: UserKey)
    requires LevelReachable(L) && LevelRuns(L, actions, L') && L.s.q.lastSequence in L'.s.v.snapshots
    ensures var p := L.s.q.lastSequence;
      Search(Mem(L'.s.m), Imm(L'.s.m), L'.current, k, p) == Search(Mem(L.s.m), Imm(L.s.m), L.current, k, p)
  {
    LevelReachableInv(L);
    hide LevelInv, Reachable, Runs, Search, Read, LevelRuns, History, LevelReachable;
    LevelReachableOn(L, actions, L');
    LevelRunsAreRuns(L, actions, L');
    GetReadsHistory(L, k, L.s.q.lastSequence);
    GetReadsHistory(L', k, L.s.q.lastSequence);
    ReadsNeverChange(L.s, Plain(actions), L'.s, k, L.s.q.lastSequence);
  }

  lemma {:induction false} LevelRunsOn(L: Leveled, actions: seq<LevelAction>, M: Leveled, more: seq<LevelAction>, L': Leveled)
    requires LevelRuns(L, actions, M) && LevelRuns(M, more, L')
    ensures LevelRuns(L, actions + more, L')
    decreases |actions|
  {
    hide LevelDo, LevelEnabled;
    if actions == [] {
      assert actions + more == more;
    } else {
      LevelRunsOn(LevelDo(L, actions[0]), actions[1..], M, more, L');
      assert (actions + more)[1..] == actions[1..] + more;
    }
  }

  lemma LevelReachableOn(L: Leveled, actions: seq<LevelAction>, L': Leveled)
    requires LevelReachable(L) && LevelRuns(L, actions, L')
    ensures LevelReachable(L')
  {
    hide LevelRuns, LevelsOpened;
    var start, before :| LevelsOpened(start) && LevelRuns(start, before, L);
    LevelRunsOn(start, before, L, actions, L');
  }
}
