/** Opening after a crash, with levels: those on disk, and the replayed records in a table at level 0. From
    there the guarantees begin anew. */
module DatabaseReopening {
  import opened Keys
  import opened Database
  import opened DatabaseMemory
  import opened DatabaseRuns
  import opened DatabaseGuarantees
  import opened DatabaseLogs
  import opened DatabaseCrash
  import opened Levels
  import opened VersionGet
  import opened LevelChanges
  import opened DatabaseLevels
  import opened DatabaseGets

  /** What WriteLevel0Table makes of the replayed records: nothing, or one table for level 0. */
  ghost predicate Rebuilt(c: Codec, L: Leveled, cuts: map<nat, nat>, tables: seq<Table>, v': Version) {
    var es := Replayed(c, L.s.m, L.s.f.disk.logNumber, cuts);
    if es == {} then tables == [] && v' == L.disk
    else
      && |tables| == 1 && TableOk(tables[0]) && tables[0].number == L.s.nextFile && Entries(tables[0].entries) == es
      && Entered(L.disk, v', 0, tables[0]) && Tidy(v')
  }

  ghost function ReopenLevels(c: Codec, L: Leveled, cuts: map<nat, nat>, last: nat, v': Version): Leveled {
    Leveled(Reopen(c, L.s, cuts, last), v', v', v', map[], None)
  }

  lemma ReplayedIsNewest(c: Codec, L: Leveled, cuts: map<nat, nat>)
    requires LevelInv(L) && Reachable(L.s) && Crash(c, L.s, cuts) && InStepOnDisk(c, L.s)
    ensures UniqueNumbers(Recovered(c, L.s, cuts)) && Recovered(c, L.s, cuts) == Content(AllTables(L.disk)) + Replayed(c, L.s.m, L.s.f.disk.logNumber, cuts)
    ensures forall e, f :: e in Content(AllTables(L.disk)) && f in Replayed(c, L.s.m, L.s.f.disk.logNumber, cuts) ==> e.sequence < f.sequence
  {
    hide Inv, Reachable, Sound, Fits, ReaderLevels, WorkLevels, Crash, InStepOnDisk, Replayed, FlushedOnDisk, AllTables, Union, Content,
         UniqueNumbers, Unapplied, SameReads, Durable, History;
    ContentOfFiles(L.s.f.tables, L.s.f.disk.version, L.disk);
    DiskReads(L.s);
    ReplayedIsNew(c, L.s, cuts);
    UnappliedIsNew(L.s);
    BoundOfRun(L.s);
    RecoveryReads(c, L.s, cuts, 0, MAX_SEQUENCE);
    SubsetUnique(Recovered(c, L.s, cuts), History(L.s) + Unapplied(L.s));
  }

  lemma DiskNumbers(L: Leveled)
    requires LevelInv(L)
    ensures forall u :: u in AllTables(L.disk) ==> u.number < L.s.nextFile
    ensures L.s.nextFile !in L.s.f.disk.version && Sound(L.disk) && Fits(L.s.f.tables, L.s.f.disk.version, L.disk)
  {
    hide Inv, Sound, ReaderLevels, WorkLevels, AllTables;
    DiskFilesExist(L.s);
    forall u | u in AllTables(L.disk) ensures u.number < L.s.nextFile {
      assert u.number in L.s.f.disk.version;
    }
  }

  /** What recovery builds has its levels in order. */
  lemma ReopenedInOrder(c: Codec, L: Leveled, cuts: map<nat, nat>, last: nat, tables: seq<Table>, v': Version)
    requires LevelReachable(L) && Crash(c, L.s, cuts) && InStepOnDisk(c, L.s) && Rebuilt(c, L, cuts, tables, v')
    requires last < MAX_SEQUENCE && forall e :: e in Recovered(c, L.s, cuts) ==> e.sequence <= last
    ensures LevelsOpened(ReopenLevels(c, L, cuts, last, v'))
  {
    LevelReachableInv(L);
    hide LevelReachable, LevelInv, Reachable, Opened, Crash, InStepOnDisk, Replayed, Recovered, Sound, Fits, AllTables, Content, Entered, Tidy,
         UniqueNumbers, Union, Ordered;
    ReplayedIsNewest(c, L, cuts);
    DiskNumbers(L);
    ReopenedReads(c, L.s, cuts, last, 0);
    RebuiltFits(c, L, cuts, last, tables, v');
    if tables != [] {
      RebuiltSound(L.disk, v', tables[0]);
    }
  }

  lemma RebuiltSound(v: Version, v': Version, t: Table)
    requires Sound(v) && TableOk(t) && Entered(v, v', 0, t) && Tidy(v')
    requires forall u :: u in AllTables(v) ==> u.number < t.number
    requires UniqueNumbers(Content(AllTables(v)) + Entries(t.entries))
    requires forall e, f :: e in Content(AllTables(v)) && f in t.entries ==> e.sequence < f.sequence
    ensures Sound(v')
  {
    SoundIsOrdered(v);
    FlushKeepsAge(v, v', 0, t);
    hide AllTables, Content, UniqueNumbers, NewerAbove, Levels.InOrder, NumberedByAge, Entered, Tidy;
    FlushKeepsOrdered(v, v', 0, t);
  }

  lemma RebuiltFits(c: Codec, L: Leveled, cuts: map<nat, nat>, last: nat, tables: seq<Table>, v': Version)
    requires Fits(L.s.f.tables, L.s.f.disk.version, L.disk) && L.s.nextFile !in L.s.f.disk.version
    requires Rebuilt(c, L, cuts, tables, v')
    ensures Arranged(Reopen(c, L.s, cuts, last).f, v')
  {
    hide Fits, Entered, Tidy, Replayed, Union;
    var files := L.s.f.disk.version;
    if tables == [] {
      assert files + {} == files;
    } else {
      var t := tables[0];
      FitsEntered(L.s.f.tables, L.s.f.tables[t.number := Entries(t.entries)], files, L.disk, v', 0, t);
    }
  }

  /** So a Get, after opening, answers with the newest of what survived: what had been flushed, and what the
      logs bring back. */
  lemma GetAfterCrash(c: Codec, L: Leveled, cuts: map<nat, nat>, last: nat, tables: seq<Table>, v': Version, k: UserKey)
    requires LevelReachable(L) && Crash(c, L.s, cuts) && InStepOnDisk(c, L.s) && Rebuilt(c, L, cuts, tables, v')
    requires last < MAX_SEQUENCE && forall e :: e in Recovered(c, L.s, cuts) ==> e.sequence <= last
    ensures LevelReachable(ReopenLevels(c, L, cuts, last, v')) && Searchable(v')
    ensures Search({}, {}, v', k, last) == Read(Durable(c, L.s, cuts), k, MAX_SEQUENCE)
  {
    hide Search, Read, Durable, Recovered, Crash, InStepOnDisk, Rebuilt, Searchable, History, LevelsOpened, Union, Replayed;
    var t := ReopenLevels(c, L, cuts, last, v');
    ReopenedInOrder(c, L, cuts, last, tables, v');
    assert LevelRuns(t, [], t);
    assert LevelReachable(t);
    LevelReachableInv(L);
    hide LevelReachable;
    ReopenedReads(c, L.s, cuts, last, k);
    GetReadsHistory(t, k, last);
    assert Mem(t.s.m) == {} && Imm(t.s.m) == {};
  }
}
