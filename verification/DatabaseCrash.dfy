/** What a crash leaves: the tables the descriptor names, and the records that replaying the logs it
    asks for brings back, each log a file that is cut somewhere behind its synced bytes. */
module DatabaseCrash {
  import opened Keys
  import opened Database
  import opened DatabaseQueue
  import opened DatabaseMemory
  import opened DatabaseStorage
  import opened DatabaseReaders
  import opened DatabaseAcks
  import opened DatabaseRuns
  import opened DatabaseGuarantees
  import opened DatabaseLogs

  // ---------- what is on disk ----------

  /** A crash cuts each log that the descriptor on disk asks for somewhere behind its synced bytes. */
  ghost predicate Crash(c: Codec, s: State, cuts: map<nat, nat>) {
    forall n :: n in s.m.logs && n >= s.f.disk.logNumber ==>
      n in cuts && CutOf(c, s.m.logs[n], cuts[n]) && Encodes(c, s.m.logs[n].writes)
  }

  /** Every append to these logs, failed or not, left its fragments where a reader looks for them. */
  ghost predicate InStepOnDisk(c: Codec, s: State) {
    forall n :: n in s.m.logs && n >= s.f.disk.logNumber ==> LogInStep(c, s.m.logs[n].writes)
  }

  ghost function Replayed(c: Codec, m: Memory, from: nat, cuts: map<nat, nat>): set<Entry> {
    set n, e | n in m.logs && n >= from && n in cuts && e in ReplayedLog(c, m.logs[n], cuts[n]) :: e
  }

  /** The content of the database that recovery builds. */
  ghost function Recovered(c: Codec, s: State, cuts: map<nat, nat>): set<Entry> {
    Union(s.f.tables, s.f.disk.version) + Replayed(c, s.m, s.f.disk.logNumber, cuts)
  }

  /** All that was ever in a table the descriptor on disk accounts for. */
  ghost function FlushedOnDisk(s: State): set<Entry> {
    if s.m.imm.Some? && s.f.disk.logNumber > s.m.imm.value then s.f.flushed + Imm(s.m) else s.f.flushed
  }

  /** What the crash left of the history, were nothing ever compacted. */
  ghost function Durable(c: Codec, s: State, cuts: map<nat, nat>): set<Entry> {
    FlushedOnDisk(s) + Replayed(c, s.m, s.f.disk.logNumber, cuts)
  }

  // ---------- the descriptor's version ----------

  lemma AppliedReads(s: State, e: Edit, flush: bool, merge: Option<Merge>)
    requires VersionReads(s.f) && Numbering(s) && s.f.horizon <= s.q.lastSequence
    requires EditOk(s, e, flush, merge) && (merge.Some? ==> MergeOk(s, merge.value))
    ensures var f := s.f.(current := ApplyEdit(s.f.current, e), flushed := if flush then s.f.flushed + Imm(s.m) else s.f.flushed);
      VersionReads(f)
  {
    hide VersionReads, FlushEditOk, MergeInput, MergeOutput, Layers, UniqueNumbers;
    var f := s.f.(current := ApplyEdit(s.f.current, e), flushed := if flush then s.f.flushed + Imm(s.m) else s.f.flushed);
    if flush {
      FlushReads(s, f, e);
    } else if merge.Some? {
      MergeReads(s, f, merge.value);
    } else {
      MoveKeepsVersion(s.f.current, e);
      assert f == s.f;
    }
  }

  lemma DiskReads(s: State)
    requires Inv(s)
    ensures VersionReads(s.f.(current := s.f.disk, flushed := FlushedOnDisk(s)))
    ensures s.f.current.logNumber <= s.f.disk.logNumber <= s.m.logfile
    ensures s.f.disk.logNumber == s.f.current.logNumber || s.f.disk.logNumber == s.m.logfile
  {
    hide VersionReads, MergeInput, MergeOutput, Union, Layers, UniqueNumbers, Bounded, AcksOk, LogEntries, ReadersOk,
         Placement, Orphaned, InOrder, Shape, FlushEditOk, MergeOk;
    var bg := s.b.bg;
    if s.f.disk == s.f.current {
      assert s.f.(current := s.f.disk, flushed := FlushedOnDisk(s)) == s.f;
    } else if bg.Running? {
      AppliedReads(s, bg.job.edit, bg.job.flush, bg.merge);
    } else {
      AppliedReads(s, bg.edit, bg.flush, bg.merge);
    }
  }

  // ---------- the logs ----------

  /** Entries of the immutable memtable are not of the group being inserted. */
  lemma ImmIsOld(s: State, e: Entry)
    requires Numbering(s) && Shape(s.q) && (e in Imm(s.m) || e in s.f.flushed)
    ensures e.sequence <= s.q.lastSequence
  {
    hide UniqueNumbers, GroupOps, MayLead;
  }

  /** What the current log holds beyond its memtable is newer than everything inserted. */
  lemma UnappliedIsNew(s: State)
    requires Inv(s)
    ensures UniqueNumbers(History(s) + Unapplied(s))
    ensures forall e, f :: e in Imm(s.m) + s.f.flushed && f in Mem(s.m) + Unapplied(s) ==> e.sequence < f.sequence
  {
    hide StorageOk, ReadersOk, AcksOk, Logged, LogsOrdered, EditLog, Scheduling, InOrder, Placement;
    if s.q.phase.Syncing? || s.q.phase.Inserting? {
      GroupIsUnique(s.q);
      assert s.m.orphans == {};
      GroupIsUniqueWith(s);
    }
    forall e, f | e in Imm(s.m) + s.f.flushed && f in Mem(s.m) + Unapplied(s) ensures e.sequence < f.sequence {
      ImmIsOld(s, e);
    }
  }

  lemma GroupIsUniqueWith(s: State)
    requires Numbering(s) && Shape(s.q) && (s.q.phase.Syncing? || s.q.phase.Inserting?)
    ensures UniqueNumbers(History(s) + Entries(s.q.phase.entries))
  {
    GroupIsUnique(s.q);
    hide GroupOps, MayLead, Layers;
    var es := s.q.phase.entries;
    forall e, f | e in History(s) && f in es && e.sequence == f.sequence ensures e == f {
      assert e in es;
    }
  }

  /** A log in step brings back nothing but its entries. */
  lemma KeptAreLogged(c: Codec, s: State, cuts: map<nat, nat>, n: nat)
    requires Crash(c, s, cuts) && InStepOnDisk(c, s) && n in s.m.logs && n >= s.f.disk.logNumber
    ensures ReplayedLog(c, s.m.logs[n], cuts[n]) <= LogSet(s.m.logs[n])
  {
    hide ReplayedLog, CutOf, LogInStep, Encodes;
    var m := InStepLog(c, s.m.logs[n], cuts[n]);
  }

  lemma RetainedLog(s: State, n: nat)
    requires Inv(s) && n in s.m.logs && n >= s.f.current.logNumber
    ensures n == s.m.logfile || s.m.imm == Some(n)
    ensures LogSet(s.m.logs[n]) == if n == s.m.logfile then Mem(s.m) + Unapplied(s) else Imm(s.m)
    ensures n != s.m.logfile ==> n < s.m.logfile
  {
    hide StorageOk, ReadersOk, AcksOk, LogsOrdered, EditLog, Scheduling, InOrder, Placement, Orphaned, Shape,
         LogEntries, LogOk, Numbering, Unapplied, Imm, Mem;
  }

  lemma ReplayedIn(c: Codec, s: State, cuts: map<nat, nat>, e: Entry)
    requires Inv(s) && Crash(c, s, cuts) && InStepOnDisk(c, s)
    requires e in Replayed(c, s.m, s.f.disk.logNumber, cuts) && s.f.current.logNumber <= s.f.disk.logNumber
    ensures e in Mem(s.m) + Unapplied(s) || (s.m.imm.Some? && s.f.disk.logNumber <= s.m.imm.value && e in Imm(s.m))
  {
    hide Inv, ReplayedLog, Unapplied, Mem, Imm, Crash, InStepOnDisk;
    var n :| n in s.m.logs && n >= s.f.disk.logNumber && n in cuts && e in ReplayedLog(c, s.m.logs[n], cuts[n]);
    RetainedLog(s, n);
    KeptAreLogged(c, s, cuts, n);
  }

  /** Replaying the logs brings back only what they hold beyond the tables on disk. */
  lemma ReplayedIsNew(c: Codec, s: State, cuts: map<nat, nat>)
    requires Inv(s) && Crash(c, s, cuts) && InStepOnDisk(c, s)
    ensures Replayed(c, s.m, s.f.disk.logNumber, cuts) <= Imm(s.m) + Mem(s.m) + Unapplied(s)
    ensures forall e, f :: e in FlushedOnDisk(s) && f in Replayed(c, s.m, s.f.disk.logNumber, cuts) ==> e.sequence < f.sequence
  {
    DiskReads(s);
    UnappliedIsNew(s);
    ImmIsNew(s);
    hide Inv, Replayed, Unapplied, Mem, Imm, UniqueNumbers, Crash, InStepOnDisk;
    forall f | f in Replayed(c, s.m, s.f.disk.logNumber, cuts)
      ensures f in Imm(s.m) + Mem(s.m) + Unapplied(s) && forall e :: e in FlushedOnDisk(s) ==> e.sequence < f.sequence
    {
      ReplayedIn(c, s, cuts, f);
    }
  }

  lemma ImmIsNew(s: State)
    requires Inv(s)
    ensures forall e, f :: e in s.f.flushed && f in Imm(s.m) ==> e.sequence < f.sequence
  {
    hide StorageOk, ReadersOk, AcksOk, Logged, LogsOrdered, EditLog, Scheduling, InOrder, Placement, Orphaned, Shape,
         UniqueNumbers, Bounded, Mem, Imm;
  }

  // ---------- the theorems ----------

  /** As long as the logs are in step, recovery builds nothing that was not written, and for every key
      and every number from the compactions' bound on it reads exactly as what was flushed plus what is
      left in the logs. */
  lemma RecoveryReads(c: Codec, s: State, cuts: map<nat, nat>, k: UserKey, p: nat)
    requires Reachable(s) && Crash(c, s, cuts) && InStepOnDisk(c, s) && s.f.horizon <= p
    ensures Recovered(c, s, cuts) <= History(s) + Unapplied(s)
    ensures Read(Recovered(c, s, cuts), k, p) == Read(Durable(c, s, cuts), k, p)
  {
    hide Inv, Reachable, Read, Unapplied, Crash, InStepOnDisk, Replayed;
    ReachableInv(s);
    DiskReads(s);
    UnappliedIsNew(s);
    ReplayedIsNew(c, s, cuts);
    var f := s.f.(current := s.f.disk, flushed := FlushedOnDisk(s));
    var replayed := Replayed(c, s.m, s.f.disk.logNumber, cuts);
    assert FlushedOnDisk(s) + replayed <= History(s) + Unapplied(s);
    hide History;
    SameReadsUnder(Tables(f), f.flushed, replayed, f.horizon);
  }

  // ---------- batches ----------

  lemma InOneWrite(l: LogFile, i: nat, m: nat, e: Entry)
    requires LogOrdered(l) && i < |l.writes| && e in Reached(l.writes[i]) && m <= |l.writes|
    ensures e in LogEntries(l, m) <==> i < m
  {
    if e in LogEntries(l, m) {
      var j :| 0 <= j < m && e in Reached(l.writes[j]);
      assert i == j;
    }
  }

  /** An entry of a log in step survives if and only if its append does. */
  lemma WriteReplayed(c: Codec, s: State, cuts: map<nat, nat>, n: nat, i: nat, e: Entry)
    requires Inv(s) && Crash(c, s, cuts) && InStepOnDisk(c, s)
    requires n in s.m.logs && s.f.disk.logNumber <= n && s.f.current.logNumber <= s.f.disk.logNumber
    requires i < |s.m.logs[n].writes| && e in Reached(s.m.logs[n].writes[i])
    ensures e in Durable(c, s, cuts) <==> InCut(c, s.m.logs[n], i, cuts[n])
    ensures e !in FlushedOnDisk(s)
  {
    hide Inv, Unapplied, Mem, Imm, UniqueNumbers, LogOrdered, LogEntries, ReplayedLog, CutOf, LogInStep, Encodes, InCut;
    var l := s.m.logs[n];
    InvLogs(s, n);
    var m := InStepLog(c, l, cuts[n]);
    InOneWrite(l, i, m, e);
    RetainedLog(s, n);
    WriteInLog(l, i, e);
    UnappliedIsNew(s);
    ImmIsNew(s);
    if e in Replayed(c, s.m, s.f.disk.logNumber, cuts) {
      var n' :| n' in s.m.logs && n' >= s.f.disk.logNumber && n' in cuts && e in ReplayedLog(c, s.m.logs[n'], cuts[n']);
      RetainedLog(s, n');
      KeptAreLogged(c, s, cuts, n');
    }
  }

  lemma WriteInLog(l: LogFile, i: nat, e: Entry)
    requires i < |l.writes| && e in Reached(l.writes[i])
    ensures e in LogSet(l)
  {
  }

  lemma InvLogs(s: State, n: nat)
    requires Inv(s) && n in s.m.logs
    ensures LogOrdered(s.m.logs[n]) && LogOk(s.m.logs[n])
  {
    hide StorageOk, ReadersOk, AcksOk, EditLog, Scheduling, InOrder, Placement, Orphaned, Shape, LogEntries, LogOk,
         LogOrdered, Numbering, Unapplied, Imm, Mem;
  }

  /** A crash keeps all of a batch that was answered OK, or nothing of it: all of it if it is in a table
      on disk or all bytes of its record are left, and nothing otherwise. */
  lemma CrashKeepsWholeBatches(c: Codec, s: State, cuts: map<nat, nat>, a: Ack)
    requires Reachable(s) && Crash(c, s, cuts) && InStepOnDisk(c, s) && a in s.q.acks && a.ok
    ensures Entries(a.entries) <= Durable(c, s, cuts) || Entries(a.entries) !! Durable(c, s, cuts)
    ensures a.entries != [] ==>
      (Entries(a.entries) <= Durable(c, s, cuts) <==>
         || Entries(a.entries) <= FlushedOnDisk(s)
         || (a.log in s.m.logs && a.log >= s.f.disk.logNumber && InCut(c, s.m.logs[a.log], a.index, cuts[a.log])))
  {
    hide Inv, Reachable, Unapplied, Mem, Imm, VersionReads, InCut, Crash, InStepOnDisk, Durable;
    ReachableInv(s);
    DiskReads(s);
    KeptAck(s, a);
    if Entries(a.entries) <= FlushedOnDisk(s) {
      FlushedIsDurable(c, s, cuts);
    } else {
      assert a.log in cuts by { OnDiskIsCut(c, s, cuts, a.log); }
      forall e | e in a.entries ensures e in Durable(c, s, cuts) <==> InCut(c, s.m.logs[a.log], a.index, cuts[a.log]) {
        assert e in Entries(a.entries);
        WriteReplayed(c, s, cuts, a.log, a.index, e);
      }
      if a.entries != [] {
        assert a.entries[0] in Entries(a.entries);
      }
    }
  }

  lemma FlushedIsDurable(c: Codec, s: State, cuts: map<nat, nat>)
    ensures FlushedOnDisk(s) <= Durable(c, s, cuts)
  {
  }

  lemma OnDiskIsCut(c: Codec, s: State, cuts: map<nat, nat>, n: nat)
    requires Crash(c, s, cuts) && n in s.m.logs && n >= s.f.disk.logNumber
    ensures n in cuts && CutOf(c, s.m.logs[n], cuts[n]) && Encodes(c, s.m.logs[n].writes)
  {
  }

  lemma KeptAck(s: State, a: Ack)
    requires Inv(s) && a in s.q.acks && a.ok && s.f.disk.logNumber <= s.m.logfile
    ensures Entries(a.entries) <= FlushedOnDisk(s) || (InRecord(a, s.m) && s.f.disk.logNumber <= a.log)
  {
    hide StorageOk, ReadersOk, EditLog, Scheduling, InOrder, Placement, Orphaned, Shape, LogOrdered, LogOk,
         Numbering, Unapplied, Mem;
    if !(Entries(a.entries) <= s.f.flushed) && a.log < s.f.disk.logNumber {
      assert Entries(Reached(s.m.logs[a.log].writes[a.index])) <= LogSet(s.m.logs[a.log]);
    }
  }

  /** The promise to a sync writer that was answered OK: its batch survives every crash. It is kept if
      the batch is in a table or its log was in step up to its record, whatever was appended later and
      whatever became of the other logs. */
  lemma SyncedSurvives(c: Codec, s: State, cuts: map<nat, nat>, a: Ack)
    requires Reachable(s) && Crash(c, s, cuts) && a in s.q.acks && a.ok && a.writer.sync
    requires Entries(a.entries) <= FlushedOnDisk(s) ||
      (a.log in s.m.logs && a.index < |s.m.logs[a.log].writes| && LogInStep(c, s.m.logs[a.log].writes[..a.index + 1]))
    ensures Entries(a.entries) <= Durable(c, s, cuts)
  {
    hide Inv, Reachable, FlushedOnDisk, VersionReads, ReplayedLog, CutOf, LogInStep, Encodes, Crash;
    ReachableInv(s);
    DiskReads(s);
    KeptAck(s, a);
    if !(Entries(a.entries) <= FlushedOnDisk(s)) {
      var l := s.m.logs[a.log];
      OnDiskIsCut(c, s, cuts, a.log);
      FirstEncoded(c, l.writes, a.index + 1);
      SyncedInStep(c, l, cuts[a.log], a.index);
    }
  }

  /** What a crash leaves of a log in step has no gaps: with a record, it keeps all earlier ones. */
  lemma CrashKeepsAPrefix(c: Codec, s: State, cuts: map<nat, nat>, n: nat, e: Entry, f: Entry)
    requires Reachable(s) && Crash(c, s, cuts) && InStepOnDisk(c, s) && n in s.m.logs && s.f.disk.logNumber <= n
    requires e in LogSet(s.m.logs[n]) && f in LogSet(s.m.logs[n]) && e.sequence <= f.sequence && f in Durable(c, s, cuts)
    ensures e in Durable(c, s, cuts)
  {
    hide Inv, Reachable, Durable, VersionReads, Crash, InStepOnDisk, InCut, CutOf, Encodes, LogOrdered;
    ReachableInv(s);
    DiskReads(s);
    InvLogs(s, n);
    OnDiskIsCut(c, s, cuts, n);
    var l := s.m.logs[n];
    var i :| 0 <= i < |l.writes| && e in Reached(l.writes[i]);
    var j :| 0 <= j < |l.writes| && f in Reached(l.writes[j]);
    WriteReplayed(c, s, cuts, n, i, e);
    WriteReplayed(c, s, cuts, n, j, f);
    EarlierIsInCut(c, l, i, j, e, f, cuts[n]);
  }

  lemma EarlierIsInCut(c: Codec, l: LogFile, i: nat, j: nat, e: Entry, f: Entry, cut: nat)
    requires LogOrdered(l) && i < |l.writes| && j < |l.writes| && InCut(c, l, j, cut)
    requires e in Reached(l.writes[i]) && f in Reached(l.writes[j]) && e.sequence <= f.sequence
    ensures InCut(c, l, i, cut)
  {
    hide Bytes;
    BytesGrow(c, l.writes, if i < j then i + 1 else j + 1, j + 1);
  }

  /** Logs to which no append failed are in step. */
  lemma UndamagedIsInStep(c: Codec, s: State)
    requires forall n, w :: n in s.m.logs && n >= s.f.disk.logNumber && w in s.m.logs[n].writes ==> w.lostAt.None?
    ensures InStepOnDisk(c, s)
  {
    hide LogInStep;
    forall n | n in s.m.logs && n >= s.f.disk.logNumber ensures LogInStep(c, s.m.logs[n].writes) {
      UndamagedLog(c, s.m.logs[n].writes);
    }
  }

  // ---------- opening again ----------

  /** The state that opening builds from what the crash left: the replayed records, if any, become a table,
      and a new log is begun. */
  ghost function Reopen(c: Codec, s: State, cuts: map<nat, nat>, last: nat): State {
    var table, log := s.nextFile, s.nextFile + 1;
    var replayed := Replayed(c, s.m, s.f.disk.logNumber, cuts);
    var manifest := Manifest(s.f.disk.version + if replayed == {} then {} else {table}, log);
    var tables := if replayed == {} then s.f.tables else s.f.tables[table := replayed];
    State(Queue([], Waiting, last, [], []),
          Memory(map[log := {}], None, log, map[log := LogFile([], 0)], {}),
          Files(tables, manifest, manifest, {}, Union(tables, manifest.version), 0),
          Views([], map[]), Worker(Idle, false, 0, false, false, false), s.nextFile + 2, last)
  }

  lemma DiskFilesExist(s: State)
    requires Inv(s)
    ensures s.f.disk.version <= s.f.tables.Keys && s.nextFile !in s.f.disk.version
    ensures forall n :: n in s.f.tables ==> n < s.nextFile
  {
    hide Logged, ReadersOk, EditLog, AcksOk, Scheduling, InOrder, Placement, Orphaned, Shape, LogsOrdered, Numbering,
         MergeInput, MergeOutput, VersionReads, Union;
  }

  lemma OneTableMore(tables: map<nat, set<Entry>>, version: set<nat>, n: nat, es: set<Entry>)
    requires n !in version
    ensures Union(tables[n := es], version + {n}) == Union(tables, version) + es
  {
    UnionSame(tables, tables[n := es], version);
    UnionPlus(tables[n := es], version, {n});
    var t := tables[n := es];
    forall e | e in es ensures e in Union(t, {n}) {
      assert n in {n} && n in t && e in t[n];
    }
    assert Union(t, {n}) == es;
  }

  lemma ReopenIsOpened(c: Codec, s: State, cuts: map<nat, nat>, last: nat)
    requires Inv(s) && UniqueNumbers(Recovered(c, s, cuts))
    requires last < MAX_SEQUENCE && forall e :: e in Recovered(c, s, cuts) ==> e.sequence <= last
    ensures Opened(Reopen(c, s, cuts, last)) && History(Reopen(c, s, cuts, last)) == Recovered(c, s, cuts)
  {
    hide Inv, Replayed, UniqueNumbers;
    DiskFilesExist(s);
    var t := Reopen(c, s, cuts, last);
    var replayed := Replayed(c, s.m, s.f.disk.logNumber, cuts);
    OneTableMore(s.f.tables, s.f.disk.version, s.nextFile, replayed);
    hide Union;
    assert replayed == {} ==> s.f.disk.version + {} == s.f.disk.version;
    assert Tables(t.f) == Recovered(c, s, cuts);
    assert Imm(t.m) == {} && Mem(t.m) == {};
    assert History(t) == Tables(t.f);
  }

  lemma BoundOfRun(s: State)
    requires Inv(s)
    ensures s.f.horizon <= MAX_SEQUENCE
  {
    hide Logged, ReadersOk, EditLog, AcksOk, Scheduling, InOrder, Placement, Orphaned, Shape, LogsOrdered,
         MergeInput, MergeOutput, VersionReads, Union, Layers, UniqueNumbers, Bounded;
  }

  /** Opening again gives a state that holds exactly what recovery built, and a Get then answers with
      the newest of what survived. So the guarantees above begin anew, and nothing that is on disk is
      lost however often the database crashes. */
  lemma ReopenedReads(c: Codec, s: State, cuts: map<nat, nat>, last: nat, k: UserKey)
    requires Reachable(s) && Crash(c, s, cuts) && InStepOnDisk(c, s)
    requires last < MAX_SEQUENCE && forall e :: e in Recovered(c, s, cuts) ==> e.sequence <= last
    ensures var t := Reopen(c, s, cuts, last);
      Opened(t) && History(t) == Recovered(c, s, cuts) && Read(History(t), k, last) == Read(Durable(c, s, cuts), k, MAX_SEQUENCE)
  {
    hide Inv, Reachable, Durable, Unapplied, Crash, InStepOnDisk, Replayed, Read, Recovered, Opened, Reopen, History;
    ReachableInv(s);
    UnappliedIsNew(s);
    BoundOfRun(s);
    RecoveryReads(c, s, cuts, k, MAX_SEQUENCE);
    assert UniqueNumbers(Recovered(c, s, cuts));
    hide UniqueNumbers;
    ReopenIsOpened(c, s, cuts, last);
    SameAbove(Recovered(c, s, cuts), k, last, MAX_SEQUENCE);
  }

  lemma SameAbove(db: set<Entry>, k: UserKey, p: nat, q: nat)
    requires UniqueNumbers(db) && p <= q && forall e :: e in db ==> e.sequence <= p
    ensures Read(db, k, p) == Read(db, k, q)
  {
    UniqueIsDistinct(db);
    if n :| IsNewest(db, k, p, n) {
      assert IsNewest(db, k, q, n);
      NewestIs(db, k, p, n);
      NewestIs(db, k, q, n);
    } else if n :| IsNewest(db, k, q, n) {
      assert IsNewest(db, k, p, n);
    }
  }
}
