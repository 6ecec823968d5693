/** Memtables and their logs: layers of ever larger sequence numbers, and what each log holds. */
module DatabaseMemory {
  import opened Keys
  import opened Compaction
  import opened Database
  import opened DatabaseQueue

  // ---------- sequence numbers ----------

  /** Tables, then the immutable memtable, then the memtable: each holds only newer entries. */
  ghost predicate Layers(flushed: set<Entry>, imm: set<Entry>, mem: set<Entry>) {
    && (forall e, f :: e in flushed && (f in imm || f in mem) ==> e.sequence < f.sequence)
    && (forall e, f :: e in imm && f in mem ==> e.sequence < f.sequence)
  }

  ghost predicate UniqueNumbers(db: set<Entry>) {
    forall e, f :: e in db && f in db && e.sequence == f.sequence ==> e == f
  }

  function InsertedCount(p: Phase): nat {
    if p.Inserting? then p.next else 0
  }

  /** Numbers above the last sequence number belong to the group being inserted. */
  ghost predicate Bounded(q: Queue, db: set<Entry>) {
    forall e :: e in db ==>
      && e.sequence <= q.lastSequence + InsertedCount(q.phase)
      && (e.sequence > q.lastSequence ==> q.phase.Inserting? && e in q.phase.entries)
  }

  ghost predicate Numbering(s: State) {
    && Layers(s.f.flushed, Imm(s.m), Mem(s.m))
    && UniqueNumbers(History(s))
    && Bounded(s.q, History(s))
    && (s.q.phase.Inserting? ==> s.q.phase.next <= |s.q.phase.entries| && forall i :: 0 <= i < s.q.phase.next ==> s.q.phase.entries[i] in Mem(s.m))
    && s.base <= s.q.lastSequence < MAX_SEQUENCE
  }

  /** Where the memtables are. */
  ghost predicate Placement(s: State) {
    && s.m.logfile in s.m.memtables && s.m.logfile < s.nextFile
    && (s.m.imm.Some? ==> s.m.imm.value in s.m.memtables && s.m.imm.value < s.m.logfile)
    && (forall n :: n in s.m.memtables ==> n < s.nextFile && s.m.memtables[n] <= History(s))
  }

  lemma SwitchMoves(m: Memory, newLog: nat)
    requires m.logfile in m.memtables && m.logfile != newLog && m.imm.None?
    ensures Mem(SwitchMemory(m, newLog)) == {} && Imm(SwitchMemory(m, newLog)) == Mem(m)
  {
  }

  lemma SwitchKeeps(s: State, needs: bool)
    requires Numbering(s) && Placement(s) && s.m.imm.None? && s.q.phase.Waiting?
    ensures Numbering(Switch(s, needs)) && Placement(Switch(s, needs))
    ensures History(Switch(s, needs)) == History(s)
  {
    hide MaybeSchedule;
    SwitchMoves(s.m, s.nextFile);
  }

  lemma InsertKeeps(s: State)
    requires Numbering(s) && Placement(s) && Shape(s.q)
    requires QueueEnabled(s, InsertOne)
    ensures Numbering(DoQueue(s, InsertOne)) && Placement(DoQueue(s, InsertOne))
    ensures History(DoQueue(s, InsertOne)) == History(s) + {s.q.phase.entries[s.q.phase.next]}
  {
    hide GroupOps, Answers, AppendTo, SyncMemory, MaybeSchedule, SwitchMemory, LastIndex;
    var t := DoQueue(s, InsertOne);
    var e := s.q.phase.entries[s.q.phase.next];
    assert e.sequence == s.q.lastSequence + 1 + s.q.phase.next;
    assert Mem(t.m) == Mem(s.m) + {e};
    assert Imm(t.m) == Imm(s.m);
    assert forall f :: f in History(s) ==> f.sequence < e.sequence;
  }

  lemma QueueKeepsMemory(s: State, a: QueueStep)
    requires QueueEnabled(s, a) && Shape(s.q) && Numbering(s) && Placement(s)
    ensures Numbering(DoQueue(s, a)) && Placement(DoQueue(s, a))
    ensures History(s) <= History(DoQueue(s, a))
  {
    hide GroupOps, Answers, AppendTo, MaybeSchedule, Layers, UniqueNumbers;
    match a {
      case LeadNull(needs) => SwitchKeeps(s.(q := DoQueue(s, a).q), needs);
      case LeadWrite(size, switch, needs) => if switch { SwitchKeeps(s, needs); }
      case InsertOne => InsertKeeps(s);
      case _ =>
    }
  }

  lemma WorkKeepsMemory(s: State, a: WorkStep)
    requires WorkEnabled(s, a) && Numbering(s) && Placement(s)
    ensures Numbering(DoWork(s, a)) && Placement(DoWork(s, a))
    ensures History(DoWork(s, a)) == History(s)
    ensures DoWork(s, a).m.memtables == s.m.memtables && DoWork(s, a).m.logfile == s.m.logfile
  {
    hide Union, Keep, MergeInput, MergeOutput, Live, MaybeSchedule, EndCall;
    var t := DoWork(s, a);
    if a.InstallFlush? && s.b.bg.job.ok {
      assert Imm(t.m) == {} && Mem(t.m) == Mem(s.m);
      assert t.f.flushed == s.f.flushed + Imm(s.m);
      assert History(t) == History(s);
    } else {
      assert t.m.memtables == s.m.memtables && t.m.imm == s.m.imm && t.m.logfile == s.m.logfile;
      assert t.f.flushed == s.f.flushed;
      assert Imm(t.m) == Imm(s.m) && Mem(t.m) == Mem(s.m);
      assert History(t) == History(s);
    }
  }

  lemma ViewKeepsMemory(s: State, a: ViewStep)
    requires ViewEnabled(s, a) && Numbering(s) && Placement(s)
    ensures Numbering(DoView(s, a)) && Placement(DoView(s, a))
  {
    hide MaybeSchedule;
  }

  // ---------- logs ----------

  function LogEntries(l: LogFile, n: nat): set<Entry> {
    set i, e | 0 <= i < n && i < |l.writes| && e in Reached(l.writes[i]) :: e
  }

  function LogSet(l: LogFile): set<Entry> {
    LogEntries(l, |l.writes|)
  }

  predicate LogOk(l: LogFile) {
    l.synced <= |l.writes|
  }

  /** What the current log holds beyond its memtable. */
  ghost function Unapplied(s: State): set<Entry> {
    s.m.orphans + if s.q.phase.Syncing? || s.q.phase.Inserting? then Entries(s.q.phase.entries) else {}
  }

  /** The logs that the descriptor still asks for are those of the two memtables, and hold their entries. */
  ghost predicate Logged(s: State) {
    && s.m.logfile in s.m.logs && s.f.current.logNumber <= s.m.logfile
    && (s.m.imm.Some? ==> s.m.imm.value in s.m.logs && s.f.current.logNumber <= s.m.imm.value < s.m.logfile)
    && (forall n :: n in s.m.logs ==> n < s.nextFile && LogOk(s.m.logs[n]))
    && (forall n :: n in s.m.logs && n >= s.f.current.logNumber ==> n == s.m.logfile || s.m.imm == Some(n))
    && LogSet(s.m.logs[s.m.logfile]) == Mem(s.m) + Unapplied(s)
    && (s.m.imm.Some? ==> LogSet(s.m.logs[s.m.imm.value]) == Imm(s.m))
  }

  /** A record that could not be synced is never inserted, and no write comes after it. */
  ghost predicate Orphaned(s: State) {
    && UniqueNumbers(s.m.orphans)
    && (s.q.phase.Failed? && s.q.phase.syncError ==> s.m.orphans == Entries(s.q.phase.entries))
    && (s.m.orphans != {} ==> (s.q.phase.Failed? && s.q.phase.syncError) || (s.q.phase.Waiting? && s.b.bgError))
    && (forall o, e :: o in s.m.orphans && e in History(s) ==> e.sequence < o.sequence)
  }

  /** An edit under way records the log of the memtable that is filled, if it is a flush's. */
  ghost predicate EditLog(s: State) {
    var bg := s.b.bg;
    && (bg.Running? && (bg.job.Installing? || bg.job.Written?) ==>
          bg.job.edit.logNumber == if bg.job.flush then s.m.logfile else s.f.current.logNumber)
    && (bg.Stopped? ==> bg.edit.logNumber == (if bg.flush then s.m.logfile else s.f.current.logNumber) && (bg.flush ==> s.m.imm.Some?))
  }

  lemma AppendedLog(l: LogFile, record: seq<Entry>, lostAt: Option<nat>)
    ensures LogSet(AppendTo(l, record, lostAt)) == LogSet(l) + if lostAt.None? then Entries(record) else {}
    ensures LogOk(l) ==> LogOk(AppendTo(l, record, lostAt))
  {
    var l' := AppendTo(l, record, lostAt);
    assert l'.writes[|l.writes|] == LogWrite(record, lostAt);
    assert forall i :: 0 <= i < |l.writes| ==> l'.writes[i] == l.writes[i];
    forall e | e in LogSet(l) + Entries(Reached(l'.writes[|l.writes|])) ensures e in LogSet(l') {
      if e in LogSet(l) {
        var i :| 0 <= i < |l.writes| && e in Reached(l.writes[i]);
        assert e in Reached(l'.writes[i]);
      }
    }
  }

  lemma SwitchKeepsLogs(s: State, needs: bool)
    requires Logged(s) && Placement(s) && s.m.imm.None? && s.q.phase.Waiting? && s.m.orphans == {}
    ensures Logged(Switch(s, needs))
  {
    hide MaybeSchedule;
    SwitchMoves(s.m, s.nextFile);
    assert LogSet(LogFile([], 0)) == {};
  }

  lemma QueueKeepsLogs(s: State, a: QueueStep)
    requires QueueEnabled(s, a) && Shape(s.q) && Logged(s) && Orphaned(s) && Placement(s) && Numbering(s)
    ensures Logged(DoQueue(s, a))
  {
    hide GroupOps, Answers, MaybeSchedule, AppendTo, LogEntries, Layers, UniqueNumbers, Bounded;
    var t := DoQueue(s, a);
    match a {
      case LeadNull(needs) => SwitchKeepsLogs(s.(q := t.q), needs);
      case LeadWrite(size, switch, needs) => if switch { SwitchKeepsLogs(s, needs); }
      case Sync(ok) => SyncKeepsOk(s.m.logs[s.m.logfile]);
      case Finish => assert s.q.phase.Inserting? ==> Entries(s.q.phase.entries) <= Mem(s.m);
      case Append(lostAt) => AppendedLog(s.m.logs[s.m.logfile], s.q.phase.entries, lostAt);
      case InsertOne => assert Mem(t.m) == Mem(s.m) + {s.q.phase.entries[s.q.phase.next]};
      case _ =>
    }
  }

  lemma SyncKeepsOk(l: LogFile)
    requires LogOk(l)
    ensures LogOk(l.(synced := |l.writes|)) && LogSet(l.(synced := |l.writes|)) == LogSet(l)
  {
  }

  lemma GroupIsUnique(q: Queue)
    requires Shape(q) && !q.phase.Waiting?
    ensures UniqueNumbers(Entries(q.phase.entries))
    ensures forall e :: e in q.phase.entries ==> q.lastSequence < e.sequence
  {
    hide GroupOps, MayLead;
  }

  lemma QueueKeepsOrphans(s: State, a: QueueStep)
    requires QueueEnabled(s, a) && Shape(s.q) && Orphaned(s) && Numbering(s) && Placement(s)
    ensures Orphaned(DoQueue(s, a))
  {
    hide GroupOps, Answers, MaybeSchedule, AppendTo, LogEntries, Layers, UniqueNumbers;
    var t := DoQueue(s, a);
    match a {
      case LeadNull(needs) => SwitchKeeps(s.(q := t.q), needs);
      case LeadWrite(size, switch, needs) => if switch { SwitchKeeps(s, needs); }
      case Sync(ok) =>
        assert forall e :: e in s.q.phase.entries ==> e.sequence > s.q.lastSequence;
        assert History(t) == History(s);
        GroupIsUnique(s.q);
        assert s.m.orphans + Entries(s.q.phase.entries) == Entries(s.q.phase.entries);
      case _ =>
    }
  }

  lemma QueueKeepsEditLog(s: State, a: QueueStep)
    requires QueueEnabled(s, a) && Shape(s.q) && EditLog(s) && Scheduling(s.b, s.m.imm)
    ensures EditLog(DoQueue(s, a))
  {
    hide GroupOps, Answers, AppendTo, LogEntries;
  }

  /** Only an installed version changes which logs are kept, and it never asks for fewer entries. */
  lemma CollectKeepsLogs(s: State, f: Files, m: Memory)
    requires Logged(s)
    requires m == s.m || (s.m.imm.Some? && m == s.m.(imm := None) && f.current.logNumber == s.m.logfile)
    requires m == s.m ==> f.current.logNumber == s.f.current.logNumber
    requires m != s.m ==> f.flushed == s.f.flushed + Imm(s.m)
    requires m == s.m ==> f.flushed == s.f.flushed
    ensures Logged(s.(f := f, m := m))
    ensures Logged(s.(f := f, m := CollectedLogs(m, f.current.logNumber)))
    ensures History(s.(f := f, m := m)) == History(s)
  {
    hide LogEntries, LogOk;
    assert Mem(m) == Mem(s.m);
    assert m == s.m ==> Imm(m) == Imm(s.m);
    assert Mem(CollectedLogs(m, f.current.logNumber)) == Mem(m);
  }

  lemma WorkKeepsLogs(s: State, a: WorkStep)
    requires WorkEnabled(s, a) && Logged(s) && EditLog(s) && Scheduling(s.b, s.m.imm)
    ensures Logged(DoWork(s, a))
  {
    hide Union, Keep, MergeInput, MergeOutput, Live, LogEntries, MaybeSchedule;
    if a.InstallFlush? && s.b.bg.job.ok {
      var f := s.f.(current := ApplyEdit(s.f.current, s.b.bg.job.edit), flushed := s.f.flushed + Imm(s.m));
      CollectKeepsLogs(s, f, s.m.(imm := None));
    } else if a.InstallMerge? && s.b.bg.job.ok {
      var f := s.f.(current := ApplyEdit(s.f.current, s.b.bg.job.edit));
      CollectKeepsLogs(s, f, s.m);
    } else if a.InstallMove? && s.b.bg.job.ok {
      var f := s.f.(current := ApplyEdit(s.f.current, s.b.bg.job.edit));
      CollectKeepsLogs(s, f, s.m);
    } else {
      assert DoWork(s, a).m == s.m && DoWork(s, a).f.current == s.f.current;
    }
  }

  lemma WorkKeepsOrphans(s: State, a: WorkStep)
    requires WorkEnabled(s, a) && Orphaned(s) && Numbering(s) && Placement(s)
    ensures Orphaned(DoWork(s, a))
  {
    hide History, Numbering, Placement, DoWork, WorkEnabled, UniqueNumbers;
    WorkKeepsMemory(s, a);
    WorkKeepsFlags(s, a);
  }

  lemma WorkKeepsFlags(s: State, a: WorkStep)
    requires WorkEnabled(s, a)
    ensures DoWork(s, a).m.orphans == s.m.orphans && DoWork(s, a).q == s.q && (s.b.bgError ==> DoWork(s, a).b.bgError)
  {
    hide Union, Keep, MergeInput, MergeOutput, Live, Imm;
  }

  /** The records of a log carry ever larger numbers. */
  ghost predicate LogOrdered(l: LogFile) {
    forall i, j, e, f :: 0 <= i < j < |l.writes| && e in Reached(l.writes[i]) && f in Reached(l.writes[j]) ==> e.sequence < f.sequence
  }

  ghost predicate LogsOrdered(m: Memory) {
    forall n :: n in m.logs ==> LogOrdered(m.logs[n])
  }

  lemma AppendKeepsLogOrder(l: LogFile, record: seq<Entry>, lostAt: Option<nat>)
    requires LogOrdered(l) && forall e, f :: e in LogSet(l) && f in record ==> e.sequence < f.sequence
    ensures LogOrdered(AppendTo(l, record, lostAt))
  {
    var l' := AppendTo(l, record, lostAt);
    forall i, j, e, f | 0 <= i < j < |l'.writes| && e in Reached(l'.writes[i]) && f in Reached(l'.writes[j]) ensures e.sequence < f.sequence {
      assert l'.writes[i] == l.writes[i];
      assert e in LogSet(l);
    }
  }

  lemma QueueKeepsLogOrder(s: State, a: QueueStep)
    requires QueueEnabled(s, a) && Shape(s.q) && LogsOrdered(s.m) && Logged(s) && Orphaned(s) && Numbering(s)
    ensures LogsOrdered(DoQueue(s, a).m)
  {
    hide GroupOps, Answers, MaybeSchedule, AppendTo, LogEntries, Layers, UniqueNumbers, LogOk, LogOrdered;
    match a {
      case Append(lostAt) =>
        GroupIsUnique(s.q);
        assert LogSet(s.m.logs[s.m.logfile]) <= History(s);
        AppendKeepsLogOrder(s.m.logs[s.m.logfile], s.q.phase.entries, lostAt);
      case Sync(ok) => SyncKeepsLogOrder(s.m.logs[s.m.logfile]);
      case _ => EmptyLogOrdered();
    }
  }

  lemma EmptyLogOrdered()
    ensures LogOrdered(LogFile([], 0))
  {
  }

  lemma SyncKeepsLogOrder(l: LogFile)
    requires LogOrdered(l)
    ensures LogOrdered(l.(synced := |l.writes|))
  {
  }

  lemma WorkKeepsLogOrder(s: State, a: WorkStep)
    requires WorkEnabled(s, a) && LogsOrdered(s.m)
    ensures LogsOrdered(DoWork(s, a).m)
  {
    hide Union, Keep, MergeInput, MergeOutput, Live, LogOrdered, MaybeSchedule;
  }

  lemma WorkKeepsEditLog(s: State, a: WorkStep)
    requires WorkEnabled(s, a) && EditLog(s) && Scheduling(s.b, s.m.imm)
    ensures EditLog(DoWork(s, a))
  {
    hide Union, Keep, MergeInput, MergeOutput, Live;
  }
}
