/** Whole runs: from any state a database may be opened in, through any interleaving of writers,
    readers, snapshots, flushes and compactions, to a crash and the next opening. */
module DatabaseRuns {
  import opened Keys
  import opened Database
  import opened DatabaseQueue
  import opened DatabaseMemory
  import opened DatabaseStorage
  import opened DatabaseReaders
  import opened DatabaseAcks

  // ---------- runs ----------

  /** What DB::Open leaves behind: all data in tables, an empty memtable, a new log. */
  ghost predicate Opened(s: State) {
    && s.q == Queue([], Waiting, s.base, [], []) && s.base < MAX_SEQUENCE
    && s.m == Memory(map[s.m.logfile := {}], None, s.m.logfile, map[s.m.logfile := LogFile([], 0)], {})
    && s.f.current == s.f.disk == Manifest(s.f.current.version, s.m.logfile)
    && s.f.current.version <= s.f.tables.Keys && s.f.pending == {} && s.f.horizon == 0
    && s.f.flushed == Tables(s.f) && UniqueNumbers(s.f.flushed)
    && (forall e :: e in s.f.flushed ==> e.sequence <= s.base)
    && s.v == Views([], map[])
    && (s.b == Worker(Idle, false, 0, false, false, false) || s.b == Worker(Called, true, 1, false, false, false))
    && s.m.logfile < s.nextFile && forall n :: n in s.f.tables ==> n < s.nextFile
  }

  ghost predicate Inv(s: State) {
    && Shape(s.q) && InOrder(s.q) && Scheduling(s.b, s.m.imm)
    && Numbering(s) && Placement(s)
    && Logged(s) && LogsOrdered(s.m) && Orphaned(s) && EditLog(s)
    && StorageOk(s) && ReadersOk(s) && AcksOk(s)
  }

  ghost predicate Runs(s: State, actions: seq<Action>, t: State)
    decreases |actions|
  {
    if actions == [] then t == s
    else Enabled(s, actions[0]) && Runs(Do(s, actions[0]), actions[1..], t)
  }

  /** What only grows: later entries and later answers carry later numbers. */
  ghost predicate Later(s: State, t: State) {
    && s.q.lastSequence <= t.q.lastSequence
    && History(s) <= History(t) && (forall e :: e in History(t) && e !in History(s) ==> e.sequence > s.q.lastSequence)
    && s.q.acks <= t.q.acks
    && (forall i, e :: |s.q.acks| <= i < |t.q.acks| && e in t.q.acks[i].entries ==> e.sequence > s.q.lastSequence)
  }

  // ---------- every step keeps the invariants ----------

  lemma OpenedInv(s: State)
    requires Opened(s)
    ensures Inv(s)
  {
    OpenedEmpty(s);
    OpenedMemory(s);
    OpenedQueue(s);
    hide Opened, Numbering, Placement, Logged, LogsOrdered, Orphaned, EditLog, Shape, InOrder, Scheduling, AcksOk, ReadersOk, StorageOk;
    OpenedStorage(s);
  }

  lemma OpenedEmpty(s: State)
    requires Opened(s)
    ensures Mem(s.m) == {} && Imm(s.m) == {} && History(s) == s.f.flushed
    ensures LogSet(s.m.logs[s.m.logfile]) == {}
  {
    hide UniqueNumbers, Union;
  }

  lemma OpenedMemory(s: State)
    requires Opened(s) && Mem(s.m) == {} && Imm(s.m) == {} && History(s) == s.f.flushed && LogSet(s.m.logs[s.m.logfile]) == {}
    ensures Numbering(s) && Placement(s) && Logged(s) && LogsOrdered(s.m) && Orphaned(s) && EditLog(s)
  {
    hide Union;
  }

  lemma OpenedQueue(s: State)
    requires Opened(s)
    ensures Shape(s.q) && InOrder(s.q) && Scheduling(s.b, s.m.imm) && AcksOk(s) && ReadersOk(s)
  {
    hide UniqueNumbers, Union, Mem, Imm, History;
  }

  lemma OpenedStorage(s: State)
    requires Opened(s)
    ensures StorageOk(s)
  {
    hide UniqueNumbers, Union, Mem, Imm, History, MergeInput, MergeOutput;
  }

  lemma QueueKeepsInv(s: State, a: QueueStep)
    requires Inv(s) && QueueEnabled(s, a)
    ensures Inv(DoQueue(s, a))
  {
    hide Shape, InOrder, Scheduling, Numbering, Placement, Logged, LogsOrdered, Orphaned, EditLog, StorageOk,
         ReadersOk, AcksOk, DoQueue, QueueEnabled;
    KeepsShape(s, a);
    KeepsOrder(s, a);
    QueueKeepsScheduling(s, a);
    QueueKeepsMemory(s, a);
    QueueKeepsLogs(s, a);
    QueueKeepsLogOrder(s, a);
    QueueKeepsOrphans(s, a);
    QueueKeepsEditLog(s, a);
    QueueKeepsStorage(s, a);
    QueueKeepsReaders(s, a);
    QueueKeepsAcks(s, a);
  }

  lemma ViewKeepsInv(s: State, a: ViewStep)
    requires Inv(s) && ViewEnabled(s, a)
    ensures Inv(DoView(s, a)) && DoView(s, a).q == s.q && History(DoView(s, a)) == History(s)
  {
    ViewFrame(s, a);
    hide Shape, InOrder, Scheduling, Numbering, Placement, StorageOk, ReadersOk, AcksOk, DoView, ViewEnabled;
    ViewKeepsScheduling(s, a);
    ViewKeepsMemory(s, a);
    ViewKeepsStorage(s, a);
    ViewKeepsReaders(s, a);
    ViewKeepsAcks(s, a);
  }

  lemma ViewFrame(s: State, a: ViewStep)
    requires ViewEnabled(s, a)
    ensures var t := DoView(s, a); t.q == s.q && t.m == s.m && t.f == s.f && t.nextFile == s.nextFile && t.base == s.base
    ensures Logged(s) ==> Logged(DoView(s, a))
    ensures Orphaned(s) && Scheduling(s.b, s.m.imm) ==> Orphaned(DoView(s, a))
    ensures EditLog(s) && Scheduling(s.b, s.m.imm) ==> EditLog(DoView(s, a))
    ensures History(DoView(s, a)) == History(s)
  {
    hide LogOk, LogEntries;
  }

  lemma WorkKeepsInv(s: State, a: WorkStep)
    requires Inv(s) && WorkEnabled(s, a)
    ensures Inv(DoWork(s, a)) && DoWork(s, a).q == s.q && History(DoWork(s, a)) == History(s)
  {
    hide Shape, InOrder, Scheduling, Numbering, Placement, Logged, LogsOrdered, Orphaned, EditLog, StorageOk,
         ReadersOk, AcksOk, DoWork, WorkEnabled;
    WorkFrame(s, a);
    WorkKeepsScheduling(s, a);
    WorkKeepsMemory(s, a);
    WorkKeepsLogs(s, a);
    WorkKeepsLogOrder(s, a);
    WorkKeepsOrphans(s, a);
    WorkKeepsEditLog(s, a);
    WorkKeepsStorage(s, a);
    WorkKeepsReaders(s, a);
    WorkKeepsAcks(s, a);
  }

  // What the lemma below needs of the invariant.
  lemma FinishFacts(s: State)
    requires Inv(s)
    ensures Shape(s.q) && Adjacent(s.base, s.q.acks, s.q.lastSequence) && s.base <= s.q.lastSequence
  {
    hide Shape, Adjacent, InOrder, Scheduling, Placement, Logged, LogsOrdered, Orphaned, EditLog, StorageOk, ReadersOk,
         AllOrNothing, Kept, Divides, Layers, UniqueNumbers, Bounded;
  }

  lemma FinishIsLater(s: State)
    requires Inv(s) && QueueEnabled(s, Finish)
    ensures Later(s, DoQueue(s, Finish))
  {
    FinishFacts(s);
    hide Inv, DoQueue, QueueEnabled, History, Entries, Shape, Adjacent;
    var answers := FinishAnswers(s);
    var t := DoQueue(s, Finish);
    FinishChanges(s);
    forall i, e | |s.q.acks| <= i < |t.q.acks| && e in t.q.acks[i].entries ensures e.sequence > s.q.lastSequence {
      assert t.q.acks[i] in answers;
      InEntries(t.q.acks[i].entries, e);
      assert e in Entries(s.q.phase.entries);
      InEntries(s.q.phase.entries, e);
    }
  }

  lemma InEntries(es: seq<Entry>, e: Entry)
    ensures e in es <==> e in Entries(es)
  {
  }

  lemma QueueIsLater(s: State, a: QueueStep)
    requires Inv(s) && QueueEnabled(s, a)
    ensures Later(s, DoQueue(s, a))
  {
    hide GroupOps, Answers, AppendTo, MaybeSchedule, Numbered, Layers, UniqueNumbers, Bounded, Logged, Orphaned,
         StorageOk, ReadersOk, AcksOk, LogsOrdered, Scheduling, EditLog, InOrder;
    if a.Finish? {
      FinishIsLater(s);
    } else if a.InsertOne? {
      InsertKeeps(s);
      GroupIsUnique(s.q);
      assert s.q.phase.entries[s.q.phase.next] in s.q.phase.entries;
    } else {
      if a.LeadNull? || (a.LeadWrite? && a.switch) {
        SwitchMoves(s.m, s.nextFile);
      }
      assert History(DoQueue(s, a)) == History(s);
      if a.LeadFails? || a.LeadNull? {
        assert DoQueue(s, a).q.acks[|s.q.acks|].entries == [];
      }
      hide History;
    }
  }

  lemma StepKeeps(s: State, a: Action)
    requires Inv(s) && Enabled(s, a)
    ensures Inv(Do(s, a)) && Later(s, Do(s, a))
  {
    hide Inv, DoQueue, DoView, DoWork, QueueEnabled, ViewEnabled, WorkEnabled, History;
    match a {
      case OfQueue(step) => QueueKeepsInv(s, step); QueueIsLater(s, step);
      case OfView(step) => ViewKeepsInv(s, step);
      case OfWork(step) => WorkKeepsInv(s, step);
    }
  }

  lemma LaterTransitive(s: State, t: State, u: State)
    requires Later(s, t) && Later(t, u)
    ensures Later(s, u)
  {
    hide History;
  }

  lemma {:induction false} RunKeeps(s: State, actions: seq<Action>, t: State)
    requires Inv(s) && Runs(s, actions, t)
    ensures Inv(t) && Later(s, t)
    decreases |actions|
  {
    hide Inv, Do, History, Enabled;
    if actions != [] {
      var u := Do(s, actions[0]);
      StepKeeps(s, actions[0]);
      RunKeeps(u, actions[1..], t);
      LaterTransitive(s, u, t);
    }
  }
}
