/** What the database promises its callers, in every state that a run can reach. */
module DatabaseGuarantees {
  import opened Keys
  import opened Database
  import opened DatabaseQueue
  import opened DatabaseMemory
  import opened DatabaseStorage
  import opened DatabaseReaders
  import opened DatabaseAcks
  import opened DatabaseRuns

  ghost predicate Reachable(s: State) {
    exists start, actions :: Opened(start) && Runs(start, actions, s)
  }

  lemma ReachableInv(s: State)
    requires Reachable(s)
    ensures Inv(s)
  {
    hide Inv, Runs, Opened;
    var start, actions :| Opened(start) && Runs(start, actions, s);
    OpenedInv(start);
    RunKeeps(start, actions, s);
  }

  lemma ReachableLater(s: State, actions: seq<Action>, t: State)
    requires Reachable(s) && Runs(s, actions, t)
    ensures Inv(s) && Inv(t) && Later(s, t)
  {
    hide Inv, Runs, Reachable, Later;
    ReachableInv(s);
    RunKeeps(s, actions, t);
  }

  // What the lemmas below need of the invariant.
  lemma InvFacts(s: State)
    requires Inv(s)
    ensures UniqueNumbers(History(s)) && AllOrNothing(s.q.acks, History(s)) && Shape(s.q)
    ensures forall a, e :: a in s.q.acks && e in a.entries ==> e.sequence <= s.q.lastSequence
  {
    hide AllOrNothing, UniqueNumbers, Shape, InOrder, Placement, Logged, StorageOk, ReadersOk, Orphaned, EditLog,
         Scheduling, LogsOrdered, Adjacent, Layers, Bounded;
    AdjacentBelow(s.base, s.q.acks, s.q.lastSequence);
  }

  // ---------- reads ----------

  /** The memtables and the tables of the version, each read as a set, answer with the newest entry that
      was ever inserted and is not newer than the snapshot, in runs whose compactions met MergeInput. What
      Get makes of the version, level by level, is in DatabaseGets. */
  lemma LayersReadHistory(s: State, k: UserKey, p: nat)
    requires Reachable(s) && (p == s.q.lastSequence || p in s.v.snapshots)
    ensures LayeredGet(Mem(s.m), Imm(s.m), Tables(s.f), k, p) == Read(History(s), k, p)
  {
    ReachableInv(s);
    var snapshot := if p == s.q.lastSequence then None else Some(p);
    CaptureOk(s, snapshot);
    CapturedGet(s, Capture(s, snapshot), k);
  }

  /** So does a reader that captured its memtables and version earlier, and lost the mutex since. */
  lemma CapturedLayersRead(s: State, id: nat, k: UserKey)
    requires Reachable(s) && id in s.v.readers
    ensures var r := s.v.readers[id];
      LayeredGet(CapturedMem(s.m, r), CapturedImm(s.m, r), CapturedTables(s.f, r), k, r.snapshot) == Read(History(s), k, r.snapshot)
  {
    ReachableInv(s);
    CapturedGet(s, s.v.readers[id], k);
  }

  lemma CapturedGet(s: State, r: Reader, k: UserKey)
    requires Inv(s) && ReaderOk(s, r)
    ensures LayeredGet(CapturedMem(s.m, r), CapturedImm(s.m, r), CapturedTables(s.f, r), k, r.snapshot) == Read(History(s), k, r.snapshot)
  {
    hide LayeredGet, Read;
    LayeredGetIsRead(CapturedMem(s.m, r), CapturedImm(s.m, r), CapturedTables(s.f, r), k, r.snapshot);
  }

  // ---------- a reader that looks at its layers one after another ----------

  /** A run during which the reader is not finished. */
  ghost predicate HeldRun(s: State, actions: seq<Action>, t: State, id: nat)
    decreases |actions|
  {
    && id in s.v.readers
    && if actions == [] then t == s else Enabled(s, actions[0]) && HeldRun(Do(s, actions[0]), actions[1..], t, id)
  }

  /** What it captured meanwhile: its memtable gains entries it does not see, the rest stays. */
  ghost predicate StillCaptured(s: State, t: State, id: nat) {
    && id in s.v.readers && id in t.v.readers && t.v.readers[id] == s.v.readers[id]
    && var r := s.v.readers[id];
       && CapturedTables(t.f, r) == CapturedTables(s.f, r) && CapturedImm(t.m, r) == CapturedImm(s.m, r)
       && CapturedMem(s.m, r) <= CapturedMem(t.m, r)
       && forall e :: e in CapturedMem(t.m, r) && e !in CapturedMem(s.m, r) ==> e.sequence > r.snapshot
  }

  lemma QueueKeepsCaptured(s: State, a: QueueStep, id: nat)
    requires Inv(s) && QueueEnabled(s, a) && id in s.v.readers
    ensures StillCaptured(s, DoQueue(s, a), id)
  {
    hide GroupOps, Answers, AppendTo, MaybeSchedule, Numbered, Layers, UniqueNumbers, Bounded, Read, StorageOk, Logged,
         Orphaned, AcksOk, LogsOrdered, Scheduling, EditLog, InOrder, Union, History;
    var r := s.v.readers[id];
    assert ReaderOk(s, r);
    if a.InsertOne? {
      GroupIsUnique(s.q);
      assert s.q.phase.entries[s.q.phase.next] in s.q.phase.entries;
    }
  }

  lemma ViewKeepsCaptured(s: State, a: ViewStep, id: nat)
    requires ViewEnabled(s, a) && id in s.v.readers && id in DoView(s, a).v.readers
    ensures StillCaptured(s, DoView(s, a), id)
  {
    hide MaybeSchedule, Union;
  }

  lemma WorkKeepsCaptured(s: State, a: WorkStep, id: nat)
    requires Inv(s) && WorkEnabled(s, a) && id in s.v.readers
    ensures StillCaptured(s, DoWork(s, a), id)
  {
    hide DoWork, WorkEnabled, StorageOk, Numbering, Placement, Scheduling, Logged, Orphaned, EditLog, AcksOk, ReadersOk,
         InOrder, Shape, LogsOrdered, History, Union;
    WorkFrame(s, a);
    WorkKeepsMemory(s, a);
    WorkKeepsVersion(s, a, id);
  }

  lemma {:induction false} HeldRunKeeps(s: State, actions: seq<Action>, t: State, id: nat)
    requires Inv(s) && HeldRun(s, actions, t, id)
    ensures Inv(t) && StillCaptured(s, t, id)
    decreases |actions|
  {
    hide Inv, DoQueue, DoView, DoWork, QueueEnabled, ViewEnabled, WorkEnabled, CapturedMem, CapturedImm, CapturedTables;
    if actions != [] {
      var u := Do(s, actions[0]);
      StepKeeps(s, actions[0]);
      match actions[0] {
        case OfQueue(step) => QueueKeepsCaptured(s, step, id);
        case OfView(step) => ViewKeepsCaptured(s, step, id);
        case OfWork(step) => WorkKeepsCaptured(s, step, id);
      }
      HeldRunKeeps(u, actions[1..], t, id);
    }
  }

  lemma NewestIgnoresLater(db: set<Entry>, more: set<Entry>, k: UserKey, p: nat)
    requires db <= more && Distinct(more) && forall e :: e in more && e !in db ==> e.sequence > p
    ensures Newest(db, k, p) == Newest(more, k, p)
  {
    if e :| e in db && Visible(e, k, p) {
      NewestExists(db, k, p, e);
      var n :| IsNewest(db, k, p, n);
      assert IsNewest(more, k, p, n);
      NewestIs(db, k, p, n);
      NewestIs(more, k, p, n);
    } else {
      NewestIsNone(db, k, p);
      NewestIsNone(more, k, p);
    }
  }

  lemma CapturedMemDistinct(s: State, id: nat)
    requires Inv(s) && id in s.v.readers
    ensures Distinct(CapturedMem(s.m, s.v.readers[id]))
  {
    hide StorageOk, Logged, Orphaned, AcksOk, LogsOrdered, Scheduling, EditLog, InOrder, Shape, Read, Layers, Bounded,
         Union, History;
    assert ReaderOk(s, s.v.readers[id]);
  }

  /** A Get does not look at its three layers at once: it takes mem_, imm_ and the version in turn,
      without the mutex, while everyone else goes on. It answers all the same as if it had looked at
      once. */
  lemma LayersReadAcross(s: State, a1: seq<Action>, t1: State, a2: seq<Action>, t2: State, a3: seq<Action>, t3: State,
                          id: nat, k: UserKey)
    requires Reachable(s) && HeldRun(s, a1, t1, id) && HeldRun(t1, a2, t2, id) && HeldRun(t2, a3, t3, id)
    ensures id in s.v.readers
    ensures var r := s.v.readers[id];
      LayeredGet(CapturedMem(t1.m, r), CapturedImm(t2.m, r), CapturedTables(t3.f, r), k, r.snapshot) == Read(History(t3), k, r.snapshot)
  {
    hide Inv, Reachable, HeldRun, CapturedMem, CapturedImm, CapturedTables, History, Read, Newest;
    ReachableInv(s);
    HeldRunKeeps(s, a1, t1, id);
    HeldRunKeeps(t1, a2, t2, id);
    HeldRunKeeps(t2, a3, t3, id);
    var r := s.v.readers[id];
    CapturedMemDistinct(t3, id);
    NewestIgnoresLater(CapturedMem(t1.m, r), CapturedMem(t3.m, r), k, r.snapshot);
    HeldReads(t3, id, k);
  }

  lemma HeldReads(s: State, id: nat, k: UserKey)
    requires Inv(s) && id in s.v.readers
    ensures var r := s.v.readers[id];
      LayeredGet(CapturedMem(s.m, r), CapturedImm(s.m, r), CapturedTables(s.f, r), k, r.snapshot) == Read(History(s), k, r.snapshot)
  {
    CapturedGet(s, s.v.readers[id], k);
  }

  /** What is read at a number that has been reached never changes again. */
  lemma ReadsNeverChange(s: State, actions: seq<Action>, t: State, k: UserKey, p: nat)
    requires Reachable(s) && Runs(s, actions, t) && p <= s.q.lastSequence
    ensures Read(History(t), k, p) == Read(History(s), k, p)
  {
    hide Read, Runs, Reachable, Inv, History, AllOrNothing;
    ReachableLater(s, actions, t);
    InvFacts(t);
    var later := History(t) - History(s);
    assert History(s) + later == History(t);
    ReadIgnoresLater(History(s), later, k, p);
  }

  lemma {:induction false} RunsOn(s: State, actions: seq<Action>, t: State, more: seq<Action>, u: State)
    requires Runs(s, actions, t) && Runs(t, more, u)
    ensures Runs(s, actions + more, u)
    decreases |actions|
  {
    hide Do, Enabled;
    if actions == [] {
      assert actions + more == more;
    } else {
      RunsOn(Do(s, actions[0]), actions[1..], t, more, u);
      assert (actions + more)[1..] == actions[1..] + more;
    }
  }

  lemma ReachableOn(s: State, actions: seq<Action>, t: State)
    requires Reachable(s) && Runs(s, actions, t)
    ensures Reachable(t)
  {
    hide Runs, Opened;
    var start, before :| Opened(start) && Runs(start, before, s);
    RunsOn(start, before, s, actions, t);
  }

  // ---------- batches ----------

  lemma {:induction false} AdjacentOrdered(base: nat, acks: seq<Ack>, last: nat)
    requires Adjacent(base, acks, last)
    ensures forall i, j, e, f :: 0 <= i < j < |acks| && e in acks[i].entries && f in acks[j].entries ==> e.sequence < f.sequence
    decreases |acks|
  {
    if acks != [] {
      var n := |acks| - 1;
      var last' := last - |acks[n].entries|;
      AdjacentOrdered(base, acks[..n], last');
      AdjacentBelow(base, acks[..n], last');
      hide Adjacent;
      forall i, j, e, f | 0 <= i < j < |acks| && e in acks[i].entries && f in acks[j].entries ensures e.sequence < f.sequence {
        assert acks[i] == acks[..n][i];
        if j < n {
          assert acks[j] == acks[..n][j];
        }
      }
    }
  }

  /** The entries are the batch's operations, in order, under numbers without gaps. */
  ghost predicate Spells(entries: seq<Entry>, ops: seq<Op>) {
    && |entries| == |ops|
    && forall i :: 0 <= i < |ops| ==>
         && Op(entries[i].key, entries[i].kind, entries[i].value) == ops[i]
         && entries[i].sequence == entries[0].sequence + i
  }

  lemma {:induction false} AdjacentSpells(base: nat, acks: seq<Ack>, last: nat, a: Ack)
    requires Adjacent(base, acks, last) && a in acks && (a.ok || a.entries != [])
    ensures Spells(a.entries, OpsOf(a.writer))
    decreases |acks|
  {
    var n := |acks| - 1;
    if a != acks[n] {
      AdjacentSpells(base, acks[..n], last - |acks[n].entries|, a);
    }
  }

  /** Writers are answered once each, in the order in which they came; a batch's entries are
      numbered without gaps, and a later batch's numbers are larger. */
  lemma AnsweredInOrder(s: State)
    requires Reachable(s)
    ensures s.q.arrivals == AckIds(s.q.acks) + Ids(s.q.writers)
    ensures forall i, j :: 0 <= i < j < |s.q.arrivals| ==> s.q.arrivals[i] != s.q.arrivals[j]
    ensures forall i, j, e, f :: 0 <= i < j < |s.q.acks| && e in s.q.acks[i].entries && f in s.q.acks[j].entries ==> e.sequence < f.sequence
    ensures forall a :: a in s.q.acks && (a.ok || a.entries != []) ==> Spells(a.entries, OpsOf(a.writer))
  {
    ReachableInv(s);
    AdjacentOrdered(s.base, s.q.acks, s.q.lastSequence);
    hide Adjacent, Spells, Numbering, Placement, Logged, StorageOk, ReadersOk, Orphaned, EditLog, Scheduling, Shape,
         LogsOrdered;
    forall a | a in s.q.acks && (a.ok || a.entries != []) ensures Spells(a.entries, OpsOf(a.writer)) {
      AdjacentSpells(s.base, s.q.acks, s.q.lastSequence, a);
    }
  }

  /** A batch as a reader at p finds it: its entries that were inserted and are not too new. */
  function SeenOf(entries: seq<Entry>, db: set<Entry>, p: nat): set<Entry> {
    set e | e in entries && e in db && e.sequence <= p
  }

  lemma SeenWholly(a: Ack, db: set<Entry>, p: nat, acks: seq<Ack>)
    requires AllOrNothing(acks, db) && a in acks && forall e :: e in a.entries ==> e.sequence <= p
    ensures SeenOf(a.entries, db, p) == if a.ok then Entries(a.entries) else {}
  {
  }

  /** A reader at a number that was once the last one sees all of a batch or none of it, at any later
      time, whether the batch is done or still being inserted. */
  lemma BatchesAreAtomic(s: State, actions: seq<Action>, t: State)
    requires Reachable(s) && Runs(s, actions, t)
    ensures forall a :: a in t.q.acks ==>
      var seen := SeenOf(a.entries, History(t), s.q.lastSequence); seen == {} || seen == Entries(a.entries)
    ensures !t.q.phase.Waiting? ==> SeenOf(t.q.phase.entries, History(t), s.q.lastSequence) == {}
  {
    hide Runs, Reachable, Inv, History, UniqueNumbers, Shape, AllOrNothing;
    ReachableLater(s, actions, t);
    InvFacts(s);
    InvFacts(t);
    forall a | a in t.q.acks
      ensures var seen := SeenOf(a.entries, History(t), s.q.lastSequence); seen == {} || seen == Entries(a.entries)
    {
      var i :| 0 <= i < |t.q.acks| && t.q.acks[i] == a;
      if i < |s.q.acks| {
        assert s.q.acks[i] == a;
        SeenWholly(a, History(t), s.q.lastSequence, t.q.acks);
      }
    }
    if !t.q.phase.Waiting? {
      GroupIsUnique(t.q);
    }
  }

  /** A batch that was answered OK is in the history from then on, wholly; one that failed, never. */
  lemma AnswersAreFinal(s: State, actions: seq<Action>, t: State)
    requires Reachable(s) && Runs(s, actions, t)
    ensures s.q.acks <= t.q.acks
    ensures forall a :: a in s.q.acks ==> if a.ok then Entries(a.entries) <= History(t) else Entries(a.entries) !! History(t)
  {
    hide Runs, Reachable, Inv, History, UniqueNumbers, Shape, Entries;
    ReachableLater(s, actions, t);
    InvFacts(t);
    forall a | a in s.q.acks ensures a in t.q.acks {
      var i :| 0 <= i < |s.q.acks| && s.q.acks[i] == a;
      assert t.q.acks[i] == a;
    }
  }

  // ---------- logs ----------

  /** A batch that was answered OK is in a table, or in one record of a memtable's log; and a sync has
      covered that record, if its writer asked for one. */
  lemma OkMeansKept(s: State, a: Ack)
    requires Reachable(s) && a in s.q.acks && a.ok
    ensures Entries(a.entries) <= s.f.flushed || InRecord(a, s.m)
  {
    ReachableInv(s);
    hide Adjacent, InRecord, Numbering, Placement, Logged, StorageOk, ReadersOk, Orphaned, EditLog, Scheduling,
         Shape, LogsOrdered, InOrder;
  }

  /** What is in the memtables is in logs that the descriptor still asks for, in memory and on disk; and
      while a flush is on its way to the descriptor, the log number it carries is that of the memtable
      being filled, because there is no switch before it is done. */
  lemma MemtablesAreLogged(s: State)
    requires Reachable(s)
    ensures s.m.logfile in s.m.logs && s.m.logfile >= s.f.current.logNumber && Mem(s.m) <= LogSet(s.m.logs[s.m.logfile])
    ensures s.m.imm.Some? ==>
      var n := s.m.imm.value; n in s.m.logs && n >= s.f.current.logNumber && Imm(s.m) == LogSet(s.m.logs[n])
    ensures s.b.bg.Running? && (s.b.bg.job.Installing? || s.b.bg.job.Written?) && s.b.bg.job.flush ==>
      s.b.bg.job.edit.logNumber == s.m.logfile && s.m.imm.Some?
  {
    ReachableInv(s);
    hide Adjacent, Numbering, Placement, StorageOk, ReadersOk, Orphaned, Shape, LogsOrdered, InOrder, AcksOk,
         LogEntries, LogOk, Mem, Imm, Unapplied;
  }

  // ---------- background work and snapshots ----------

  /** At most one background call is outstanding; and while a memtable waits to be flushed, or a
      manual compaction to be served, one is, unless the database has failed or shuts down. */
  lemma WaitersHaveAWaker(s: State)
    requires Reachable(s)
    ensures s.b.outstanding <= 1
    ensures (s.m.imm.Some? || s.b.manual) && !s.b.bgError && !s.b.shuttingDown ==>
      s.b.outstanding == 1 && s.b.scheduled && (s.b.bg.Called? || s.b.bg.Running?)
  {
    ReachableInv(s);
    hide InOrder, Numbering, Placement, Logged, StorageOk, ReadersOk, Orphaned, EditLog, AcksOk, Shape;
  }

  /** A compaction begins with the largest bound that leaves out no one: the least of the snapshots that are
      held, or the last number when there is none. */
  lemma BoundIsLeast(s: State, m: Merge)
    requires Reachable(s) && WorkEnabled(s, BgMerge(m))
    ensures forall p :: p in s.v.snapshots + [s.q.lastSequence] ==> m.smallest <= p
    ensures if s.v.snapshots == [] then m.smallest == s.q.lastSequence else m.smallest in s.v.snapshots
  {
    forall p | p in s.v.snapshots + [s.q.lastSequence] ensures m.smallest <= p {
      SnapshotsAboveBound(s, p);
    }
    hide Reachable;
  }

  /** Releasing a snapshot takes out that one, and one only. */
  lemma ReleaseTakesOne(s: State, i: nat)
    requires i < |s.v.snapshots|
    ensures multiset(DoView(s, ReleaseSnapshot(i)).v.snapshots) + multiset{s.v.snapshots[i]} == multiset(s.v.snapshots)
  {
    assert s.v.snapshots == s.v.snapshots[..i] + ([s.v.snapshots[i]] + s.v.snapshots[i + 1..]);
  }

  predicate Switches(a: QueueStep) {
    a.LeadNull? || (a.LeadWrite? && a.switch)
  }

  /** A write without a batch, and one that finds the memtable full, moves all of the memtable to where the
      worker will flush it, and wakes the worker. */
  lemma SwitchEmptiesMemtable(s: State, a: QueueStep)
    requires Reachable(s) && QueueEnabled(s, a) && Shape(s.q) && Switches(a)
    ensures var t := DoQueue(s, a);
      && Mem(t.m) == {} && Imm(t.m) == Mem(s.m) && t.m.imm.Some? && History(t) == History(s)
      && (!s.b.shuttingDown ==> t.b.scheduled)
  {
    ReachableInv(s);
    hide Reachable, AcksOk, ReadersOk, StorageOk, Logged, Orphaned, EditLog, Scheduling, InOrder, LogsOrdered, Layers, UniqueNumbers, Bounded,
         GroupOps, Numbered;
    SwitchMoves(s.m, s.nextFile);
  }

  /** A table that somebody may still need: of the current version, of a reader, under way, or of the version
      that a compaction in the background began with. */
  ghost predicate Needed(s: State, n: nat) {
    || n in s.f.current.version || n in s.f.pending
    || (exists r :: r in s.v.readers && n in s.v.readers[r].version)
    || (s.b.bg.Running? && s.b.bg.merge.Some? && n in s.b.bg.merge.value.base)
  }

  /** With a new version everything obsolete is deleted: what is left of tables is needed, and no log is left
      that the descriptor does not ask for. After an error nothing is deleted. */
  lemma ObsoleteIsDeleted(s: State, a: WorkStep)
    requires WorkEnabled(s, a) && (a.InstallFlush? || a.InstallMerge?) && s.b.bg.job.ok
    ensures var t := DoWork(s, a);
      if s.b.bgError then t.f.tables == s.f.tables && t.m.logs == s.m.logs
      else
        && (forall n :: n in t.f.tables ==> Needed(t, n))
        && (forall n :: n in t.m.logs ==> n >= t.f.current.logNumber)
  {
    hide MergeInput, MergeOutput, Imm;
  }

  predicate Serves(s: State, a: WorkStep) {
    || (a.BgNothing? && !s.b.shuttingDown && !s.b.bgError)
    || ((a.MergeAbort? || a.InstallMerge?) && s.b.bg.Running? && s.b.bg.merge.Some? && s.b.bg.merge.value.isManual)
  }

  /** A manual request stands until the worker has served it, or found nothing to do, or its caller gives up. */
  lemma ManualStandsUntilServed(s: State, a: Action)
    requires Enabled(s, a)
    ensures a.OfView? && a.view.RequestManual? ==> Do(s, a).b.manual
    ensures a.OfWork? && Serves(s, a.work) ==> !Do(s, a).b.manual
    ensures s.b.manual && !Do(s, a).b.manual ==> (a.OfWork? && Serves(s, a.work)) || a == OfView(CancelManual)
  {
    hide GroupOps, Answers, AppendTo, Numbered, Insert, SyncMemory, Live, MergeInput, MergeOutput, Shape, Union, Imm;
  }

  /** Every snapshot that is held, or could be taken now, is at least the smallest_snapshot of every
      compaction so far; and the oldest in the list is the smallest. */
  lemma SnapshotsAboveBound(s: State, p: nat)
    requires Reachable(s) && (p == s.q.lastSequence || p in s.v.snapshots)
    ensures s.f.horizon <= p && SmallestSnapshot(s) <= p
    ensures s.b.bg.Running? && s.b.bg.merge.Some? ==> s.b.bg.merge.value.smallest <= p
  {
    ReachableInv(s);
    hide InOrder, Numbering, Placement, Logged, ReadersOk, Orphaned, EditLog, AcksOk, Shape, Scheduling,
         VersionReads, FilesExist, DiskOk, MergeInput, MergeOutput;
  }

  // ---------- failures ----------

  /** Writers whose group is under way, past the check for an error. */
  function Leading(q: Queue): nat {
    if q.phase.Waiting? then 0 else q.phase.count
  }

  /** A sync, a flush, a compaction or a descriptor write that fails. */
  predicate Fails(s: State, a: Action) {
    || (a == OfQueue(Finish) && s.q.phase.Failed? && s.q.phase.syncError)
    || (a.OfWork? && match a.work
        case FlushRelock(ok, _) => !ok
        case MergeAbort(_) => true
        case InstallFlush(_) => InstallFails(s.b.bg)
        case InstallMerge(_) => InstallFails(s.b.bg)
        case InstallMove(_) => InstallFails(s.b.bg)
        case _ => false)
  }

  predicate InstallFails(bg: Background) {
    bg.Running? && bg.job.Written? && !bg.job.ok
  }

  lemma FailureIsRecorded(s: State, a: Action)
    requires Enabled(s, a) && (Fails(s, a) || s.b.bgError)
    ensures Do(s, a).b.bgError
  {
    hide GroupOps, Answers, AppendTo, Numbered, Insert, SyncMemory, Live, MergeInput, MergeOutput, Shape, Union;
  }

  ghost predicate OnlyLeaders(q: Queue, r: Queue) {
    && q.acks <= r.acks && (forall i :: |q.acks| + Leading(q) <= i < |r.acks| ==> !r.acks[i].ok)
    && (Leading(r) > 0 ==> r.acks == q.acks && Leading(r) == Leading(q))
  }

  lemma QueueOnlyLeaders(s: State, a: QueueStep)
    requires QueueEnabled(s, a) && Shape(s.q) && s.b.bgError
    ensures OnlyLeaders(s.q, DoQueue(s, a).q)
  {
    hide GroupOps, Answers, AppendTo, MaybeSchedule, Numbered, Insert, SyncMemory;
  }

  lemma OnlyLeadersSucceed(s: State, a: Action)
    requires Inv(s) && Enabled(s, a) && s.b.bgError
    ensures OnlyLeaders(s.q, Do(s, a).q)
  {
    hide Inv, DoWork, DoQueue, MaybeSchedule;
    match a {
      case OfQueue(step) => QueueOnlyLeaders(s, step);
      case OfView(_) =>
      case OfWork(step) => WorkFrame(s, step);
    }
  }

  lemma {:induction false} ErrorStays(s: State, actions: seq<Action>, t: State)
    requires Inv(s) && s.b.bgError && Runs(s, actions, t)
    ensures t.b.bgError && s.q.acks <= t.q.acks
    ensures forall i :: |s.q.acks| + Leading(s.q) <= i < |t.q.acks| ==> !t.q.acks[i].ok
    decreases |actions|
  {
    hide Inv, Enabled, Do, Leading;
    if actions != [] {
      var u := Do(s, actions[0]);
      FailureIsRecorded(s, actions[0]);
      OnlyLeadersSucceed(s, actions[0]);
      StepKeeps(s, actions[0]);
      ErrorStays(u, actions[1..], t);
    }
  }

  /** After a failed sync, flush, compaction or descriptor write no writer is answered OK any more, except
      those whose group was under way. */
  lemma FailureStopsWrites(s: State, a: Action, actions: seq<Action>, t: State)
    requires Reachable(s) && Enabled(s, a) && Fails(s, a) && Runs(Do(s, a), actions, t)
    ensures t.b.bgError
    ensures forall i :: |s.q.acks| + Leading(s.q) <= i < |t.q.acks| ==> !t.q.acks[i].ok
  {
    hide Inv, Reachable, Enabled, Do, Fails, Runs;
    ReachableInv(s);
    FailureIsRecorded(s, a);
    StepKeeps(s, a);
    GroupAnswered(s, a);
    ErrorStays(Do(s, a), actions, t);
  }

  lemma GroupAnswered(s: State, a: Action)
    requires Enabled(s, a) && Fails(s, a)
    ensures |Do(s, a).q.acks| + Leading(Do(s, a).q) == |s.q.acks| + Leading(s.q)
  {
    if a.OfWork? {
      WorkFrame(s, a.work);
      hide DoWork;
    } else {
      hide GroupOps, Answers, Numbered;
    }
  }
}
