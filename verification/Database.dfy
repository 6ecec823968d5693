/** The database between two openings: writers, memtables, logs, tables, readers, snapshots and the
    background worker. Each action is one stretch of code that runs with the mutex held, or one
    step that runs without it. */
module Database {
  import opened Keys
  import opened Compaction

  // ---------- state ----------

  datatype Op = Op(key: UserKey, kind: ValueType, value: Value)

  /** A caller of Write; no batch stands for NULL. */
  datatype Writer = Writer(id: nat, batch: Option<seq<Op>>, sync: bool)

  /** A writer that has been told its status, with the entries its batch became and the append that
      wrote them. */
  datatype Ack = Ack(writer: Writer, ok: bool, entries: seq<Entry>, log: nat, index: nat)

  /** An append to a log: the group's entries, and the fragment of their record that could not be
      written, if it failed. */
  datatype LogWrite = LogWrite(record: seq<Entry>, lostAt: Option<nat>)

  /** A log: the appends to it, and how many of them a sync has covered. What its file holds and what a
      reader makes of that follows from the appends. */
  datatype LogFile = LogFile(writes: seq<LogWrite>, synced: nat)

  /** What the descriptor records: the table files, and the first log that is still needed. Their levels
      are added in DatabaseLevels. */
  datatype Manifest = Manifest(version: set<nat>, logNumber: nat)
  datatype Edit = Edit(added: set<nat>, deleted: set<nat>, logNumber: nat)

  /** How far the writer at the front of the queue has come. */
  datatype Phase =
    | Waiting
    | Logging(count: nat, entries: seq<Entry>)
    | Syncing(count: nat, entries: seq<Entry>)
    | Inserting(count: nat, entries: seq<Entry>, next: nat)
    | Failed(count: nat, entries: seq<Entry>, syncError: bool)

  /** A compaction of tables: its input files and entries, the files of the levels below its output, and
      its output files. */
  datatype Merge = Merge(inputs: set<nat>, input: seq<Entry>, levels: seq<seq<FileRange>>, smallest: nat,
                         base: set<nat>, outputs: set<nat>, isManual: bool)

  datatype Job =
    | Merging
    | Building(file: nat)
    | Built(file: nat, ok: bool)
    | Installing(edit: Edit, flush: bool)
    | Written(edit: Edit, flush: bool, ok: bool)
  {
    /** A merge is under way, perhaps interrupted by a flush. */
    predicate MergeOpen() {
      Merging? || Building? || Built? || ((Installing? || Written?) && flush)
    }
  }

  datatype Background =
    | Idle
    | Called
    | Running(job: Job, merge: Option<Merge>)
    | Stopped(edit: Edit, flush: bool, merge: Option<Merge>)

  /** A Get or an iterator: what it captured under the mutex. */
  datatype Reader = Reader(snapshot: nat, mem: nat, imm: Option<nat>, version: set<nat>)

  /** The write queue. */
  datatype Queue = Queue(
    writers: seq<Writer>,
    phase: Phase,
    lastSequence: nat,
    arrivals: seq<nat>,       // history: writers in the order they entered the queue
    acks: seq<Ack>)           // history: and in the order they were answered

  /** Memtables, by the number of their log; and the logs. */
  datatype Memory = Memory(
    memtables: map<nat, set<Entry>>,
    imm: Option<nat>,
    logfile: nat,
    logs: map<nat, LogFile>,
    orphans: set<Entry>)      // history: logged, but not inserted because the sync failed

  /** Tables and descriptor. */
  datatype Files = Files(
    tables: map<nat, set<Entry>>,
    current: Manifest,
    disk: Manifest,
    pending: set<nat>,
    flushed: set<Entry>,      // history: all that was ever in a table
    horizon: nat)             // history: the largest smallest_snapshot of a compaction

  datatype Views = Views(snapshots: seq<nat>, readers: map<nat, Reader>)

  /** Background work: scheduled is bg_compaction_scheduled_, outstanding counts the calls handed to
      env_->Schedule that have not returned. */
  datatype Worker = Worker(bg: Background, scheduled: bool, outstanding: nat, bgError: bool, shuttingDown: bool, manual: bool)

  /** nextFile is the next file number; base the last sequence number at opening. */
  datatype State = State(q: Queue, m: Memory, f: Files, v: Views, b: Worker, nextFile: nat, base: nat)

  function Lookup(m: map<nat, set<Entry>>, n: nat): set<Entry> {
    if n in m then m[n] else {}
  }

  ghost function Union(tables: map<nat, set<Entry>>, fs: set<nat>): set<Entry> {
    set f, e | f in fs && f in tables && e in tables[f] :: e
  }

  function Mem(m: Memory): set<Entry> {
    Lookup(m.memtables, m.logfile)
  }

  function Imm(m: Memory): set<Entry> {
    if m.imm.Some? then Lookup(m.memtables, m.imm.value) else {}
  }

  /** Everything that was ever inserted into a memtable. */
  function History(s: State): set<Entry> {
    s.f.flushed + Imm(s.m) + Mem(s.m)
  }

  ghost function Tables(f: Files): set<Entry> {
    Union(f.tables, f.current.version)
  }

  function ApplyEdit(m: Manifest, e: Edit): Manifest {
    Manifest(m.version - e.deleted + e.added, e.logNumber)
  }

  // ---------- groups ----------

  function Numbered(last: nat, ops: seq<Op>): (es: seq<Entry>)
    requires last + |ops| <= MAX_SEQUENCE
    ensures |es| == |ops|
    ensures forall i :: 0 <= i < |es| ==> es[i].sequence == last + 1 + i
  {
    seq(|ops|, i requires 0 <= i < |ops| => Entry(ops[i].key, last + 1 + i, ops[i].kind, ops[i].value))
  }

  function OpsOf(w: Writer): seq<Op> {
    if w.batch.Some? then w.batch.value else []
  }

  function GroupOps(ws: seq<Writer>): seq<Op> {
    if ws == [] then [] else GroupOps(ws[..|ws| - 1]) + OpsOf(ws[|ws| - 1])
  }

  function Ids(ws: seq<Writer>): seq<nat> {
    seq(|ws|, i requires 0 <= i < |ws| => ws[i].id)
  }

  function AckIds(acks: seq<Ack>): seq<nat> {
    seq(|acks|, i requires 0 <= i < |acks| => acks[i].writer.id)
  }

  /** The answers to the first writers of the queue, whose batches were numbered from last + 1. */
  function Answers(ws: seq<Writer>, ok: bool, last: nat, log: nat, index: nat): (acks: seq<Ack>)
    requires last + |GroupOps(ws)| <= MAX_SEQUENCE
    ensures |acks| == |ws|
  {
    if ws == [] then []
    else
      var n := |ws| - 1;
      Answers(ws[..n], ok, last, log, index)
      + [Ack(ws[n], ok, Numbered(last + |GroupOps(ws[..n])|, OpsOf(ws[n])), log, index)]
  }

  /** A writer that is not sync does not take sync writers along. */
  predicate MayLead(ws: seq<Writer>, count: nat) {
    && 0 < count <= |ws| && ws[0].batch.Some?
    && forall i :: 0 <= i < count && ws[i].sync ==> ws[0].sync
  }

  /** What every state offers the code that runs in it: a group under way leads the queue and is
      numbered after the last sequence number. */
  ghost predicate Shape(q: Queue) {
    !q.phase.Waiting? ==>
      && MayLead(q.writers, q.phase.count)
      && q.lastSequence + |GroupOps(q.writers[..q.phase.count])| < MAX_SEQUENCE
      && q.phase.entries == Numbered(q.lastSequence, GroupOps(q.writers[..q.phase.count]))
  }

  // ---------- the background worker's flags ----------

  /** MaybeScheduleCompaction; needs stands for versions_->NeedsCompaction(). */
  function MaybeSchedule(b: Worker, imm: Option<nat>, needs: bool): Worker {
    if b.scheduled || b.shuttingDown || b.bgError || (imm.None? && !b.manual && !needs) then b
    else b.(scheduled := true, outstanding := b.outstanding + 1, bg := Called)
  }

  /** The end of BackgroundCall. */
  function EndCall(b: Worker, imm: Option<nat>, needs: bool): Worker {
    MaybeSchedule(b.(bg := Idle, scheduled := false, outstanding := if b.outstanding > 0 then b.outstanding - 1 else 0), imm, needs)
  }

  // ---------- steps of writers ----------

  datatype QueueStep =
    | Enqueue(writer: Writer)
    | LeadFails
    | LeadNull(needs: bool)
    | LeadWrite(size: nat, switch: bool, needs: bool)
    | Append(lostAt: Option<nat>)
    | Sync(ok: bool)
    | InsertOne
    | Finish

  ghost predicate QueueEnabled(s: State, a: QueueStep) {
    var q := s.q;
    match a
    case Enqueue(w) => w.id !in q.arrivals
    // an earlier background error, or no new log could be created
    case LeadFails => q.phase.Waiting? && q.writers != [] && (s.b.bgError || s.m.imm.None?)
    case LeadNull(_) => q.phase.Waiting? && q.writers != [] && q.writers[0].batch.None? && !s.b.bgError && s.m.imm.None?
    case LeadWrite(size, switch, _) =>
      && q.phase.Waiting? && MayLead(q.writers, size) && !s.b.bgError && (switch ==> s.m.imm.None?)
      && q.lastSequence + |GroupOps(q.writers[..size])| < MAX_SEQUENCE
    case Append(_) => q.phase.Logging? && s.m.logfile in s.m.logs
    case Sync(_) => q.phase.Syncing? && s.m.logfile in s.m.logs
    case InsertOne => q.phase.Inserting? && q.phase.next < |q.phase.entries|
    case Finish => (q.phase.Failed? || (q.phase.Inserting? && q.phase.next == |q.phase.entries|)) && s.m.logfile in s.m.logs
  }

  /** The memtable switch in MakeRoomForWrite, to a new log. */
  function SwitchMemory(m: Memory, newLog: nat): Memory {
    m.(memtables := m.memtables[newLog := {}], imm := Some(m.logfile),
       logs := m.logs[newLog := LogFile([], 0)], logfile := newLog)
  }

  function Switch(s: State, needs: bool): State {
    var m := SwitchMemory(s.m, s.nextFile);
    s.(m := m, nextFile := s.nextFile + 1, b := MaybeSchedule(s.b, m.imm, needs))
  }

  function Pop(q: Queue, count: nat, acks: seq<Ack>): Queue
    requires count <= |q.writers|
  {
    q.(writers := q.writers[count..], acks := q.acks + acks, phase := Waiting)
  }

  function Lead(q: Queue, size: nat): Queue
    requires size <= |q.writers| && q.lastSequence + |GroupOps(q.writers[..size])| <= MAX_SEQUENCE
  {
    q.(phase := Logging(size, Numbered(q.lastSequence, GroupOps(q.writers[..size]))))
  }

  function AppendTo(l: LogFile, record: seq<Entry>, lostAt: Option<nat>): LogFile {
    l.(writes := l.writes + [LogWrite(record, lostAt)])
  }

  /** The entries that an append brought to the log. */
  function Reached(w: LogWrite): seq<Entry> {
    if w.lostAt.None? then w.record else []
  }

  function Appended(q: Queue, ok: bool): Queue
    requires q.phase.Logging? && q.writers != []
  {
    var p := q.phase;
    q.(phase := if !ok then Failed(p.count, p.entries, false)
                else if q.writers[0].sync then Syncing(p.count, p.entries)
                else Inserting(p.count, p.entries, 0))
  }

  function Synced(q: Queue, ok: bool): Queue
    requires q.phase.Syncing?
  {
    var p := q.phase;
    q.(phase := if ok then Inserting(p.count, p.entries, 0) else Failed(p.count, p.entries, true))
  }

  function SyncMemory(m: Memory, record: seq<Entry>, ok: bool): Memory
    requires m.logfile in m.logs
  {
    var l := m.logs[m.logfile];
    if ok then m.(logs := m.logs[m.logfile := l.(synced := |l.writes|)])
    else m.(orphans := m.orphans + Entries(record))
  }

  function Insert(m: Memory, e: Entry): Memory {
    m.(memtables := m.memtables[m.logfile := Mem(m) + {e}])
  }

  function Finished(q: Queue, log: nat, index: nat): Queue
    requires !q.phase.Waiting? && q.phase.count <= |q.writers|
    requires q.lastSequence + |GroupOps(q.writers[..q.phase.count])| <= MAX_SEQUENCE
  {
    var acks := Answers(q.writers[..q.phase.count], q.phase.Inserting?, q.lastSequence, log, index);
    Pop(q, q.phase.count, acks).(lastSequence := q.lastSequence + |q.phase.entries|)
  }

  function LastIndex(l: LogFile): nat {
    if l.writes == [] then 0 else |l.writes| - 1
  }

  ghost function DoQueue(s: State, a: QueueStep): State
    requires QueueEnabled(s, a) && Shape(s.q)
  {
    match a
    case Enqueue(w) => s.(q := s.q.(writers := s.q.writers + [w], arrivals := s.q.arrivals + [w.id]))
    case LeadFails => s.(q := Pop(s.q, 1, [Ack(s.q.writers[0], false, [], 0, 0)]))
    case LeadNull(needs) => Switch(s.(q := Pop(s.q, 1, [Ack(s.q.writers[0], true, [], 0, 0)])), needs)
    case LeadWrite(size, switch, needs) => (if switch then Switch(s, needs) else s).(q := Lead(s.q, size))
    case Append(lostAt) =>
      s.(q := Appended(s.q, lostAt.None?),
         m := s.m.(logs := s.m.logs[s.m.logfile := AppendTo(s.m.logs[s.m.logfile], s.q.phase.entries, lostAt)]))
    case Sync(ok) => s.(q := Synced(s.q, ok), m := SyncMemory(s.m, s.q.phase.entries, ok))
    case InsertOne =>
      s.(q := s.q.(phase := s.q.phase.(next := s.q.phase.next + 1)), m := Insert(s.m, s.q.phase.entries[s.q.phase.next]))
    case Finish =>
      s.(q := Finished(s.q, s.m.logfile, LastIndex(s.m.logs[s.m.logfile])),
         b := s.b.(bgError := s.b.bgError || (s.q.phase.Failed? && s.q.phase.syncError)))
  }

  // ---------- steps of readers and of the other callers ----------

  datatype ViewStep =
    | TakeSnapshot
    | ReleaseSnapshot(index: nat)
    | BeginRead(reader: nat, snapshot: Option<nat>)
    | EndRead(reader: nat, needs: bool)
    | RequestManual(needs: bool)
    | CancelManual
    | ShutDown

  ghost predicate ViewEnabled(s: State, a: ViewStep) {
    match a
    case TakeSnapshot => true
    case ReleaseSnapshot(i) => i < |s.v.snapshots|
    case BeginRead(r, snapshot) => r !in s.v.readers && (snapshot.Some? ==> snapshot.value in s.v.snapshots)
    case EndRead(r, _) => r in s.v.readers
    case RequestManual(_) => !s.b.manual
    case CancelManual => s.b.manual && (s.b.shuttingDown || s.b.bgError)
    case ShutDown => true
  }

  function Capture(s: State, snapshot: Option<nat>): Reader {
    Reader(if snapshot.Some? then snapshot.value else s.q.lastSequence, s.m.logfile, s.m.imm, s.f.current.version)
  }

  ghost function DoView(s: State, a: ViewStep): State
    requires ViewEnabled(s, a)
  {
    match a
    case TakeSnapshot => s.(v := s.v.(snapshots := s.v.snapshots + [s.q.lastSequence]))
    case ReleaseSnapshot(i) => s.(v := s.v.(snapshots := s.v.snapshots[..i] + s.v.snapshots[i + 1..]))
    case BeginRead(r, snapshot) => s.(v := s.v.(readers := s.v.readers[r := Capture(s, snapshot)]))
    case EndRead(r, needs) => s.(v := s.v.(readers := s.v.readers - {r}), b := MaybeSchedule(s.b, s.m.imm, needs))
    case RequestManual(needs) => s.(b := MaybeSchedule(s.b.(manual := true), s.m.imm, needs))
    case CancelManual => s.(b := s.b.(manual := false))
    case ShutDown => s.(b := s.b.(shuttingDown := true))
  }

  // ---------- steps of the background worker ----------

  datatype WorkStep =
    | BgNothing(needs: bool)
    | BgFlush
    | BgMerge(merge: Merge)
    | BgMove(file: nat)
    | FlushInMerge
    | BuildTable(ok: bool)
    | FlushRelock(ok: bool, needs: bool)
    | WriteManifest(ok: bool, persisted: bool)
    | InstallFlush(needs: bool)
    | MergeOpen
    | MergeWrite(file: nat, entries: set<Entry>)
    | MergeDone
    | MergeAbort(needs: bool)
    | InstallMerge(needs: bool)
    | InstallMove(needs: bool)

  function SmallestSnapshot(s: State): nat {
    if s.v.snapshots == [] then s.q.lastSequence else s.v.snapshots[0]
  }

  /** The input of a merge is the content of its files; what it leaves outside is not older, or is seen
      by the base level test. Levels.MergeInputIff says when the choice of files sees to that; the order
      of the levels needs more, which DatabaseLevels adds. */
  ghost predicate MergeInput(f: Files, m: Merge) {
    && m.inputs <= f.current.version
    && Entries(m.input) == Union(f.tables, m.inputs) && Sorted(m.input)
    && Separated(m.input, Union(f.tables, f.current.version - m.inputs), m.levels)
  }

  ghost predicate MergeOutput(f: Files, m: Merge) {
    Union(f.tables, m.outputs) == Entries(Keep(m.input, m.smallest, m.levels, |m.input|))
  }

  ghost predicate WorkEnabled(s: State, a: WorkStep) {
    var bg := s.b.bg;
    match a
    case BgNothing(_) => bg.Called? && (s.b.shuttingDown || s.b.bgError || s.m.imm.None?)
    case BgFlush => bg.Called? && !s.b.shuttingDown && !s.b.bgError && s.m.imm.Some?
    case BgMerge(m) =>
      && bg.Called? && !s.b.shuttingDown && !s.b.bgError && s.m.imm.None?
      && MergeInput(s.f, m) && m.base == s.f.current.version && m.outputs == {}
      && m.smallest == SmallestSnapshot(s) && m.isManual == s.b.manual
    case BgMove(file) =>
      bg.Called? && !s.b.shuttingDown && !s.b.bgError && s.m.imm.None? && !s.b.manual && file in s.f.current.version
    case FlushInMerge => bg.Running? && bg.job.Merging? && s.m.imm.Some?
    case BuildTable(_) => bg.Running? && bg.job.Building?
    case FlushRelock(ok, _) => bg.Running? && bg.job.Built? && (ok ==> bg.job.ok)
    case WriteManifest(_, _) => bg.Running? && bg.job.Installing?
    case InstallFlush(_) => bg.Running? && bg.job.Written? && bg.job.flush
    case MergeOpen => bg.Running? && bg.job.Merging? && bg.merge.Some?
    case MergeWrite(f, es) => bg.Running? && bg.job.Merging? && bg.merge.Some? && f in bg.merge.value.outputs
    case MergeDone => bg.Running? && bg.job.Merging? && bg.merge.Some? && MergeOutput(s.f, bg.merge.value)
    case MergeAbort(_) => bg.Running? && bg.job.Merging? && bg.merge.Some?
    case InstallMerge(_) => bg.Running? && bg.job.Written? && !bg.job.flush && bg.merge.Some?
    case InstallMove(_) => bg.Running? && bg.job.Written? && !bg.job.flush && bg.merge.None?
  }

  function BeginFlush(s: State, merge: Option<Merge>): State {
    s.(b := s.b.(bg := Running(Building(s.nextFile), merge)), f := s.f.(pending := s.f.pending + {s.nextFile}), nextFile := s.nextFile + 1)
  }

  function SetJob(b: Worker, job: Job): Worker
    requires b.bg.Running?
  {
    b.(bg := Running(job, b.bg.merge))
  }

  /** After a flush: on with the merge it interrupted, or done. */
  function AfterFlush(b: Worker, imm: Option<nat>, needs: bool): Worker
    requires b.bg.Running?
  {
    if b.bg.merge.Some? then SetJob(b, Merging) else EndCall(b, imm, needs)
  }

  /** A failed descriptor write: nobody knows whether it was persisted; the worker stops. */
  function Halt(b: Worker): Worker
    requires b.bg.Running? && b.bg.job.Written?
  {
    b.(bg := Stopped(b.bg.job.edit, b.bg.job.flush, b.bg.merge), bgError := true, scheduled := false,
       outstanding := if b.outstanding > 0 then b.outstanding - 1 else 0)
  }

  function FlushEdit(m: Memory, file: nat): Edit {
    Edit(if Imm(m) == {} then {} else {file}, {}, m.logfile)
  }

  function MergeEdit(f: Files, m: Merge): Edit {
    Edit(m.outputs, m.inputs, f.current.logNumber)
  }

  /** A file that is moved to the next level as it is: deleted there, added here. */
  function MoveEdit(f: Files, file: nat): Edit {
    Edit({file}, {file}, f.current.logNumber)
  }

  /** The files DeleteObsoleteFiles must keep, and what it does to tables and logs. */
  ghost function Live(f: Files, v: Views, held: set<nat>): set<nat> {
    f.pending + f.current.version + held + (set r, n | r in v.readers && n in v.readers[r].version :: n)
  }

  ghost function Collected(f: Files, v: Views, held: set<nat>): Files {
    var live := Live(f, v, held);
    f.(tables := map n | n in f.tables && n in live :: f.tables[n])
  }

  function CollectedLogs(m: Memory, logNumber: nat): Memory {
    m.(logs := map n | n in m.logs && n >= logNumber :: m.logs[n])
  }

  ghost function DeleteObsoleteFiles(s: State, held: set<nat>): State {
    if s.b.bgError then s
    else s.(f := Collected(s.f, s.v, held), m := CollectedLogs(s.m, s.f.current.logNumber))
  }

  /** The flush's version is current: its memtable is let go and what is obsolete deleted. */
  ghost function FlushInstalled(s: State): State
    requires s.b.bg.Running? && s.b.bg.job.Written?
  {
    var f := s.f.(current := ApplyEdit(s.f.current, s.b.bg.job.edit), flushed := s.f.flushed + Imm(s.m));
    DeleteObsoleteFiles(s.(f := f, m := s.m.(imm := None)), if s.b.bg.merge.Some? then s.b.bg.merge.value.base else {})
  }

  ghost function MergeInstalled(s: State, m: Merge): State
    requires s.b.bg.Running? && s.b.bg.job.Written?
  {
    var f := s.f.(current := ApplyEdit(s.f.current, s.b.bg.job.edit), pending := s.f.pending - m.outputs);
    DeleteObsoleteFiles(s.(f := f), {})
  }

  /** The end of a manual request that a merge served. */
  function Served(b: Worker, m: Merge): Worker {
    b.(manual := b.manual && !m.isManual)
  }

  ghost function DoWork(s: State, a: WorkStep): State
    requires WorkEnabled(s, a)
  {
    var bg := s.b.bg;
    match a
    // with an error, at shutdown, or when nothing was picked; a manual request is then done
    case BgNothing(needs) => s.(b := EndCall(if s.b.shuttingDown || s.b.bgError then s.b else s.b.(manual := false), s.m.imm, needs))
    case BgFlush => BeginFlush(s, None)
    case BgMerge(m) =>
      s.(b := s.b.(bg := Running(Merging, Some(m))), f := s.f.(horizon := if s.f.horizon < m.smallest then m.smallest else s.f.horizon))
    case BgMove(file) => s.(b := s.b.(bg := Running(Installing(MoveEdit(s.f, file), false), None)))
    case FlushInMerge => BeginFlush(s, bg.merge)
    case BuildTable(ok) =>
      s.(b := SetJob(s.b, Built(bg.job.file, ok)), f := s.f.(tables := if ok then s.f.tables[bg.job.file := Imm(s.m)] else s.f.tables))
    case FlushRelock(ok, needs) =>
      s.(f := s.f.(pending := s.f.pending - {bg.job.file}),
         b := if ok then SetJob(s.b, Installing(FlushEdit(s.m, bg.job.file), true))
              else AfterFlush(s.b.(bgError := true), s.m.imm, needs))
    case WriteManifest(ok, persisted) =>
      s.(b := SetJob(s.b, Written(bg.job.edit, bg.job.flush, ok)),
         f := s.f.(disk := if ok || persisted then ApplyEdit(s.f.disk, bg.job.edit) else s.f.disk))
    case InstallFlush(needs) =>
      if bg.job.ok then FlushInstalled(s).(b := AfterFlush(s.b, None, needs)) else s.(b := Halt(s.b))
    case MergeOpen =>
      var m := bg.merge.value;
      s.(b := s.b.(bg := Running(Merging, Some(m.(outputs := m.outputs + {s.nextFile})))),
         f := s.f.(tables := s.f.tables[s.nextFile := {}], pending := s.f.pending + {s.nextFile}),
         nextFile := s.nextFile + 1)
    case MergeWrite(file, es) => s.(f := s.f.(tables := s.f.tables[file := es]))
    case MergeDone => s.(b := SetJob(s.b, Installing(MergeEdit(s.f, bg.merge.value), false)))
    case MergeAbort(needs) =>
      s.(f := s.f.(pending := s.f.pending - bg.merge.value.outputs),
         b := EndCall(Served(s.b, bg.merge.value).(bgError := true), s.m.imm, needs))
    case InstallMerge(needs) =>
      if bg.job.ok then MergeInstalled(s, bg.merge.value).(b := EndCall(Served(s.b, bg.merge.value), s.m.imm, needs))
      else s.(f := s.f.(pending := s.f.pending - bg.merge.value.outputs), b := Halt(Served(s.b, bg.merge.value)))
    case InstallMove(needs) =>
      if bg.job.ok then s.(f := s.f.(current := ApplyEdit(s.f.current, bg.job.edit)), b := EndCall(s.b, s.m.imm, needs))
      else s.(b := Halt(s.b))
  }

  // ---------- runs ----------

  datatype Action = OfQueue(queue: QueueStep) | OfView(view: ViewStep) | OfWork(work: WorkStep)

  ghost predicate Enabled(s: State, a: Action) {
    match a
    case OfQueue(step) => QueueEnabled(s, step) && Shape(s.q)
    case OfView(step) => ViewEnabled(s, step)
    case OfWork(step) => WorkEnabled(s, step)
  }

  ghost function Do(s: State, a: Action): State
    requires Enabled(s, a)
  {
    match a
    case OfQueue(step) => DoQueue(s, step)
    case OfView(step) => DoView(s, step)
    case OfWork(step) => DoWork(s, step)
  }
}
