/** The state machine with the levels of its versions: of the current one, of those that readers hold, of
    the one on disk and of the one being written to the descriptor. What the code chooses to compact, move
    or flush where is a choice of levels here; the conditions under which the levels stay ordered are
    those of LevelChanges. */
module DatabaseLevels {
  import opened Keys
  import opened Compaction
  import opened Database
  import opened DatabaseQueue
  import opened DatabaseMemory
  import opened DatabaseStorage
  import opened DatabaseReaders
  import opened DatabaseAcks
  import opened DatabaseRuns
  import opened Levels
  import opened VersionGet
  import opened LevelChanges

  type Version = seq<seq<Table>>

  /** The inputs of a compaction, or the table that is moved. */
  datatype Choice = Choice(level: nat, in0: seq<Table>, in1: seq<Table>)

  datatype Leveled = Leveled(s: State, current: Version, next: Version, disk: Version, captured: map<nat, Version>,
                             choice: Option<Choice>)

  /** A step, with what it chooses: the inputs when a compaction or a move begins; when an edit goes to the
      descriptor, the version it makes, the tables that enter it, and for a flush their level. */
  datatype LevelAction = LevelAction(action: Action, choice: Option<Choice>, next: Version, tables: seq<Table>, level: nat)

  /** Levels that Get finds everything in. */
  ghost predicate Sound(v: Version) {
    && |v| > MAX_MEM_COMPACT_LEVEL && Ordered(v)
    && DistinctNumbers(v[0]) && NumberedByAge(v[0])
  }

  // ---------- steps ----------

  /** What PickCompaction or CompactRange has chosen, if it splits no user key. */
  ghost predicate MergeChosen(v: Version, c: Choice, m: Merge) {
    && Ordered(v) && Chosen(v, c.level, c.in0, c.in1) && Unsplit(v, c.level, c.in0, c.in1)
    && m.inputs == Numbers(c.in0 + c.in1) && Entries(m.input) == Content(c.in0 + c.in1)
    && m.levels == RangesOf(v[c.level + 2..])
  }

  /** IsTrivialMove: one table, and none that overlaps it below; again if it splits no user key. */
  ghost predicate MoveChosen(v: Version, c: Choice, file: nat) {
    && Ordered(v) && |c.in0| == 1 && c.in1 == [] && Chosen(v, c.level, c.in0, c.in1)
    && (c.level > 0 ==> !Splits(v[c.level], c.in0, []))
    && file == c.in0[0].number
  }

  /** The table of a flush, where PickLevelForMemTableOutput puts it; none if the memtable was empty. A
      compaction under way must not be writing to that level around it. */
  ghost predicate FlushPlaced(L: Leveled, e: Edit, a: LevelAction) {
    if a.tables == [] then e.added == {} && a.next == L.current
    else
      && |a.tables| == 1 && TableOk(a.tables[0]) && e.added == {a.tables[0].number}
      && Entries(a.tables[0].entries) == Imm(L.s.m)
      && Ordered(L.current) && a.level <= MAX_MEM_COMPACT_LEVEL && MayEnter(L.current, a.level, a.tables[0])
      && Entered(L.current, a.next, a.level, a.tables[0]) && Tidy(a.next)
      && (L.s.b.bg.Running? && L.s.b.bg.merge.Some? && L.choice.Some? && a.level == L.choice.value.level + 1 ==>
            OneSide(a.tables[0], Content(L.choice.value.in0 + L.choice.value.in1)))
  }

  /** The outputs of a compaction: the entries that it kept, cut into tables. */
  ghost predicate MergePlaced(L: Leveled, m: Merge, a: LevelAction) {
    && L.choice.Some? && TablesOk(a.tables) && m.outputs == Numbers(a.tables)
    && Laid(a.tables) == Keep(m.input, m.smallest, m.levels, |m.input|)
    && (forall t :: t in a.tables ==> t.number in L.s.f.tables && L.s.f.tables[t.number] == Entries(t.entries))
    && (forall t, t' :: t in a.tables && t' in a.tables && t.number == t'.number ==> t == t')
    && Installed(L.current, a.next, L.choice.value.level, L.choice.value.in0, L.choice.value.in1, a.tables) && Tidy(a.next)
  }

  ghost predicate MovePlaced(L: Leveled, a: LevelAction) {
    && L.choice.Some? && a.tables == L.choice.value.in0
    && Installed(L.current, a.next, L.choice.value.level, L.choice.value.in0, [], L.choice.value.in0) && Tidy(a.next)
  }

  ghost predicate LevelEnabled(L: Leveled, a: LevelAction) {
    && Enabled(L.s, a.action)
    && match a.action
       case OfWork(BgMerge(m)) => a.choice.Some? && MergeChosen(L.current, a.choice.value, m)
       case OfWork(BgMove(file)) => a.choice.Some? && MoveChosen(L.current, a.choice.value, file)
       case OfWork(WriteManifest(_, _)) =>
         var bg := L.s.b.bg;
         if bg.job.flush then FlushPlaced(L, bg.job.edit, a)
         else if bg.merge.Some? then MergePlaced(L, bg.merge.value, a)
         else MovePlaced(L, a)
       case _ => true
  }

  predicate Installs(s: State, a: Action) {
    a.OfWork? && (a.work.InstallFlush? || a.work.InstallMerge? || a.work.InstallMove?)
    && s.b.bg.Running? && s.b.bg.job.Written? && s.b.bg.job.ok
  }

  ghost function LevelDo(L: Leveled, a: LevelAction): Leveled
    requires LevelEnabled(L, a)
  {
    var s := Do(L.s, a.action);
    var writes := a.action.OfWork? && a.action.work.WriteManifest?;
    Leveled(
      s,
      if Installs(L.s, a.action) then L.next else L.current,
      if writes then a.next else L.next,
      if writes && (a.action.work.ok || a.action.work.persisted) then a.next else L.disk,
      map r | r in s.v.readers :: if r in L.captured then L.captured[r] else L.current,
      if a.action.OfWork? && (a.action.work.BgMerge? || a.action.work.BgMove?) then a.choice else L.choice)
  }

  /** A database that has just been opened, with any levels in order. */
  ghost predicate LevelsOpened(L: Leveled) {
    && Opened(L.s) && Sound(L.current) && Arranged(L.s.f, L.current)
    && L.disk == L.current && L.captured == map[] && L.choice == None
  }

  ghost predicate LevelRuns(L: Leveled, actions: seq<LevelAction>, L': Leveled)
    decreases |actions|
  {
    if actions == [] then L' == L
    else LevelEnabled(L, actions[0]) && LevelRuns(LevelDo(L, actions[0]), actions[1..], L')
  }

  function Plain(actions: seq<LevelAction>): seq<Action> {
    seq(|actions|, i requires 0 <= i < |actions| => actions[i].action)
  }

  /** Every run with levels is a run of the database. */
  lemma {:induction false} LevelRunsAreRuns(L: Leveled, actions: seq<LevelAction>, L': Leveled)
    requires LevelRuns(L, actions, L')
    ensures Runs(L.s, Plain(actions), L'.s)
    decreases |actions|
  {
    hide Enabled, Do, LevelEnabled;
    if actions != [] {
      assert Plain(actions)[1..] == Plain(actions[1..]);
      LevelFrame(L, actions[0]);
      LevelRunsAreRuns(LevelDo(L, actions[0]), actions[1..], L');
    }
  }

  lemma LevelFrame(L: Leveled, a: LevelAction)
    requires LevelEnabled(L, a)
    ensures Enabled(L.s, a.action) && LevelDo(L, a).s == Do(L.s, a.action)
  {
    hide Enabled, Do;
  }

  // ---------- the invariant ----------

  /** What the worker is about to do to the levels. */
  ghost predicate WorkLevels(L: Leveled) {
    var s, bg := L.s, L.s.b.bg;
    && (bg.Running? && bg.merge.Some? ==> MergeReady(L, bg.merge.value))
    && (bg.Running? && (bg.job.Building? || bg.job.Built?) ==> forall n :: n in s.f.current.version ==> n < bg.job.file)
    && (bg.Running? && (bg.job.Installing? || bg.job.Written?) ==>
          if bg.job.flush then forall n, n' :: n in s.f.current.version && n' in bg.job.edit.added ==> n < n'
          else bg.merge.None? ==> MoveReady(L, bg.job.edit))
    && (bg.Running? && bg.job.Written? ==> NextOk(L, bg.job.edit))
    && (bg.Running? && bg.job.Written? && bg.job.flush && bg.merge.Some? ==> StillReady(L.next, L.choice))
  }

  ghost predicate StillReady(v: Version, c: Option<Choice>) {
    c.Some? && Ordered(v) && Ready(v, c.value.level, c.value.in0, c.value.in1)
  }

  ghost predicate MergeReady(L: Leveled, m: Merge) {
    && StillReady(L.current, L.choice)
    && var c := L.choice.value;
       m.inputs == Numbers(c.in0 + c.in1) && Entries(m.input) == Content(c.in0 + c.in1)
  }

  ghost predicate MoveReady(L: Leveled, e: Edit) {
    && StillReady(L.current, L.choice)
    && var c := L.choice.value;
       |c.in0| == 1 && c.in1 == [] && e.added == e.deleted == {c.in0[0].number}
  }

  ghost predicate NextOk(L: Leveled, e: Edit) {
    Sound(L.next) && Fits(L.s.f.tables, ApplyEdit(L.s.f.current, e).version, L.next)
  }

  ghost predicate ReaderLevels(L: Leveled) {
    && L.captured.Keys == L.s.v.readers.Keys
    && forall r :: r in L.captured ==> Sound(L.captured[r]) && Fits(L.s.f.tables, L.s.v.readers[r].version, L.captured[r])
  }

  ghost predicate LevelsOk(L: Leveled) {
    && Sound(L.current) && Arranged(L.s.f, L.current)
    && Sound(L.disk) && Fits(L.s.f.tables, L.s.f.disk.version, L.disk)
    && ReaderLevels(L) && WorkLevels(L)
  }

  ghost predicate LevelInv(L: Leveled) {
    Inv(L.s) && LevelsOk(L)
  }

  lemma OpenedLevelsOk(L: Leveled)
    requires LevelsOpened(L)
    ensures LevelInv(L)
  {
    OpenedInv(L.s);
    hide Inv, Sound, Fits, Union, UniqueNumbers;
  }

  // ---------- frames ----------

  lemma FitsSame(t: map<nat, set<Entry>>, t': map<nat, set<Entry>>, files: set<nat>, v: Version)
    requires Fits(t, files, v) && SameFiles(t, t', files)
    ensures Fits(t', files, v)
  {
    hide AllTables;
    forall u | u in AllTables(v) ensures u.number in t' && t'[u.number] == Entries(u.entries) {
      assert u.number in files;
    }
  }

  /** The files that somebody needs keep their content. */
  ghost predicate SameNeeded(s: State, t: State) {
    && SameFiles(s.f.tables, t.f.tables, s.f.current.version)
    && SameFiles(s.f.tables, t.f.tables, s.f.disk.version)
    && forall r :: r in s.v.readers ==> SameFiles(s.f.tables, t.f.tables, s.v.readers[r].version)
  }

  /** A step that installs nothing and begins or ends no read. */
  lemma RestKeepsLevels(L: Leveled, L': Leveled)
    requires LevelsOk(L) && SameNeeded(L.s, L'.s)
    requires L'.current == L.current && L'.disk == L.disk && L'.captured == L.captured && L'.s.v.readers == L.s.v.readers
    requires L'.s.f.current.version == L.s.f.current.version && L'.s.f.disk.version == L.s.f.disk.version
    requires WorkLevels(L')
    ensures LevelsOk(L')
  {
    hide Sound, Fits, WorkLevels, SameFiles;
    FitsSame(L.s.f.tables, L'.s.f.tables, L.s.f.current.version, L.current);
    FitsSame(L.s.f.tables, L'.s.f.tables, L.s.f.disk.version, L.disk);
    forall r | r in L.captured ensures Fits(L'.s.f.tables, L'.s.v.readers[r].version, L'.captured[r]) {
      FitsSame(L.s.f.tables, L'.s.f.tables, L.s.v.readers[r].version, L.captured[r]);
    }
  }

  lemma SameTablesNeeded(s: State, t: State)
    requires t.f.tables == s.f.tables
    ensures SameNeeded(s, t)
  {
  }

  /** The worker's plans stay when what they are about stays. */
  lemma SameWorkLevels(L: Leveled, L': Leveled)
    requires WorkLevels(L) && L'.current == L.current && L'.next == L.next && L'.choice == L.choice && L'.s.f == L.s.f
    requires L'.s.b.bg == L.s.b.bg || (!L'.s.b.bg.Running? && !L.s.b.bg.Running?)
    ensures WorkLevels(L')
  {
    hide Sound, Fits, StillReady, Content, Numbers;
  }

  // ---------- steps of writers and readers ----------

  lemma QueueFrame(s: State, a: QueueStep)
    requires QueueEnabled(s, a) && Shape(s.q) && Scheduling(s.b, s.m.imm)
    ensures var t := DoQueue(s, a);
      t.f == s.f && t.v == s.v && (t.b.bg == s.b.bg || (!t.b.bg.Running? && !s.b.bg.Running?))
  {
    hide GroupOps, Answers, AppendTo, Numbered, Mem, Imm, SyncMemory, Insert;
  }

  lemma ViewFrames(s: State, a: ViewStep)
    requires ViewEnabled(s, a) && Scheduling(s.b, s.m.imm)
    ensures var t := DoView(s, a);
      && t.f == s.f && (t.b.bg == s.b.bg || (!t.b.bg.Running? && !s.b.bg.Running?))
      && (forall r :: r in t.v.readers && r in s.v.readers ==> t.v.readers[r] == s.v.readers[r])
      && (forall r :: r in t.v.readers && r !in s.v.readers ==> t.v.readers[r].version == s.f.current.version)
  {
  }

  lemma CapturedSame(L: Leveled, readers: map<nat, Reader>)
    requires readers.Keys == L.captured.Keys
    ensures (map r | r in readers :: if r in L.captured then L.captured[r] else L.current) == L.captured
  {
  }

  lemma OtherChanges(L: Leveled, a: LevelAction)
    requires LevelEnabled(L, a) && !a.action.OfWork?
    ensures var L' := LevelDo(L, a);
      && L'.s == (if a.action.OfQueue? then DoQueue(L.s, a.action.queue) else DoView(L.s, a.action.view))
      && L'.current == L.current && L'.next == L.next && L'.disk == L.disk && L'.choice == L.choice
      && L'.captured == map r | r in L'.s.v.readers :: if r in L.captured then L.captured[r] else L.current
  {
    hide DoQueue, DoView, QueueEnabled, ViewEnabled;
  }

  lemma QueueKeepsLevels(L: Leveled, a: LevelAction)
    requires LevelInv(L) && LevelEnabled(L, a) && a.action.OfQueue?
    ensures LevelsOk(LevelDo(L, a))
  {
    var L' := LevelDo(L, a);
    OtherChanges(L, a);
    QueueFrame(L.s, a.action.queue);
    hide Inv, DoQueue, QueueEnabled, LevelEnabled, LevelDo, Sound, Fits, WorkLevels;
    CapturedSame(L, L'.s.v.readers);
    SameWorkLevels(L, L');
    SameTablesNeeded(L.s, L'.s);
    RestKeepsLevels(L, L');
  }

  lemma ViewReaders(L: Leveled, L': Leveled)
    requires ReaderLevels(L) && Sound(L.current) && Arranged(L.s.f, L.current) && L'.s.f == L.s.f
    requires forall r :: r in L'.s.v.readers && r in L.s.v.readers ==> L'.s.v.readers[r] == L.s.v.readers[r]
    requires forall r :: r in L'.s.v.readers && r !in L.s.v.readers ==> L'.s.v.readers[r].version == L.s.f.current.version
    requires L'.captured == map r | r in L'.s.v.readers :: if r in L.captured then L.captured[r] else L.current
    ensures ReaderLevels(L')
  {
    hide Sound, Fits;
    forall r | r in L'.captured
      ensures Sound(L'.captured[r]) && Fits(L'.s.f.tables, L'.s.v.readers[r].version, L'.captured[r])
    {
    }
  }

  lemma EnabledView(L: Leveled, a: LevelAction)
    requires LevelInv(L) && LevelEnabled(L, a) && a.action.OfView?
    ensures ViewEnabled(L.s, a.action.view) && Scheduling(L.s.b, L.s.m.imm)
  {
    hide ViewEnabled, LevelsOk, Scheduling, Numbering, Placement, StorageOk, ReadersOk, AcksOk, Logged, Orphaned, EditLog, Shape,
         LogsOrdered;
  }

  lemma ViewKeepsLevels(L: Leveled, a: LevelAction)
    requires LevelInv(L) && LevelEnabled(L, a) && a.action.OfView?
    ensures LevelsOk(LevelDo(L, a))
  {
    EnabledView(L, a);
    hide Inv, DoView, ViewEnabled, LevelEnabled, LevelDo, Sound, Fits, WorkLevels;
    var L' := LevelDo(L, a);
    OtherChanges(L, a);
    ViewFrames(L.s, a.action.view);
    SameWorkLevels(L, L');
    ViewReaders(L, L');
  }

  // ---------- steps of the worker that install nothing ----------

  lemma WorkReaders(L: Leveled, a: LevelAction)
    requires ReaderLevels(L) && LevelEnabled(L, a) && a.action.OfWork?
    ensures LevelDo(L, a).s == DoWork(L.s, a.action.work) && LevelDo(L, a).s.v == L.s.v && LevelDo(L, a).captured == L.captured
  {
    WorkFrame(L.s, a.action.work);
    hide DoWork, WorkEnabled, Sound, Fits;
    CapturedSame(L, L.s.v.readers);
  }

  /** The file being written is nobody's. */
  lemma WritesUnused(s: State, a: WorkStep)
    requires WorkEnabled(s, a) && StorageOk(s) && (a.BuildTable? || a.MergeOpen? || a.MergeWrite?)
    ensures SameNeeded(s, DoWork(s, a))
    ensures var t := DoWork(s, a); t.f.current == s.f.current && t.f.disk == s.f.disk
  {
    hide MergeInput, MergeOutput, VersionReads, SameReads, SnapshotsHeld, Union, Imm;
    assert s.f.disk == s.f.current;
  }

  lemma BeginFlushKeepsLevels(L: Leveled, a: LevelAction)
    requires LevelInv(L) && LevelEnabled(L, a) && a.action.OfWork? && (a.action.work.BgFlush? || a.action.work.FlushInMerge?)
    ensures LevelsOk(LevelDo(L, a))
  {
    hide Sound, Fits, VersionReads, SameReads, MergeInput, MergeOutput, Union, Numbering, Placement, Logged, Orphaned,
         EditLog, ReadersOk, AcksOk, LogsOrdered, Shape, StillReady, Content, Numbers;
    var L' := LevelDo(L, a);
    WorkReaders(L, a);
    SameTablesNeeded(L.s, L'.s);
    assert WorkLevels(L');
    hide WorkLevels;
    RestKeepsLevels(L, L');
  }

  lemma WriteKeepsLevels(L: Leveled, a: LevelAction)
    requires LevelInv(L) && LevelEnabled(L, a) && a.action.OfWork?
    requires a.action.work.BuildTable? || a.action.work.MergeOpen? || a.action.work.MergeWrite?
    ensures LevelsOk(LevelDo(L, a))
  {
    hide Sound, Fits, VersionReads, SameReads, MergeInput, MergeOutput, Union, Numbering, Placement, Logged, Orphaned,
         EditLog, ReadersOk, AcksOk, LogsOrdered, Shape, StillReady, Content, Numbers, Scheduling;
    var L' := LevelDo(L, a);
    WorkReaders(L, a);
    WritesUnused(L.s, a.action.work);
    hide StorageOk;
    assert WorkLevels(L');
    hide WorkLevels, SameNeeded;
    RestKeepsLevels(L, L');
  }

  lemma BeginKeepsLevels(L: Leveled, a: LevelAction)
    requires LevelInv(L) && LevelEnabled(L, a) && a.action.OfWork? && (a.action.work.BgMerge? || a.action.work.BgMove?)
    ensures LevelsOk(LevelDo(L, a))
  {
    hide Inv, Sound, Fits, MergeInput, Content, Numbers, Chosen, Ordered, Splits, Ready, RangesOf;
    var L' := LevelDo(L, a);
    var c := a.choice.value;
    WorkReaders(L, a);
    SameTablesNeeded(L.s, L'.s);
    ChoiceIsReady(L, a);
    assert WorkLevels(L');
    hide WorkLevels, SameNeeded;
    RestKeepsLevels(L, L');
  }

  lemma ChoiceIsReady(L: Leveled, a: LevelAction)
    requires LevelEnabled(L, a) && a.action.OfWork? && (a.action.work.BgMerge? || a.action.work.BgMove?)
    ensures a.choice.Some? && StillReady(L.current, a.choice)
  {
    hide Chosen, Ordered, Splits, Ready, RangesOf, MergeInput, Content, Numbers;
    var c := a.choice.value;
    ChosenIsReady(L.current, c.level, c.in0, c.in1);
  }

  /** The contract that the plain state machine asks of a compaction is met by such a choice. */
  lemma ChosenMeetsContract(L: Leveled, c: Choice, m: Merge)
    requires LevelsOk(L) && MergeChosen(L.current, c, m) && Sorted(m.input)
    ensures MergeInput(L.s.f, m)
  {
    UnsplitLeavesNothingOlder(L.current, c.level, c.in0, c.in1);
    hide MergeInput, Chosen, Ordered, Unsplit, LeavesOlder, RangesOf, Content, Numbers, Sorted, Sound, Fits, ReaderLevels, WorkLevels;
    MergeInputIff(L.s.f, L.current, c.level, c.in0, c.in1, m);
  }

  lemma OtherWorkKeepsLevels(L: Leveled, a: LevelAction)
    requires LevelInv(L) && LevelEnabled(L, a) && a.action.OfWork? && !Installs(L.s, a.action)
    requires var w := a.action.work; w.BgNothing? || w.FlushRelock? || w.MergeDone? || w.MergeAbort? || w.InstallFlush? || w.InstallMerge? || w.InstallMove?
    ensures LevelsOk(LevelDo(L, a))
  {
    hide Sound, Fits, VersionReads, SameReads, MergeInput, MergeOutput, Union, Numbering, Placement, Logged, Orphaned,
         EditLog, ReadersOk, AcksOk, LogsOrdered, Shape, StillReady, Content, Numbers, StorageOk, Imm;
    var L' := LevelDo(L, a);
    WorkReaders(L, a);
    SameTablesNeeded(L.s, L'.s);
    assert WorkLevels(L');
    hide WorkLevels, SameNeeded;
    RestKeepsLevels(L, L');
  }

  // ---------- a new version ----------

  lemma OneLevelOnly(v: Version, i: nat, j: nat, t: Table)
    requires Ordered(v) && i < |v| && j < |v| && t in v[i] && t in v[j]
    ensures i == j
  {
    hide UniqueNumbers, AllTables;
    InContent(v[i], t, First(t));
    InContent(v[j], t, First(t));
  }

  lemma EnteredTables(v: Version, v': Version, level: nat, t: Table, u: Table)
    requires Entered(v, v', level, t)
    ensures u in AllTables(v') <==> u in AllTables(v) || u == t
  {
    hide AllTables;
    InAllTables(v, u);
    InAllTables(v', u);
    if u in AllTables(v) {
      var l :| 0 <= l < |v| && u in v[l];
      assert u in v'[l];
    }
    assert t in v'[level];
  }

  lemma InstalledTables(v: Version, v': Version, c: Choice, outputs: seq<Table>, u: Table)
    requires Ordered(v) && Ready(v, c.level, c.in0, c.in1) && Installed(v, v', c.level, c.in0, c.in1, outputs)
    ensures u in AllTables(v') <==> (u in AllTables(v) && u !in c.in0 + c.in1) || u in outputs
  {
    hide AllTables, NewerAbove, UniqueNumbers, Levels.InOrder, OneSide, Content;
    InAllTables(v, u);
    InAllTables(v', u);
    if u in AllTables(v) && u !in c.in0 + c.in1 {
      var l :| 0 <= l < |v| && u in v[l];
      assert u in v'[l];
    }
    if u in AllTables(v') && u !in outputs {
      var l :| 0 <= l < |v'| && u in v'[l];
      assert u in v[l];
      if u in c.in0 {
        OneLevelOnly(v, l, c.level, u);
      } else if u in c.in1 {
        OneLevelOnly(v, l, c.level + 1, u);
      }
    }
    if u in outputs {
      assert u in v'[c.level + 1];
    }
  }

  /** What is in tables is older than what is in the immutable memtable. */
  lemma TablesAreOlder(L: Leveled)
    requires Inv(L.s) && Arranged(L.s.f, L.current)
    ensures forall e, f :: e in Content(AllTables(L.current)) && f in Imm(L.s.m) ==> e.sequence < f.sequence
    ensures UniqueNumbers(Content(AllTables(L.current)) + Imm(L.s.m))
  {
    UnionOfTables(L.s.f, L.current, AllTables(L.current));
    hide Fits, AllTables, Union, SameReads, Numbers, Content, Outside, Mem, Imm, AcksOk, ReadersOk, Logged, Orphaned, EditLog,
         LogsOrdered, Shape, Scheduling, Placement, Bounded, FilesExist, SnapshotsHeld, WorkerOk, DiskOk;
  }

  lemma FlushFits(L: Leveled, e: Edit, a: LevelAction)
    requires Arranged(L.s.f, L.current) && FlushPlaced(L, e, a) && FlushEditOk(L.s, e) && a.tables != []
    ensures Fits(L.s.f.tables, ApplyEdit(L.s.f.current, e).version, a.next)
  {
    hide AllTables, Ordered, MayEnter, Tidy, Imm, Entered, OneSide, Content, Fits;
    var t := a.tables[0];
    UnionOne(L.s.f.tables, t.number);
    assert L.s.f.current.version - e.deleted + e.added == L.s.f.current.version + {t.number};
    FitsEntered(L.s.f.tables, L.s.f.tables, L.s.f.current.version, L.current, a.next, a.level, t);
  }

  lemma FitsEntered(tables: map<nat, set<Entry>>, tables': map<nat, set<Entry>>, files: set<nat>, v: Version, v': Version, level: nat, t: Table)
    requires Fits(tables, files, v) && SameFiles(tables, tables', files) && Entered(v, v', level, t)
    requires t.number !in files && t.number in tables' && tables'[t.number] == Entries(t.entries)
    ensures Fits(tables', files + {t.number}, v')
  {
    FitsSame(tables, tables', files, v);
    hide AllTables, Entered;
    forall u ensures u in AllTables(v') <==> u in AllTables(v) || u == t {
      EnteredTables(v, v', level, t, u);
    }
    NumbersPlus(AllTables(v), AllTables(v'), t);
  }

  lemma UnionOne(tables: map<nat, set<Entry>>, n: nat)
    requires n in tables
    ensures Union(tables, {n}) == tables[n]
  {
  }

  lemma NumbersPlus(ts: seq<Table>, us: seq<Table>, t: Table)
    requires forall u :: u in us <==> u in ts || u == t
    ensures Numbers(us) == Numbers(ts) + {t.number}
  {
  }

  lemma FlushSound(L: Leveled, e: Edit, a: LevelAction)
    requires Inv(L.s) && Sound(L.current) && Arranged(L.s.f, L.current) && FlushPlaced(L, e, a) && FlushEditOk(L.s, e)
    requires a.tables != [] && forall n, n' :: n in L.s.f.current.version && n' in e.added ==> n < n'
    ensures Sound(a.next)
    ensures L.s.b.bg.Running? && L.s.b.bg.merge.Some? && StillReady(L.current, L.choice) ==> StillReady(a.next, L.choice)
  {
    var t := a.tables[0];
    var v := L.current;
    TablesAreOlder(L);
    hide Inv, AllTables, Content, NewerAbove, UniqueNumbers, Levels.InOrder, MayEnter, Imm, OneSide, FlushEditOk;
    FlushKeepsOrdered(v, a.next, a.level, t);
    forall u | u in AllTables(v) ensures u.number < t.number {
      assert u.number in L.s.f.current.version;
    }
    FlushKeepsAge(v, a.next, a.level, t);
    if L.s.b.bg.Running? && L.s.b.bg.merge.Some? && StillReady(v, L.choice) {
      var c := L.choice.value;
      NotAmongOld(L, c, t);
      FlushKeepsReadyIff(v, a.next, a.level, t, c.level, c.in0, c.in1);
    }
  }

  lemma NumberOfOld(L: Leveled, l: nat, u: Table)
    requires Arranged(L.s.f, L.current) && l < |L.current| && u in L.current[l]
    ensures u.number in L.s.f.current.version && u in AllTables(L.current)
  {
    hide AllTables;
    InAllTables(L.current, u);
  }

  lemma NotAmongOld(L: Leveled, c: Choice, t: Table)
    requires Arranged(L.s.f, L.current) && Ordered(L.current) && Ready(L.current, c.level, c.in0, c.in1)
    requires forall n :: n in L.s.f.current.version ==> n < t.number
    ensures t !in c.in0 + c.in1
  {
    hide AllTables, Fits, NewerAbove, UniqueNumbers, Levels.InOrder, OneSide, Content;
    if t in c.in0 {
      NumberOfOld(L, c.level, t);
    } else if t in c.in1 {
      NumberOfOld(L, c.level + 1, t);
    }
  }

  lemma FlushKeepsAge(v: Version, v': Version, level: nat, t: Table)
    requires Sound(v) && Entered(v, v', level, t) && Tidy(v')
    requires forall u :: u in AllTables(v) ==> u.number < t.number
    requires forall e, f :: e in Content(AllTables(v)) && f in t.entries ==> e.sequence < f.sequence
    ensures |v'| == |v| && DistinctNumbers(v'[0]) && NumberedByAge(v'[0])
  {
    hide AllTables, Ordered, Levels.InOrder, NumberedByAge, Content, BySmallestKey, DistinctNumbers;
    if level == 0 {
      forall u | u in v[0] ensures u in AllTables(v) {
        InAllTables(v, u);
      }
      forall u, e | u in v[0] && e in u.entries ensures e in Content(AllTables(v)) {
        InContent(AllTables(v), u, e);
      }
      NewestKeepsAge(v[0], v'[0], t);
    }
  }

  lemma NewestKeepsAge(ts: seq<Table>, us: seq<Table>, t: Table)
    requires NumberedByAge(ts) && forall u :: u in us <==> u in ts || u == t
    requires forall u :: u in ts ==> u.number < t.number
    requires forall u, e, f :: u in ts && e in u.entries && f in t.entries ==> e.sequence < f.sequence
    ensures NumberedByAge(us)
  {
    forall u, w, e, f | u in us && w in us && u.number > w.number && e in u.entries && f in w.entries && e.key == f.key ensures e.sequence > f.sequence {
      if u in ts && w !in ts {
        assert false;
      }
    }
  }

  lemma MergeFits(L: Leveled, c: Choice, outputs: seq<Table>, v': Version, e: Edit)
    requires Arranged(L.s.f, L.current) && Ordered(L.current) && Ready(L.current, c.level, c.in0, c.in1)
    requires Installed(L.current, v', c.level, c.in0, c.in1, outputs)
    requires forall t :: t in outputs ==> t.number in L.s.f.tables && L.s.f.tables[t.number] == Entries(t.entries)
    requires forall t, t' :: t in outputs && t' in outputs && t.number == t'.number ==> t == t'
    requires e.deleted == Numbers(c.in0 + c.in1) && e.added == Numbers(outputs)
    requires forall t :: t in outputs ==> t.number !in L.s.f.current.version - e.deleted
    ensures Fits(L.s.f.tables, ApplyEdit(L.s.f.current, e).version, v')
  {
    var v := L.current;
    forall u ensures u in AllTables(v') <==> (u in AllTables(v) && u !in c.in0 + c.in1) || u in outputs {
      InstalledTables(v, v', c, outputs, u);
    }
    forall t | t in c.in0 + c.in1 ensures t in AllTables(v) {
      InAllTables(v, t);
    }
    hide AllTables, Installed, Ready, Ordered;
    NumbersChange(v, v', c.in0 + c.in1, outputs);
  }

  lemma NumbersChange(v: Version, v': Version, ins: seq<Table>, outs: seq<Table>)
    requires forall u :: u in AllTables(v') <==> (u in AllTables(v) && u !in ins) || u in outs
    requires forall t :: t in ins ==> t in AllTables(v)
    requires forall t, t' :: t in AllTables(v) && t' in AllTables(v) && t.number == t'.number ==> t == t'
    requires forall t :: t in outs ==> t.number !in Numbers(AllTables(v)) - Numbers(ins)
    ensures Numbers(AllTables(v')) == Numbers(AllTables(v)) - Numbers(ins) + Numbers(outs)
    ensures forall t, t' :: t in AllTables(v') && t' in outs && t !in outs ==> t.number != t'.number
  {
    hide AllTables;
    forall n ensures n in Numbers(AllTables(v')) <==> n in Numbers(AllTables(v)) - Numbers(ins) + Numbers(outs) {
    }
  }

  /** Level 0 only loses tables to a compaction. */
  lemma InstallSound(L: Leveled, c: Choice, outputs: seq<Table>, v': Version)
    requires Sound(L.current) && Ready(L.current, c.level, c.in0, c.in1) && OutputsOf(outputs, c.in0, c.in1)
    requires Installed(L.current, v', c.level, c.in0, c.in1, outputs) && Tidy(v')
    ensures Sound(v')
  {
    InstallKeepsOrdered(L.current, v', c.level, c.in0, c.in1, outputs);
    hide Ordered, OutputsOf, OneSide, Content, BySmallestKey, AllTables;
    assert forall t :: t in v'[0] ==> t in L.current[0];
  }

  lemma MergeNext(L: Leveled, m: Merge, a: LevelAction)
    requires Sound(L.current) && Arranged(L.s.f, L.current) && MergeReady(L, m) && MergePlaced(L, m, a) && Sorted(m.input)
    requires forall n :: n in m.outputs ==> n !in L.s.f.current.version
    ensures Sound(a.next) && Fits(L.s.f.tables, ApplyEdit(L.s.f.current, MergeEdit(L.s.f, m)).version, a.next)
  {
    hide AllTables, Fits, Content, Keep, Laid, Ready, Ordered, OutputsOf, Installed, Tidy;
    var c := L.choice.value;
    KeptIsOutput(a.tables, m.input, m.smallest, m.levels, c.in0, c.in1);
    assert forall t :: t in a.tables ==> t.number in m.outputs;
    hide Sound;
    SoundIsOrdered(L.current);
    InstallSound(L, c, a.tables, a.next);
    MergeFits(L, c, a.tables, a.next, MergeEdit(L.s.f, m));
  }

  lemma SoundIsOrdered(v: Version)
    requires Sound(v)
    ensures Ordered(v)
  {
    hide Ordered;
  }

  lemma MoveNext(L: Leveled, e: Edit, a: LevelAction)
    requires Sound(L.current) && Arranged(L.s.f, L.current) && MoveReady(L, e) && MovePlaced(L, a)
    ensures Sound(a.next) && Fits(L.s.f.tables, ApplyEdit(L.s.f.current, e).version, a.next)
  {
    var c := L.choice.value;
    var t := c.in0[0];
    SoundIsOrdered(L.current);
    MoveIsChosen(L, c);
    hide AllTables, Content, Ready, Ordered, Installed, Tidy, NewerAbove, UniqueNumbers, Levels.InOrder;
    assert c.in0 == [t] && c.in0 + c.in1 == [t];
    MovedIsOutput(t);
    hide Sound;
    InstallSound(L, c, [t], a.next);
    OneNumber(t);
    MergeFits(L, c, [t], a.next, e);
  }

  lemma OneNumber(t: Table)
    ensures Numbers([t]) == {t.number}
  {
  }

  lemma MoveIsChosen(L: Leveled, c: Choice)
    requires Arranged(L.s.f, L.current) && StillReady(L.current, Some(c)) && |c.in0| == 1
    ensures TableOk(c.in0[0]) && c.in0[0] in AllTables(L.current)
  {
    hide NewerAbove, UniqueNumbers, Levels.InOrder, OneSide, Content, AllTables;
    assert c.in0[0] in c.in0 && c.in0[0] in L.current[c.level];
    InAllTables(L.current, c.in0[0]);
  }

  // ---------- the descriptor is written, and the version installed ----------

  lemma NextIsOk(L: Leveled, a: LevelAction)
    requires LevelInv(L) && LevelEnabled(L, a) && a.action.OfWork? && a.action.work.WriteManifest?
    ensures var bg := L.s.b.bg;
      && Sound(a.next) && Fits(L.s.f.tables, ApplyEdit(L.s.f.current, bg.job.edit).version, a.next)
      && (bg.job.flush && bg.merge.Some? ==> StillReady(a.next, L.choice))
  {
    var bg := L.s.b.bg;
    var e := bg.job.edit;
    WritingFacts(L.s);
    hide AllTables, Fits, Content, Keep, Laid, Ready, Ordered, OutputsOf, Installed, Tidy, Inv, Sound, ReaderLevels;
    if bg.job.flush {
      if a.tables == [] {
        assert L.s.f.current.version - e.deleted + e.added == L.s.f.current.version;
      } else {
        FlushSound(L, e, a);
        FlushFits(L, e, a);
      }
    } else if bg.merge.Some? {
      MergeNext(L, bg.merge.value, a);
    } else {
      MoveNext(L, e, a);
    }
  }

  // What the lemma above needs of the invariant.
  lemma WritingFacts(s: State)
    requires Inv(s) && s.b.bg.Running? && s.b.bg.job.Installing?
    ensures var bg := s.b.bg;
      && (bg.job.flush ==> FlushEditOk(s, bg.job.edit))
      && (!bg.job.flush && bg.merge.Some? ==>
            && bg.job.edit == MergeEdit(s.f, bg.merge.value) && Sorted(bg.merge.value.input)
            && forall n :: n in bg.merge.value.outputs ==> n !in s.f.current.version)
      && s.f.disk == s.f.current
  {
    hide FlushEditOk, MergeOutput, VersionReads, SameReads, SnapshotsHeld, FilesExist, Union, Numbering, Placement, Logged,
         Orphaned, EditLog, ReadersOk, AcksOk, LogsOrdered, Shape, Scheduling, Separated, Sorted;
  }

  lemma WriteChanges(L: Leveled, a: LevelAction)
    requires LevelEnabled(L, a) && a.action.OfWork? && a.action.work.WriteManifest?
    ensures var L', bg, w := LevelDo(L, a), L.s.b.bg, a.action.work;
      && L'.current == L.current && L'.next == a.next && L'.choice == L.choice
      && L'.disk == (if w.ok || w.persisted then a.next else L.disk)
      && L'.s.f == L.s.f.(disk := if w.ok || w.persisted then ApplyEdit(L.s.f.disk, bg.job.edit) else L.s.f.disk)
      && L'.s.b.bg == Running(Written(bg.job.edit, bg.job.flush, w.ok), bg.merge)
  {
    hide FlushPlaced, MergePlaced, MovePlaced;
  }

  lemma InstallingFacts(L: Leveled, a: LevelAction)
    requires LevelEnabled(L, a) && a.action.OfWork? && a.action.work.WriteManifest?
    ensures L.s.b.bg.Running? && L.s.b.bg.job.Installing?
  {
    hide FlushPlaced, MergePlaced, MovePlaced;
  }

  lemma WriteManifestKeepsLevels(L: Leveled, a: LevelAction)
    requires LevelInv(L) && LevelEnabled(L, a) && a.action.OfWork? && a.action.work.WriteManifest?
    ensures LevelsOk(LevelDo(L, a))
  {
    hide Inv, LevelEnabled, LevelDo, Sound, Fits, WorkLevels, FlushEditOk, DoWork, StillReady;
    var L' := LevelDo(L, a);
    WorkReaders(L, a);
    WriteChanges(L, a);
    NextIsOk(L, a);
    InstallingFacts(L, a);
    WritingFacts(L.s);
    WriteWorkLevels(L, L');
  }

  lemma WriteWorkLevels(L: Leveled, L': Leveled)
    requires WorkLevels(L) && L.s.b.bg.Running? && L.s.b.bg.job.Installing?
    requires L'.current == L.current && L'.choice == L.choice && L'.s.f == L.s.f.(disk := L'.s.f.disk)
    requires L'.s.b.bg.Running? && L'.s.b.bg.job.Written?
    requires L'.s.b.bg.job == Written(L.s.b.bg.job.edit, L.s.b.bg.job.flush, L'.s.b.bg.job.ok)
    requires L'.s.b.bg.merge == L.s.b.bg.merge && NextOk(L', L.s.b.bg.job.edit)
    requires L.s.b.bg.job.flush && L.s.b.bg.merge.Some? ==> StillReady(L'.next, L.choice)
    ensures WorkLevels(L')
  {
    hide Sound, Fits, StillReady, Content, Numbers;
  }

  lemma InstallSame(s: State, a: WorkStep)
    requires WorkEnabled(s, a) && Inv(s) && Installs(s, OfWork(a))
    ensures var t := DoWork(s, a);
      && t.f.current == ApplyEdit(s.f.current, s.b.bg.job.edit) && t.f.disk == s.f.disk == t.f.current
      && SameFiles(s.f.tables, t.f.tables, t.f.current.version)
      && (forall r :: r in s.v.readers ==> SameFiles(s.f.tables, t.f.tables, s.v.readers[r].version))
      && (t.b.bg.Running? ==> s.b.bg.job.flush && s.b.bg.merge.Some? && t.b.bg == Running(Merging, s.b.bg.merge))
  {
    hide VersionReads, SameReads, SnapshotsHeld, FilesExist, Union, Numbering, Placement, Logged, Orphaned, EditLog, ReadersOk,
         AcksOk, LogsOrdered, Shape, WorkerOk, Scheduling, MergeInput, MergeOutput, Imm;
  }

  lemma InstallChanges(L: Leveled, a: LevelAction)
    requires LevelEnabled(L, a) && a.action.OfWork? && Installs(L.s, a.action)
    ensures var L' := LevelDo(L, a);
      WorkEnabled(L.s, a.action.work) && L'.current == L'.next == L.next && L'.disk == L.disk && L'.choice == L.choice
  {
    hide WorkEnabled, DoWork;
  }

  lemma InstallKeepsLevels(L: Leveled, a: LevelAction)
    requires LevelInv(L) && LevelEnabled(L, a) && a.action.OfWork? && Installs(L.s, a.action)
    ensures LevelsOk(LevelDo(L, a))
  {
    hide Inv, DoWork, WorkEnabled, LevelEnabled, LevelDo, Sound, Fits, SameFiles, Content, Numbers, StillReady;
    var L' := LevelDo(L, a);
    WorkReaders(L, a);
    InstallChanges(L, a);
    InstallSame(L.s, a.action.work);
    FitsSame(L.s.f.tables, L'.s.f.tables, L'.s.f.current.version, L.next);
    FitsSame(L.s.f.tables, L'.s.f.tables, L'.s.f.current.version, L.disk);
    InstallReaders(L, L');
  }

  lemma InstallReaders(L: Leveled, L': Leveled)
    requires ReaderLevels(L) && L'.captured == L.captured && L'.s.v == L.s.v
    requires forall r :: r in L.s.v.readers ==> SameFiles(L.s.f.tables, L'.s.f.tables, L.s.v.readers[r].version)
    ensures ReaderLevels(L')
  {
    hide Sound, Fits, SameFiles;
    forall r | r in L.captured ensures Fits(L'.s.f.tables, L'.s.v.readers[r].version, L'.captured[r]) {
      FitsSame(L.s.f.tables, L'.s.f.tables, L.s.v.readers[r].version, L.captured[r]);
    }
  }

  // ---------- every run ----------

  lemma LevelStepKeeps(L: Leveled, a: LevelAction)
    requires LevelInv(L) && LevelEnabled(L, a)
    ensures LevelInv(LevelDo(L, a))
  {
    hide Inv, LevelsOk, Enabled, Do;
    LevelFrame(L, a);
    StepKeeps(L.s, a.action);
    match a.action {
      case OfQueue(_) => QueueKeepsLevels(L, a);
      case OfView(_) => ViewKeepsLevels(L, a);
      case OfWork(work) =>
        if Installs(L.s, a.action) {
          InstallKeepsLevels(L, a);
        } else {
          match work {
            case WriteManifest(_, _) => WriteManifestKeepsLevels(L, a);
            case BgFlush => BeginFlushKeepsLevels(L, a);
            case FlushInMerge => BeginFlushKeepsLevels(L, a);
            case BgMerge(_) => BeginKeepsLevels(L, a);
            case BgMove(_) => BeginKeepsLevels(L, a);
            case BuildTable(_) => WriteKeepsLevels(L, a);
            case MergeOpen => WriteKeepsLevels(L, a);
            case MergeWrite(_, _) => WriteKeepsLevels(L, a);
            case _ => OtherWorkKeepsLevels(L, a);
          }
        }
    }
  }

  /** In every run whose choices split no user key, every version, current, held by a reader or on disk, has
      its levels in order. */
  lemma {:induction false} LevelRunKeeps(L: Leveled, actions: seq<LevelAction>, L': Leveled)
    requires LevelInv(L) && LevelRuns(L, actions, L')
    ensures LevelInv(L')
    decreases |actions|
  {
    hide LevelInv, LevelEnabled, LevelDo;
    if actions != [] {
      LevelStepKeeps(L, actions[0]);
      LevelRunKeeps(LevelDo(L, actions[0]), actions[1..], L');
    }
  }
}
