/** Tables, the descriptor and compactions: what the installed version answers to readers. */
module DatabaseStorage {
  import opened Keys
  import opened Compaction
  import opened Database
  import opened DatabaseQueue
  import opened DatabaseMemory

  // ---------- unions of tables ----------

  predicate SameFiles(t: map<nat, set<Entry>>, t': map<nat, set<Entry>>, fs: set<nat>) {
    forall n :: n in fs ==> (n in t <==> n in t') && (n in t ==> t[n] == t'[n])
  }

  lemma UnionSame(t: map<nat, set<Entry>>, t': map<nat, set<Entry>>, fs: set<nat>)
    requires SameFiles(t, t', fs)
    ensures Union(t, fs) == Union(t', fs)
  {
  }

  lemma UnionPlus(t: map<nat, set<Entry>>, fs: set<nat>, gs: set<nat>)
    ensures Union(t, fs + gs) == Union(t, fs) + Union(t, gs)
  {
  }

  lemma UnionSplit(t: map<nat, set<Entry>>, fs: set<nat>, gs: set<nat>)
    requires gs <= fs
    ensures Union(t, fs) == Union(t, fs - gs) + Union(t, gs)
  {
    UnionPlus(t, fs - gs, gs);
    assert fs - gs + gs == fs;
  }

  // ---------- reads of unions ----------

  lemma UniqueIsDistinct(db: set<Entry>)
    requires UniqueNumbers(db)
    ensures Distinct(db)
  {
  }

  /** Newer entries come first: if one is visible the older ones do not matter, if none is they are
      all that matters. */
  lemma ReadThroughLayer(older: set<Entry>, newer: set<Entry>, k: UserKey, s: nat)
    requires UniqueNumbers(older + newer)
    requires forall e, f :: e in older && f in newer && e.key == f.key ==> e.sequence < f.sequence
    ensures (exists f :: f in newer && Visible(f, k, s)) ==> Newest(older + newer, k, s) == Newest(newer, k, s) && Newest(newer, k, s).Some?
    ensures !(exists f :: f in newer && Visible(f, k, s)) ==> Newest(older + newer, k, s) == Newest(older, k, s)
  {
    UniqueIsDistinct(older + newer);
    assert Distinct(older) && Distinct(newer);
    if f :| f in newer && Visible(f, k, s) {
      NewestExists(newer, k, s, f);
      var n :| IsNewest(newer, k, s, n);
      assert IsNewest(older + newer, k, s, n);
      NewestIs(newer, k, s, n);
      NewestIs(older + newer, k, s, n);
    } else if e :| e in older && Visible(e, k, s) {
      NewestExists(older, k, s, e);
      var n :| IsNewest(older, k, s, n);
      assert IsNewest(older + newer, k, s, n);
      NewestIs(older, k, s, n);
      NewestIs(older + newer, k, s, n);
    } else {
      NewestIsNone(older, k, s);
      NewestIsNone(older + newer, k, s);
    }
  }

  /** Databases that read the same still do with newer entries on top. */
  lemma SameReadsUnder(a: set<Entry>, b: set<Entry>, newer: set<Entry>, lo: nat)
    requires a <= b && SameReads(a, b, lo) && UniqueNumbers(b + newer)
    requires forall e, f :: e in b && f in newer ==> e.sequence < f.sequence
    ensures SameReads(a + newer, b + newer, lo)
  {
    forall k: UserKey, s: nat | lo <= s ensures Read(a + newer, k, s) == Read(b + newer, k, s) {
      ReadThroughLayer(a, newer, k, s);
      ReadThroughLayer(b, newer, k, s);
      assert Read(a, k, s) == Read(b, k, s);
    }
  }

  // ---------- invariants ----------

  /** The installed version reads like all that was ever flushed, for every snapshot not older than
      a compaction's smallest one. */
  ghost predicate VersionReads(f: Files) {
    Tables(f) <= f.flushed && SameReads(Tables(f), f.flushed, f.horizon)
  }

  ghost predicate FilesExist(s: State) {
    && s.f.current.version <= s.f.tables.Keys
    && (forall n :: n in s.f.tables ==> n < s.nextFile)
    && (forall n :: n in s.f.pending ==> n < s.nextFile)
    && (forall r :: r in s.v.readers ==> s.v.readers[r].version <= s.f.tables.Keys)
  }

  /** Snapshots are kept in order of number, none older than the compactions' bound. */
  ghost predicate SnapshotsHeld(s: State) {
    && s.f.horizon <= s.q.lastSequence
    && (forall i :: 0 <= i < |s.v.snapshots| ==> s.f.horizon <= s.v.snapshots[i] <= s.q.lastSequence)
    && (forall i, j :: 0 <= i < j < |s.v.snapshots| ==> s.v.snapshots[i] <= s.v.snapshots[j])
  }

  /** A file being written is nobody's yet. */
  ghost predicate Unused(s: State, n: nat) {
    && n !in s.f.current.version
    && forall r :: r in s.v.readers ==> n !in s.v.readers[r].version
  }

  ghost predicate MergeOk(s: State, m: Merge) {
    && MergeInput(s.f, m) && m.smallest <= s.f.horizon
    && m.outputs <= s.f.tables.Keys && forall n :: n in m.outputs ==> Unused(s, n)
  }

  ghost predicate FlushEditOk(s: State, e: Edit) {
    && e.deleted == {} && e.added <= s.f.tables.Keys
    && Union(s.f.tables, e.added) == Imm(s.m)
    && forall n :: n in e.added ==> n !in s.f.current.version
  }

  /** A flush's edit, a merge's, or that of a move, which changes no set of files. */
  ghost predicate EditOk(s: State, e: Edit, flush: bool, merge: Option<Merge>) {
    if flush then FlushEditOk(s, e) && (merge.Some? ==> e.added !! merge.value.outputs)
    else if merge.Some? then MergeOutput(s.f, merge.value) && e == MergeEdit(s.f, merge.value)
    else e.added == e.deleted <= s.f.current.version && e.logNumber == s.f.current.logNumber
  }

  ghost predicate WorkerOk(s: State) {
    var bg := s.b.bg;
    if bg.Running? then
      && (bg.merge.Some? ==> MergeOk(s, bg.merge.value) && (bg.job.MergeOpen() ==> bg.merge.value.outputs <= s.f.pending))
      && (bg.job.Building? || bg.job.Built? ==>
            && bg.job.file < s.nextFile && Unused(s, bg.job.file) && bg.job.file in s.f.pending
            && (bg.merge.Some? ==> bg.job.file !in bg.merge.value.outputs))
      && (bg.job.Built? && bg.job.ok ==> bg.job.file in s.f.tables && s.f.tables[bg.job.file] == Imm(s.m))
      && (bg.job.Installing? || bg.job.Written? ==> EditOk(s, bg.job.edit, bg.job.flush, bg.merge))
    else if bg.Stopped? then
      && (bg.merge.Some? ==> MergeOk(s, bg.merge.value))
      && EditOk(s, bg.edit, bg.flush, bg.merge)
    else true
  }

  /** The descriptor on disk is the installed version, or already the next one. */
  ghost predicate DiskOk(f: Files, bg: Background) {
    if bg.Running? && bg.job.Written? then
      f.disk == ApplyEdit(f.current, bg.job.edit) || (f.disk == f.current && !bg.job.ok)
    else if bg.Stopped? then
      f.disk == ApplyEdit(f.current, bg.edit) || f.disk == f.current
    else f.disk == f.current
  }

  // ---------- steps of writers and readers ----------

  ghost predicate StorageOk(s: State) {
    VersionReads(s.f) && FilesExist(s) && SnapshotsHeld(s) && WorkerOk(s) && DiskOk(s.f, s.b.bg)
  }

  /** Nothing that storage depends on has changed. */
  ghost predicate SameStorage(s: State, t: State) {
    && t.f == s.f && t.v == s.v && s.nextFile <= t.nextFile && s.q.lastSequence <= t.q.lastSequence
    && (t.b.bg == s.b.bg || (!s.b.bg.Running? && !s.b.bg.Stopped? && t.b.bg.Called?))
    && (s.m.imm.Some? ==> Imm(t.m) == Imm(s.m))
  }

  lemma SameStorageOk(s: State, t: State)
    requires StorageOk(s) && SameStorage(s, t) && JobFits(s.b.bg, s.m.imm) && EditLog(s)
    ensures StorageOk(t)
  {
    hide MergeInput, MergeOutput, Union, SameReads;
    assert s.b.bg.Running? || s.b.bg.Stopped? ==> t.b.bg == s.b.bg;
  }

  lemma QueueKeepsStorage(s: State, a: QueueStep)
    requires QueueEnabled(s, a) && Shape(s.q) && Placement(s) && StorageOk(s) && Scheduling(s.b, s.m.imm) && EditLog(s)
    ensures StorageOk(DoQueue(s, a))
  {
    var t := DoQueue(s, a);
    assert SameStorage(s, t) by {
      hide GroupOps, Answers, AppendTo, Numbered, StorageOk, SameReads;
    }
    SameStorageOk(s, t);
  }

  lemma ViewKeepsStorage(s: State, a: ViewStep)
    requires ViewEnabled(s, a) && StorageOk(s) && Scheduling(s.b, s.m.imm)
    ensures StorageOk(DoView(s, a))
  {
    hide MergeInput, MergeOutput, Union, SameReads;
  }

  // ---------- steps of the worker that install nothing ----------

  /** Writing a file nobody uses yet changes nothing for those who read. */
  lemma UnusedFile(f: Files, m: Merge, n: nat, es: set<Entry>)
    requires n !in f.current.version
    ensures Tables(f.(tables := f.tables[n := es])) == Tables(f)
    ensures MergeInput(f, m) ==> MergeInput(f.(tables := f.tables[n := es]), m)
  {
    hide Separated, Sorted;
    var t := f.tables[n := es];
    UnionSame(f.tables, t, f.current.version);
    if m.inputs <= f.current.version {
      UnionSame(f.tables, t, m.inputs);
      UnionSame(f.tables, t, f.current.version - m.inputs);
    }
  }

  lemma BeginFlushKeepsStorage(s: State, merge: Option<Merge>)
    requires StorageOk(s) && ((s.b.bg.Called? && merge == None) || (s.b.bg.Running? && s.b.bg.job.Merging? && merge == s.b.bg.merge))
    ensures StorageOk(BeginFlush(s, merge))
  {
    hide MergeInput, MergeOutput, Union, SameReads;
    if merge.Some? {
      MergeInputSame(s.f, BeginFlush(s, merge).f, merge.value);
    }
  }

  lemma BgMergeKeepsStorage(s: State, m: Merge)
    requires WorkEnabled(s, BgMerge(m)) && StorageOk(s)
    ensures StorageOk(DoWork(s, BgMerge(m)))
  {
    hide Union, Separated, Sorted;
    var t := DoWork(s, BgMerge(m));
    assert Tables(t.f) == Tables(s.f) && t.f.horizon >= s.f.horizon;
    hide Read;
    assert SameReads(Tables(t.f), t.f.flushed, t.f.horizon);
  }

  lemma BuildKeepsStorage(s: State, ok: bool)
    requires WorkEnabled(s, BuildTable(ok)) && StorageOk(s)
    ensures StorageOk(DoWork(s, BuildTable(ok)))
  {
    hide MergeInput, MergeOutput, Union, SameReads;
    var n := s.b.bg.job.file;
    if s.b.bg.merge.Some? {
      UnusedFile(s.f, s.b.bg.merge.value, n, Imm(s.m));
    } else {
      UnusedFile(s.f, Merge({}, [], [], 0, {}, {}, false), n, Imm(s.m));
    }
  }

  lemma RelockKeepsStorage(s: State, ok: bool, needs: bool)
    requires WorkEnabled(s, FlushRelock(ok, needs)) && StorageOk(s)
    ensures StorageOk(DoWork(s, FlushRelock(ok, needs)))
  {
    hide MergeInput, MergeOutput, SameReads;
    var file := s.b.bg.job.file;
    if ok {
      assert Union(s.f.tables, {file}) == Imm(s.m);
      assert Union(s.f.tables, {}) == {};
    }
    hide Union;
    if s.b.bg.merge.Some? {
      MergeInputSame(s.f, DoWork(s, FlushRelock(ok, needs)).f, s.b.bg.merge.value);
    }
  }

  lemma OpenKeepsStorage(s: State)
    requires WorkEnabled(s, MergeOpen) && StorageOk(s)
    ensures StorageOk(DoWork(s, MergeOpen))
  {
    hide MergeInput, MergeOutput, Union, SameReads;
    var m := s.b.bg.merge.value;
    UnusedFile(s.f, m, s.nextFile, {});
    MergeInputSame(s.f.(tables := s.f.tables[s.nextFile := {}]), DoWork(s, MergeOpen).f, m);
    MergeInputOutputs(DoWork(s, MergeOpen).f, m, m.(outputs := m.outputs + {s.nextFile}));
  }

  lemma MergeInputOutputs(f: Files, m: Merge, m': Merge)
    requires m' == m.(outputs := m'.outputs)
    ensures MergeInput(f, m) <==> MergeInput(f, m')
  {
  }

  lemma MergeInputSame(f: Files, f': Files, m: Merge)
    requires f.tables == f'.tables && f.current.version == f'.current.version
    ensures MergeInput(f, m) <==> MergeInput(f', m)
  {
  }

  lemma WriteKeepsStorage(s: State, n: nat, es: set<Entry>)
    requires WorkEnabled(s, MergeWrite(n, es)) && StorageOk(s)
    ensures StorageOk(DoWork(s, MergeWrite(n, es)))
  {
    hide MergeInput, MergeOutput, Union, SameReads;
    UnusedFile(s.f, s.b.bg.merge.value, n, es);
  }

  lemma QuietKeepsStorage(s: State, a: WorkStep)
    requires WorkEnabled(s, a) && StorageOk(s) && Scheduling(s.b, s.m.imm)
    requires a.BgNothing? || a.MergeDone? || a.MergeAbort? || a.WriteManifest? || ((a.InstallFlush? || a.InstallMerge? || a.InstallMove?) && !s.b.bg.job.ok)
    ensures StorageOk(DoWork(s, a))
  {
    var t := DoWork(s, a);
    if s.b.bg.Running? && s.b.bg.merge.Some? {
      MergeInputSame(s.f, t.f, s.b.bg.merge.value);
    }
    assert t.f.tables == s.f.tables && t.f.current == s.f.current && t.m == s.m && t.v == s.v;
    hide MergeInput, Union, SameReads, Keep, Sorted, Separated;
  }

  // ---------- installing a version ----------

  lemma NewerThanInput(s: State, m: Merge, e: Entry, f: Entry)
    requires VersionReads(s.f) && MergeInput(s.f, m) && Numbering(s)
    requires e in Imm(s.m) && f in m.input
    ensures e.sequence > f.sequence
  {
    UnionSplit(s.f.tables, s.f.current.version, m.inputs);
    assert f in Entries(m.input);
    assert f in s.f.flushed;
  }

  /** A flush's table enters the version: what was flushed grows by the same entries. */
  lemma FlushReads(s: State, f: Files, e: Edit)
    requires VersionReads(s.f) && Numbering(s) && FlushEditOk(s, e)
    requires f == s.f.(current := ApplyEdit(s.f.current, e), flushed := s.f.flushed + Imm(s.m))
    ensures VersionReads(f)
  {
    hide SameReads;
    UnionPlus(s.f.tables, s.f.current.version, e.added);
    assert s.f.current.version - e.deleted == s.f.current.version;
    assert UniqueNumbers(s.f.flushed + Imm(s.m));
    SameReadsUnder(Tables(s.f), s.f.flushed, Imm(s.m), s.f.horizon);
  }

  /** The flush's entries are newer than those of a merge that is under way. */
  lemma FlushBesideMerge(s: State, f: Files, e: Edit, m: Merge)
    requires VersionReads(s.f) && Numbering(s) && FlushEditOk(s, e) && MergeInput(s.f, m)
    requires f == s.f.(current := ApplyEdit(s.f.current, e), flushed := s.f.flushed + Imm(s.m))
    ensures MergeInput(f, m)
  {
    hide SameReads, Numbering, VersionReads, Sorted;
    var rest, rest' := Union(s.f.tables, s.f.current.version - m.inputs), Union(f.tables, f.current.version - m.inputs);
    assert f.current.version - m.inputs == (s.f.current.version - m.inputs) + e.added;
    UnionPlus(s.f.tables, s.f.current.version - m.inputs, e.added);
    assert rest' == rest + Imm(s.m);
    forall x, y | x in rest' && y in m.input && x.key == y.key && x.sequence < y.sequence ensures !BaseLevel(m.levels, x.key) {
      if x in Imm(s.m) {
        NewerThanInput(s, m, x, y);
      }
    }
  }

  /** A merge's outputs replace its inputs: nobody at or above the bound can tell, if what it left outside
      is not older than its input or is seen by the base level test (MergeInput). */
  lemma MergeReads(s: State, f: Files, m: Merge)
    requires VersionReads(s.f) && Numbering(s) && MergeOutput(s.f, m) && MergeInput(s.f, m)
    requires m.smallest <= s.f.horizon < MAX_SEQUENCE && f == s.f.(current := ApplyEdit(s.f.current, MergeEdit(s.f, m)), pending := f.pending)
    ensures VersionReads(f)
  {
    hide Sorted, Separated, Keep, Layers;
    var rest := Union(s.f.tables, s.f.current.version - m.inputs);
    UnionSplit(s.f.tables, s.f.current.version, m.inputs);
    UnionPlus(s.f.tables, s.f.current.version - m.inputs, m.outputs);
    assert DbBefore(m.input, rest) == Tables(s.f);
    assert DbAfter(m.input, rest, m.smallest, m.levels) == Tables(f);
    assert UniqueNumbers(Tables(s.f));
    UniqueIsDistinct(Tables(s.f));
    AfterIsSubset(m.input, rest, m.smallest, m.levels);
    forall k: UserKey, n: nat | s.f.horizon <= n ensures Read(Tables(f), k, n) == Read(s.f.flushed, k, n) {
      CompactionPreservesReads(m.input, rest, m.smallest, m.levels, k, n);
    }
  }

  /** The output files that the merge loop wrote hold what MergeDone asks for. */
  lemma WrittenIsOutput(f: Files, m: Merge, plan: Plan, files: seq<nat>)
    requires plan.Valid() && plan.input == m.input && plan.smallest == m.smallest && plan.levels == m.levels
    requires var cut := Cut(plan, |plan.input|);
      && |files| == |cut| && m.outputs == (set n | n in files)
      && forall i :: 0 <= i < |files| ==> files[i] in f.tables && f.tables[files[i]] == Entries(cut[i])
    ensures MergeOutput(f, m)
  {
    CutIsKeep(plan, |plan.input|);
    hide Keep, Flatten, Cut;
    var cut := Cut(plan, |plan.input|);
    forall e ensures e in Union(f.tables, m.outputs) <==> e in Entries(Flatten(cut)) {
      FlattenHas(cut, e);
      if i :| 0 <= i < |cut| && e in cut[i] {
        assert files[i] in m.outputs && e in f.tables[files[i]];
      }
    }
  }

  /** Deleting what is obsolete deletes nothing that is in use. */
  lemma CollectSame(f: Files, v: Views, held: set<nat>, fs: set<nat>)
    requires fs <= Live(f, v, held)
    ensures SameFiles(f.tables, Collected(f, v, held).tables, fs)
    ensures Union(f.tables, fs) == Union(Collected(f, v, held).tables, fs)
    ensures fs <= f.tables.Keys ==> fs <= Collected(f, v, held).tables.Keys
  {
    assert SameFiles(f.tables, Collected(f, v, held).tables, fs);
    UnionSame(f.tables, Collected(f, v, held).tables, fs);
  }

  lemma CollectKeepsStorage(s: State, held: set<nat>, m: Memory)
    requires StorageOk(s) && m == s.m.(logs := m.logs)
    requires s.b.bg.Idle? || s.b.bg.Called? || (s.b.bg.Running? && s.b.bg.job.Merging?)
    ensures StorageOk(s.(f := Collected(s.f, s.v, held), m := m))
  {
    hide SameReads, MergeOutput, Union;
    var f := Collected(s.f, s.v, held);
    CollectSame(s.f, s.v, held, s.f.current.version);
    assert Tables(f) == Tables(s.f);
    forall r | r in s.v.readers ensures s.v.readers[r].version <= f.tables.Keys {
      CollectSame(s.f, s.v, held, s.v.readers[r].version);
    }
    if s.b.bg.Running? && s.b.bg.merge.Some? {
      var g := s.b.bg.merge.value;
      CollectSame(s.f, s.v, held, g.inputs);
      CollectSame(s.f, s.v, held, s.f.current.version - g.inputs);
      CollectSame(s.f, s.v, held, g.outputs);
      assert MergeInput(f, g);
    }
    hide MergeInput;
  }

  /** The state after a flush's version is installed, before anything is deleted. */
  ghost function AfterInstallFlush(s: State, needs: bool): State
    requires s.b.bg.Running? && s.b.bg.job.Written?
  {
    s.(f := s.f.(current := ApplyEdit(s.f.current, s.b.bg.job.edit), flushed := s.f.flushed + Imm(s.m)),
       m := s.m.(imm := None), b := AfterFlush(s.b, None, needs))
  }

  lemma InstallFlushOk(s: State, needs: bool)
    requires WorkEnabled(s, InstallFlush(needs)) && s.b.bg.job.ok
    requires StorageOk(s) && Numbering(s) && Scheduling(s.b, s.m.imm)
    ensures StorageOk(AfterInstallFlush(s, needs))
  {
    var t := AfterInstallFlush(s, needs);
    var e := s.b.bg.job.edit;
    FlushReads(s, t.f, e);
    if s.b.bg.merge.Some? {
      FlushBesideMerge(s, t.f, e, s.b.bg.merge.value);
    }
    hide Numbering, MergeInput, MergeOutput, Union, SameReads, VersionReads, MaybeSchedule;
    assert t.f.tables == s.f.tables && t.v == s.v;
  }

  ghost function AfterInstallMerge(s: State, needs: bool): State
    requires s.b.bg.Running? && s.b.bg.job.Written? && s.b.bg.merge.Some?
  {
    var m := s.b.bg.merge.value;
    s.(f := s.f.(current := ApplyEdit(s.f.current, s.b.bg.job.edit), pending := s.f.pending - m.outputs),
       b := EndCall(Served(s.b, m), s.m.imm, needs))
  }

  lemma InstallMergeOk(s: State, needs: bool)
    requires WorkEnabled(s, InstallMerge(needs)) && s.b.bg.job.ok
    requires StorageOk(s) && Numbering(s) && Scheduling(s.b, s.m.imm)
    ensures StorageOk(AfterInstallMerge(s, needs))
  {
    var t := AfterInstallMerge(s, needs);
    MergeReads(s, t.f, s.b.bg.merge.value);
    hide Numbering, MergeInput, MergeOutput, Union, SameReads, VersionReads;
  }

  /** A move changes no set of files. */
  lemma MoveKeepsVersion(m: Manifest, e: Edit)
    requires e.added == e.deleted <= m.version && e.logNumber == m.logNumber
    ensures ApplyEdit(m, e) == m
  {
    assert m.version - e.deleted + e.added == m.version;
  }

  lemma MoveKeepsStorage(s: State, a: WorkStep)
    requires WorkEnabled(s, a) && StorageOk(s) && Scheduling(s.b, s.m.imm)
    requires a.BgMove? || (a.InstallMove? && s.b.bg.job.ok)
    ensures StorageOk(DoWork(s, a))
  {
    hide Union, SameReads, VersionReads, MergeInput, MergeOutput;
    if a.InstallMove? {
      MoveKeepsVersion(s.f.current, s.b.bg.job.edit);
      assert DoWork(s, a).f == s.f;
    }
  }

  lemma WorkKeepsStorage(s: State, a: WorkStep)
    requires WorkEnabled(s, a) && StorageOk(s) && Numbering(s) && Scheduling(s.b, s.m.imm)
    ensures StorageOk(DoWork(s, a))
  {
    hide StorageOk, Numbering, Live;
    match a {
      case BgFlush => BeginFlushKeepsStorage(s, None);
      case FlushInMerge => BeginFlushKeepsStorage(s, s.b.bg.merge);
      case BgMerge(m) => BgMergeKeepsStorage(s, m);
      case BuildTable(ok) => BuildKeepsStorage(s, ok);
      case FlushRelock(ok, needs) => RelockKeepsStorage(s, ok, needs);
      case MergeOpen => OpenKeepsStorage(s);
      case MergeWrite(n, es) => WriteKeepsStorage(s, n, es);
      case InstallFlush(needs) =>
        if s.b.bg.job.ok {
          var t := AfterInstallFlush(s, needs);
          InstallFlushOk(s, needs);
          CollectKeepsStorage(t, if s.b.bg.merge.Some? then s.b.bg.merge.value.base else {}, CollectedLogs(t.m, t.f.current.logNumber));
        } else {
          QuietKeepsStorage(s, a);
        }
      case InstallMerge(needs) =>
        if s.b.bg.job.ok {
          var t := AfterInstallMerge(s, needs);
          InstallMergeOk(s, needs);
          CollectKeepsStorage(t, {}, CollectedLogs(t.m, t.f.current.logNumber));
        } else {
          QuietKeepsStorage(s, a);
        }
      case BgMove(_) => MoveKeepsStorage(s, a);
      case InstallMove(_) => if s.b.bg.job.ok { MoveKeepsStorage(s, a); } else { QuietKeepsStorage(s, a); }
      case _ => QuietKeepsStorage(s, a);
    }
  }
}
