/** Readers: what a Get or an iterator captured keeps answering for its snapshot. */
module DatabaseReaders {
  import opened Keys
  import opened Database
  import opened DatabaseMemory
  import opened DatabaseStorage

  function CapturedMem(m: Memory, r: Reader): set<Entry> {
    Lookup(m.memtables, r.mem)
  }

  function CapturedImm(m: Memory, r: Reader): set<Entry> {
    if r.imm.Some? then Lookup(m.memtables, r.imm.value) else {}
  }

  ghost function CapturedTables(f: Files, r: Reader): set<Entry> {
    Union(f.tables, r.version)
  }

  /** DBImpl::Get without the mutex: the memtable, then the immutable one, then the version. */
  ghost function LayeredGet(mem: set<Entry>, imm: set<Entry>, tables: set<Entry>, k: UserKey, s: nat): Option<Value> {
    var inMem := Newest(mem, k, s);
    var inImm := Newest(imm, k, s);
    if inMem.Some? then (if inMem.value.kind == Put then Some(inMem.value.value) else None)
    else if inImm.Some? then (if inImm.value.kind == Put then Some(inImm.value.value) else None)
    else Read(tables, k, s)
  }

  /** Because each layer holds only newer entries, the first hit is the newest entry of all. */
  lemma LayeredGetIsRead(mem: set<Entry>, imm: set<Entry>, tables: set<Entry>, k: UserKey, s: nat)
    requires Layers(tables, imm, mem) && UniqueNumbers(tables + imm + mem)
    ensures LayeredGet(mem, imm, tables, k, s) == Read(tables + imm + mem, k, s)
  {
    hide IsNewest, Newest;
    ReadThroughLayer(tables + imm, mem, k, s);
    ReadThroughLayer(tables, imm, k, s);
    if forall f :: f in mem ==> !Visible(f, k, s) {
      NewestIsNone(mem, k, s);
      if forall f :: f in imm ==> !Visible(f, k, s) {
        NewestIsNone(imm, k, s);
      }
    }
  }

  ghost predicate ReaderOk(s: State, r: Reader) {
    var mem, imm, tables := CapturedMem(s.m, r), CapturedImm(s.m, r), CapturedTables(s.f, r);
    && r.snapshot <= s.q.lastSequence
    && r.mem in s.m.memtables && r.mem <= s.m.logfile
    && (r.imm.Some? ==> r.imm.value in s.m.memtables && r.imm.value < r.mem)
    && Layers(tables, imm, mem) && tables + imm + mem <= History(s)
    && forall k: UserKey :: Read(tables + imm + mem, k, r.snapshot) == Read(History(s), k, r.snapshot)
  }

  ghost predicate ReadersOk(s: State) {
    forall r :: r in s.v.readers ==> ReaderOk(s, s.v.readers[r])
  }

  /** Entries numbered above a snapshot do not exist for it. */
  lemma ReadIgnoresLater(db: set<Entry>, later: set<Entry>, k: UserKey, s: nat)
    requires UniqueNumbers(db + later) && forall e :: e in later ==> e.sequence > s
    ensures Read(db + later, k, s) == Read(db, k, s)
  {
    UniqueIsDistinct(db + later);
    if e :| e in db && Visible(e, k, s) {
      NewestExists(db, k, s, e);
      var n :| IsNewest(db, k, s, n);
      assert IsNewest(db + later, k, s, n);
      NewestIs(db, k, s, n);
      NewestIs(db + later, k, s, n);
    } else {
      NewestIsNone(db, k, s);
      NewestIsNone(db + later, k, s);
    }
  }

  /** What a reader needs of a step: its memtables only gain later entries, its tables stay. */
  ghost predicate ReaderUndisturbed(s: State, t: State, r: Reader) {
    && CapturedTables(t.f, r) == CapturedTables(s.f, r)
    && CapturedImm(t.m, r) == CapturedImm(s.m, r) && CapturedMem(t.m, r) == CapturedMem(s.m, r)
    && History(t) == History(s)
    && s.q.lastSequence <= t.q.lastSequence && s.m.logfile <= t.m.logfile && s.m.memtables.Keys <= t.m.memtables.Keys
  }

  lemma UndisturbedOk(s: State, t: State)
    requires ReadersOk(s) && t.v.readers.Keys <= s.v.readers.Keys
    requires forall r :: r in t.v.readers ==> t.v.readers[r] == s.v.readers[r] && ReaderUndisturbed(s, t, s.v.readers[r])
    ensures ReadersOk(t)
  {
    hide Read, History, CapturedMem, CapturedImm, CapturedTables, Layers;
  }

  lemma InsertKeepsReader(s: State, t: State, r: Reader, e: Entry)
    requires ReaderOk(s, r) && UniqueNumbers(History(s) + {e}) && t.q.lastSequence == s.q.lastSequence
    requires e.sequence > s.q.lastSequence && forall x :: x in History(s) ==> x.sequence < e.sequence
    requires s.m.logfile in s.m.memtables
    requires t.m == Insert(s.m, e) && t.f == s.f && History(t) == History(s) + {e}
    ensures ReaderOk(t, r)
  {
    var mem, imm, tables := CapturedMem(s.m, r), CapturedImm(s.m, r), CapturedTables(s.f, r);
    assert CapturedImm(t.m, r) == imm && CapturedTables(t.f, r) == tables;
    assert CapturedMem(t.m, r) == if r.mem == s.m.logfile then mem + {e} else mem;
    hide CapturedMem, CapturedImm, CapturedTables, History, Insert;
    assert UniqueNumbers(tables + imm + mem + {e});
    assert tables + imm + (mem + {e}) == tables + imm + mem + {e};
    forall k: UserKey ensures Read(tables + imm + CapturedMem(t.m, r), k, r.snapshot) == Read(History(t), k, r.snapshot) {
      ReadIgnoresLater(History(s), {e}, k, r.snapshot);
      ReadIgnoresLater(tables + imm + mem, {e}, k, r.snapshot);
    }
  }

  lemma QueueKeepsReaders(s: State, a: QueueStep)
    requires QueueEnabled(s, a) && Shape(s.q) && Numbering(s) && Placement(s) && ReadersOk(s)
    ensures ReadersOk(DoQueue(s, a))
  {
    var t := DoQueue(s, a);
    if a.InsertOne? {
      var e := s.q.phase.entries[s.q.phase.next];
      InsertKeeps(s);
      assert e.sequence == s.q.lastSequence + 1 + s.q.phase.next;
      hide Numbered, GroupOps;
      forall r | r in t.v.readers ensures ReaderOk(t, t.v.readers[r]) {
        InsertKeepsReader(s, t, s.v.readers[r], e);
      }
    } else {
      hide GroupOps, Answers, AppendTo, MaybeSchedule, Numbered, Layers, UniqueNumbers, Bounded, Read;
      assert History(t) == History(s) by {
        if a.LeadNull? || (a.LeadWrite? && a.switch) {
          SwitchMoves(s.m, s.nextFile);
        }
      }
      assert forall n :: n in s.m.memtables ==> n in t.m.memtables && t.m.memtables[n] == s.m.memtables[n];
      hide History;
      UndisturbedOk(s, t);
    }
  }

  lemma CaptureOk(s: State, snapshot: Option<nat>)
    requires Numbering(s) && Placement(s) && StorageOk(s)
    requires snapshot.Some? ==> snapshot.value in s.v.snapshots
    ensures ReaderOk(s, Capture(s, snapshot))
  {
    hide WorkerOk, DiskOk, FilesExist, Read;
    var r := Capture(s, snapshot);
    var later := Imm(s.m) + Mem(s.m);
    assert s.f.flushed + later == History(s);
    SameReadsUnder(Tables(s.f), s.f.flushed, later, s.f.horizon);
    assert CapturedTables(s.f, r) + CapturedImm(s.m, r) + CapturedMem(s.m, r) == Tables(s.f) + later;
  }

  /** What was inserted, but for the group that is being inserted now. */
  ghost function Committed(s: State): set<Entry> {
    History(s) - if s.q.phase.Inserting? then Entries(s.q.phase.entries) else {}
  }

  lemma CommittedUpTo(s: State, e: Entry)
    requires Numbering(s) && Shape(s.q) && e in History(s)
    ensures e in Committed(s) <==> e.sequence <= s.q.lastSequence
  {
    hide Layers, UniqueNumbers, GroupOps, History;
  }

  /** Reading at the last sequence number is reading all that is committed, whatever its numbers. */
  lemma CommittedIsRead(s: State, k: UserKey)
    requires Numbering(s) && Shape(s.q)
    ensures Read(Committed(s), k, MAX_SEQUENCE) == Read(History(s), k, s.q.lastSequence)
  {
    forall e | e in History(s) ensures e in Committed(s) <==> e.sequence <= s.q.lastSequence {
      CommittedUpTo(s, e);
    }
    UniqueIsDistinct(History(s));
    hide Layers, Bounded, History, UniqueNumbers, Shape;
    var h, c, p := History(s), Committed(s), s.q.lastSequence;
    if e :| e in c && Visible(e, k, MAX_SEQUENCE) {
      assert Visible(e, k, p);
      NewestExists(h, k, p, e);
      var n :| IsNewest(h, k, p, n);
      assert IsNewest(c, k, MAX_SEQUENCE, n);
      NewestIs(h, k, p, n);
      NewestIs(c, k, MAX_SEQUENCE, n);
    } else {
      assert forall e :: e in h && Visible(e, k, p) ==> e in c && Visible(e, k, MAX_SEQUENCE);
      NewestIsNone(c, k, MAX_SEQUENCE);
      NewestIsNone(h, k, p);
    }
  }

  /** What a read that begins now is to answer: at a snapshot what was inserted up to its number, and
      without one all that is committed. */
  ghost function Wanted(s: State, snapshot: Option<nat>, k: UserKey): Option<Value> {
    if snapshot.Some? then Read(History(s), k, snapshot.value) else Read(Committed(s), k, MAX_SEQUENCE)
  }

  lemma CaptureReads(s: State, snapshot: Option<nat>, k: UserKey)
    requires Numbering(s) && Shape(s.q)
    ensures Read(History(s), k, Capture(s, snapshot).snapshot) == Wanted(s, snapshot, k)
  {
    CommittedIsRead(s, k);
    hide Numbering, Shape, History, Committed, Read;
  }

  /** A reader that begins captures layers that answer for all that is committed, or for its snapshot. */
  lemma ViewKeepsReaders(s: State, a: ViewStep)
    requires ViewEnabled(s, a) && Numbering(s) && Placement(s) && StorageOk(s) && ReadersOk(s) && Shape(s.q)
    ensures ReadersOk(DoView(s, a))
    ensures a.BeginRead? ==> a.reader in DoView(s, a).v.readers
    ensures a.BeginRead? ==> var t, r := DoView(s, a), DoView(s, a).v.readers[a.reader];
      forall k: UserKey :: Read(CapturedTables(t.f, r) + CapturedImm(t.m, r) + CapturedMem(t.m, r), k, r.snapshot) == Wanted(s, a.snapshot, k)
  {
    var t := DoView(s, a);
    if a.BeginRead? {
      CaptureOk(s, a.snapshot);
    }
    hide StorageOk, Numbering, Placement, Layers, Read, Union, MaybeSchedule, Shape, Wanted;
    assert t.m == s.m && t.f == s.f && t.q == s.q;
    assert History(t) == History(s);
    forall r | r in t.v.readers ensures ReaderOk(t, t.v.readers[r]) {
    }
    if a.BeginRead? {
      var r := t.v.readers[a.reader];
      hide History, CapturedMem, CapturedImm, CapturedTables;
      forall k: UserKey ensures Read(CapturedTables(t.f, r) + CapturedImm(t.m, r) + CapturedMem(t.m, r), k, r.snapshot) == Wanted(s, a.snapshot, k) {
        CaptureReads(s, a.snapshot, k);
      }
    }
  }

  lemma WorkFrame(s: State, a: WorkStep)
    requires WorkEnabled(s, a)
    ensures DoWork(s, a).v == s.v && DoWork(s, a).q == s.q
  {
    hide Live, MergeInput, MergeOutput, MaybeSchedule, EndCall;
  }

  lemma WorkKeepsReaders(s: State, a: WorkStep)
    requires WorkEnabled(s, a) && Numbering(s) && Placement(s) && StorageOk(s) && ReadersOk(s)
    ensures ReadersOk(DoWork(s, a))
  {
    hide DoWork, WorkEnabled, StorageOk, Numbering, Placement, Layers, Read, History, Union;
    var t := DoWork(s, a);
    WorkFrame(s, a);
    WorkKeepsMemory(s, a);
    forall r | r in s.v.readers ensures CapturedTables(t.f, s.v.readers[r]) == CapturedTables(s.f, s.v.readers[r]) {
      WorkKeepsVersion(s, a, r);
    }
    UndisturbedOk(s, t);
  }

  /** The files of a reader's version are neither written nor deleted. */
  lemma WorkKeepsVersion(s: State, a: WorkStep, r: nat)
    requires WorkEnabled(s, a) && StorageOk(s) && r in s.v.readers
    ensures Union(DoWork(s, a).f.tables, s.v.readers[r].version) == Union(s.f.tables, s.v.readers[r].version)
  {
    hide MergeInput, MergeOutput, SameReads, VersionReads, DiskOk, SnapshotsHeld;
    var t := DoWork(s, a);
    var fs := s.v.readers[r].version;
    assert SameFiles(s.f.tables, t.f.tables, fs);
    UnionSame(s.f.tables, t.f.tables, fs);
  }
}
