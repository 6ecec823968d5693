/** Group commit: what each answered writer was promised. */
module DatabaseAcks {
  import opened Keys
  import opened Database
  import opened DatabaseQueue
  import opened DatabaseMemory

  // ---------- numbers ----------

  /** The batches take adjacent ranges of numbers, from base + 1 up to last, in the order they are
      answered. A writer that failed before a group was formed takes none. */
  ghost predicate Adjacent(base: nat, acks: seq<Ack>, last: nat)
    decreases |acks|
  {
    if acks == [] then base == last
    else
      var a := acks[|acks| - 1];
      var n := |a.entries|;
      && base + n <= last <= MAX_SEQUENCE
      && ((n == 0 && !a.ok) || (|OpsOf(a.writer)| == n && a.entries == Numbered(last - n, OpsOf(a.writer))))
      && Adjacent(base, acks[..|acks| - 1], last - n)
  }

  lemma NumberedConcat(last: nat, a: seq<Op>, b: seq<Op>)
    requires last + |a| + |b| <= MAX_SEQUENCE
    ensures Numbered(last, a + b) == Numbered(last, a) + Numbered(last + |a|, b)
  {
  }

  lemma AdjacentNext(base: nat, acks: seq<Ack>, last: nat, a: Ack)
    requires Adjacent(base, acks, last) && base <= last && last + |a.entries| <= MAX_SEQUENCE
    requires (a.entries == [] && !a.ok) || (|OpsOf(a.writer)| == |a.entries| && a.entries == Numbered(last, OpsOf(a.writer)))
    ensures Adjacent(base, acks + [a], last + |a.entries|)
  {
    assert (acks + [a])[..|acks|] == acks;
  }

  lemma {:induction false} AdjacentAnswers(base: nat, acks: seq<Ack>, ws: seq<Writer>, ok: bool, last: nat, log: nat, index: nat)
    requires Adjacent(base, acks, last) && base <= last && last + |GroupOps(ws)| <= MAX_SEQUENCE
    ensures Adjacent(base, acks + Answers(ws, ok, last, log, index), last + |GroupOps(ws)|)
    decreases |ws|
  {
    hide Numbered, Adjacent;
    var answers := Answers(ws, ok, last, log, index);
    if ws == [] {
      assert acks + answers == acks;
    } else {
      var n := |ws| - 1;
      var before := Answers(ws[..n], ok, last, log, index);
      AdjacentAnswers(base, acks, ws[..n], ok, last, log, index);
      AdjacentNext(base, acks + before, last + |GroupOps(ws[..n])|, answers[n]);
      assert acks + answers == acks + before + [answers[n]];
    }
  }

  lemma {:induction false} AdjacentBelow(base: nat, acks: seq<Ack>, last: nat)
    requires Adjacent(base, acks, last)
    ensures base <= last
    ensures forall a, e :: a in acks && e in a.entries ==> base < e.sequence <= last
    decreases |acks|
  {
    if acks != [] {
      var n := |acks| - 1;
      AdjacentBelow(base, acks[..n], last - |acks[n].entries|);
      forall a, e | a in acks && e in a.entries ensures base < e.sequence <= last {
        if a != acks[n] {
          assert a in acks[..n];
        } else {
          var i :| 0 <= i < |a.entries| && a.entries[i] == e;
        }
      }
    }
  }

  // ---------- statuses ----------

  /** A batch answered OK is wholly inserted, one answered with an error not at all. */
  ghost predicate AllOrNothing(acks: seq<Ack>, db: set<Entry>) {
    forall a :: a in acks ==> if a.ok then Entries(a.entries) <= db else Entries(a.entries) !! db
  }

  /** A point in the numbering that divides no batch. */
  ghost predicate Divides(acks: seq<Ack>, p: nat) {
    forall a :: a in acks ==>
      (forall e :: e in a.entries ==> e.sequence <= p) || (forall e :: e in a.entries ==> e.sequence > p)
  }

  /** The batch lies in one record of a memtable's log, whose append succeeded and which a sync has
      covered if the writer asked. */
  ghost predicate InRecord(a: Ack, m: Memory) {
    && (a.log == m.logfile || m.imm == Some(a.log)) && a.log in m.logs
    && a.index < |m.logs[a.log].writes| && Entries(a.entries) <= Entries(Reached(m.logs[a.log].writes[a.index]))
    && (a.writer.sync ==> a.index < m.logs[a.log].synced)
  }

  /** A batch answered OK is in a table or in a record. */
  ghost predicate Kept(acks: seq<Ack>, flushed: set<Entry>, m: Memory) {
    forall a :: a in acks && a.ok ==> Entries(a.entries) <= flushed || InRecord(a, m)
  }

  /** The record of the group under way is the last of the log, and synced if its leader asked for it. */
  ghost predicate RecordLogged(q: Queue, m: Memory) {
    q.phase.Syncing? || q.phase.Inserting? ==>
      && m.logfile in m.logs
      && var l := m.logs[m.logfile];
         && |l.writes| > 0 && Reached(l.writes[|l.writes| - 1]) == q.phase.entries
         && (q.phase.Inserting? && q.writers != [] && q.writers[0].sync ==> l.synced == |l.writes|)
  }

  ghost predicate AcksOk(s: State) {
    && Adjacent(s.base, s.q.acks, s.q.lastSequence)
    && AllOrNothing(s.q.acks, History(s))
    && Kept(s.q.acks, s.f.flushed, s.m)
    && RecordLogged(s.q, s.m)
    && (forall p :: p in s.v.snapshots ==> Divides(s.q.acks, p) && p <= s.q.lastSequence)
  }

  // ---------- the answers to one group ----------

  lemma {:induction false} AnswersAre(ws: seq<Writer>, ok: bool, last: nat, log: nat, index: nat)
    requires last + |GroupOps(ws)| <= MAX_SEQUENCE
    ensures forall a :: a in Answers(ws, ok, last, log, index) ==>
      && a.ok == ok && a.log == log && a.index == index && a.writer in ws
      && Entries(a.entries) <= Entries(Numbered(last, GroupOps(ws)))
    decreases |ws|
  {
    if ws != [] {
      var n := |ws| - 1;
      AnswersAre(ws[..n], ok, last, log, index);
      NumberedConcat(last, GroupOps(ws[..n]), OpsOf(ws[n]));
      hide Numbered;
      forall a | a in Answers(ws, ok, last, log, index)
        ensures a.ok == ok && a.log == log && a.index == index && a.writer in ws
        ensures Entries(a.entries) <= Entries(Numbered(last, GroupOps(ws)))
      {
        if a in Answers(ws[..n], ok, last, log, index) {
          assert a.writer in ws[..n];
        }
      }
    }
  }

  lemma NewStatuses(acks: seq<Ack>, answers: seq<Ack>, ok: bool, es: set<Entry>, db: set<Entry>)
    requires AllOrNothing(acks, db) && (if ok then es <= db else es !! db)
    requires forall a :: a in answers ==> a.ok == ok && Entries(a.entries) <= es
    ensures AllOrNothing(acks + answers, db)
  {
    hide Entries;
  }

  lemma NewKept(acks: seq<Ack>, answers: seq<Ack>, flushed: set<Entry>, m: Memory, record: seq<Entry>)
    requires Kept(acks, flushed, m) && m.logfile in m.logs
    requires var l := m.logs[m.logfile]; |l.writes| > 0 && Reached(l.writes[|l.writes| - 1]) == record
    requires forall a :: a in answers ==>
      && a.log == m.logfile && a.index == LastIndex(m.logs[m.logfile]) && Entries(a.entries) <= Entries(record)
      && (a.writer.sync ==> m.logs[m.logfile].synced == |m.logs[m.logfile].writes|)
    ensures Kept(acks + answers, flushed, m)
  {
    hide Entries;
  }

  lemma NewDivides(acks: seq<Ack>, answers: seq<Ack>, es: set<Entry>, p: nat)
    requires Divides(acks, p) && forall e :: e in es ==> e.sequence > p
    requires forall a :: a in answers ==> Entries(a.entries) <= es
    ensures Divides(acks + answers, p)
  {
    forall a | a in acks + answers
      ensures (forall e :: e in a.entries ==> e.sequence <= p) || (forall e :: e in a.entries ==> e.sequence > p)
    {
      if a in answers {
        assert forall e :: e in a.entries ==> e in Entries(a.entries);
      }
    }
  }

  lemma FirstAsksForSync(q: Queue)
    requires Shape(q) && !q.phase.Waiting?
    ensures q.writers != [] && q.phase.count <= |q.writers|
    ensures forall w :: w in q.writers[..q.phase.count] && w.sync ==> q.writers[0].sync
  {
    hide GroupOps, Numbered;
  }

  /** What the writers of a group that is done are answered. */
  lemma FinishAnswers(s: State) returns (answers: seq<Ack>)
    requires QueueEnabled(s, Finish) && Shape(s.q) && Adjacent(s.base, s.q.acks, s.q.lastSequence) && s.base <= s.q.lastSequence
    ensures DoQueue(s, Finish).q.acks == s.q.acks + answers
    ensures Adjacent(s.base, s.q.acks + answers, DoQueue(s, Finish).q.lastSequence)
    ensures forall a :: a in answers ==>
      && a.ok == s.q.phase.Inserting? && a.log == s.m.logfile && a.index == LastIndex(s.m.logs[s.m.logfile])
      && (a.writer.sync ==> s.q.writers[0].sync) && Entries(a.entries) <= Entries(s.q.phase.entries)
    ensures forall e :: e in s.q.phase.entries ==> e.sequence > s.q.lastSequence
  {
    hide GroupOps, Answers, Adjacent, Entries, Numbered, AppendTo, SyncMemory, Insert, SwitchMemory, MaybeSchedule,
         LastIndex;
    var ws := s.q.writers[..s.q.phase.count];
    var log, index := s.m.logfile, LastIndex(s.m.logs[s.m.logfile]);
    answers := Answers(ws, s.q.phase.Inserting?, s.q.lastSequence, log, index);
    AdjacentAnswers(s.base, s.q.acks, ws, s.q.phase.Inserting?, s.q.lastSequence, log, index);
    AnswersAre(ws, s.q.phase.Inserting?, s.q.lastSequence, log, index);
    FirstAsksForSync(s.q);
    forall e | e in s.q.phase.entries ensures e.sequence > s.q.lastSequence {
    }
  }

  lemma FinishChanges(s: State)
    requires QueueEnabled(s, Finish) && Shape(s.q)
    ensures var t := DoQueue(s, Finish);
      && t.f == s.f && t.m == s.m && t.v == s.v && t.base == s.base && t.q.phase.Waiting?
      && t.q.lastSequence == s.q.lastSequence + |s.q.phase.entries| && History(t) == History(s)
  {
    hide GroupOps, Answers, Numbered, AppendTo, SyncMemory, Insert, SwitchMemory, MaybeSchedule, LastIndex, Mem, Imm;
  }

  /** Who is answered OK has all entries of the group inserted, who is not has none. */
  lemma GroupStatus(s: State)
    requires QueueEnabled(s, Finish) && Shape(s.q) && Numbering(s)
    ensures var es := Entries(s.q.phase.entries); if s.q.phase.Inserting? then es <= History(s) else es !! History(s)
  {
    hide GroupOps, MayLead, Layers, UniqueNumbers;
    if !s.q.phase.Inserting? {
      forall e | e in s.q.phase.entries ensures e.sequence > s.q.lastSequence {
      }
    }
  }

  lemma FinishKeepsAcks(s: State)
    requires QueueEnabled(s, Finish) && Shape(s.q) && AcksOk(s) && Numbering(s)
    ensures AcksOk(DoQueue(s, Finish))
  {
    hide DoQueue, Adjacent, History, Divides, AllOrNothing, Shape, Kept, Layers, UniqueNumbers, Bounded, Entries;
    var t := DoQueue(s, Finish);
    var es := Entries(s.q.phase.entries);
    var answers := FinishAnswers(s);
    FinishChanges(s);
    GroupStatus(s);
    FirstAsksForSync(s.q);
    NewStatuses(s.q.acks, answers, s.q.phase.Inserting?, es, History(s));
    if s.q.phase.Inserting? {
      NewKept(s.q.acks, answers, s.f.flushed, s.m, s.q.phase.entries);
    } else {
      NoNewKept(s.q.acks, answers, s.f.flushed, s.m);
    }
    forall p | p in s.v.snapshots ensures Divides(t.q.acks, p) {
      SequencesOf(s.q.phase.entries, s.q.lastSequence);
      NewDivides(s.q.acks, answers, es, p);
    }
  }

  lemma NoNewKept(acks: seq<Ack>, answers: seq<Ack>, flushed: set<Entry>, m: Memory)
    requires Kept(acks, flushed, m) && forall a :: a in answers ==> !a.ok
    ensures Kept(acks + answers, flushed, m)
  {
    hide Entries, InRecord;
  }

  lemma SequencesOf(es: seq<Entry>, last: nat)
    requires forall e :: e in es ==> e.sequence > last
    ensures forall e :: e in Entries(es) ==> e.sequence > last
  {
  }

  // ---------- the other steps ----------

  lemma SwitchKeepsKept(acks: seq<Ack>, flushed: set<Entry>, m: Memory, newLog: nat)
    requires Kept(acks, flushed, m) && m.imm.None? && newLog !in m.logs
    ensures Kept(acks, flushed, SwitchMemory(m, newLog))
  {
    hide Entries;
  }

  lemma AnswerOne(s: State, a: Ack)
    requires AcksOk(s) && a.entries == [] && (a.ok ==> OpsOf(a.writer) == [])
    requires s.q.writers != [] && s.q.phase.Waiting? && s.base <= s.q.lastSequence <= MAX_SEQUENCE
    ensures AcksOk(s.(q := Pop(s.q, 1, [a])))
  {
    AdjacentNext(s.base, s.q.acks, s.q.lastSequence, a);
    hide Adjacent;
    assert Entries(a.entries) == {};
  }

  lemma InsertKeepsStatuses(s: State, e: Entry)
    requires AllOrNothing(s.q.acks, History(s)) && Adjacent(s.base, s.q.acks, s.q.lastSequence) && e.sequence > s.q.lastSequence
    ensures AllOrNothing(s.q.acks, History(s) + {e})
  {
    AdjacentBelow(s.base, s.q.acks, s.q.lastSequence);
    hide History, Adjacent;
    forall a | a in s.q.acks && !a.ok ensures Entries(a.entries) !! History(s) + {e} {
      assert e !in a.entries;
    }
  }

  lemma LogChangeKeepsKept(acks: seq<Ack>, flushed: set<Entry>, m: Memory, l: LogFile)
    requires Kept(acks, flushed, m) && m.logfile in m.logs
    requires m.logs[m.logfile].synced <= l.synced && m.logs[m.logfile].writes <= l.writes
    ensures Kept(acks, flushed, m.(logs := m.logs[m.logfile := l]))
  {
    hide Entries;
  }

  lemma AppendKeepsAcks(s: State, lostAt: Option<nat>)
    requires QueueEnabled(s, Append(lostAt)) && Shape(s.q) && AcksOk(s)
    ensures AcksOk(DoQueue(s, Append(lostAt)))
  {
    hide Adjacent, GroupOps, Divides, AllOrNothing, Kept, Entries, Numbered, MayLead;
    var t := DoQueue(s, Append(lostAt));
    LogChangeKeepsKept(s.q.acks, s.f.flushed, s.m, AppendTo(s.m.logs[s.m.logfile], s.q.phase.entries, lostAt));
    assert History(t) == History(s);
    hide History;
  }

  lemma SyncKeepsAcks(s: State, ok: bool)
    requires QueueEnabled(s, Sync(ok)) && Shape(s.q) && AcksOk(s) && LogOk(s.m.logs[s.m.logfile])
    ensures AcksOk(DoQueue(s, Sync(ok)))
  {
    hide Adjacent, GroupOps, Divides, AllOrNothing, Kept, Entries, Numbered, MayLead;
    var t := DoQueue(s, Sync(ok));
    var l := s.m.logs[s.m.logfile];
    if ok {
      LogChangeKeepsKept(s.q.acks, s.f.flushed, s.m, l.(synced := |l.writes|));
    } else {
      OrphansDoNotMatter(s.q.acks, s.f.flushed, s.m, t.m);
    }
    assert History(t) == History(s);
    hide History;
  }

  lemma OrphansDoNotMatter(acks: seq<Ack>, flushed: set<Entry>, m: Memory, m': Memory)
    requires Kept(acks, flushed, m) && m' == m.(memtables := m'.memtables, orphans := m'.orphans)
    ensures Kept(acks, flushed, m')
  {
    hide Entries;
  }

  lemma InsertChanges(s: State)
    requires QueueEnabled(s, InsertOne) && Shape(s.q)
    ensures var t := DoQueue(s, InsertOne);
      && t.f == s.f && t.v == s.v && t.base == s.base
      && t.q == s.q.(phase := s.q.phase.(next := s.q.phase.next + 1))
      && t.m == s.m.(memtables := t.m.memtables)
    ensures s.q.phase.entries[s.q.phase.next].sequence > s.q.lastSequence
  {
    hide GroupOps, MayLead, Mem;
  }

  lemma InsertKeepsAcks(s: State)
    requires QueueEnabled(s, InsertOne) && Shape(s.q) && AcksOk(s) && Numbering(s) && Placement(s)
    ensures AcksOk(DoQueue(s, InsertOne))
  {
    hide Adjacent, Divides, AllOrNothing, Kept, Shape, Numbering, Placement, History, Entries, DoQueue;
    InsertChanges(s);
    InsertKeeps(s);
    InsertKeepsStatuses(s, s.q.phase.entries[s.q.phase.next]);
    OrphansDoNotMatter(s.q.acks, s.f.flushed, s.m, DoQueue(s, InsertOne).m);
  }

  lemma SwitchKeepsAcks(s: State, needs: bool)
    requires AcksOk(s) && Numbering(s) && Placement(s) && s.m.imm.None? && s.q.phase.Waiting? && s.nextFile !in s.m.logs
    ensures AcksOk(Switch(s, needs))
  {
    SwitchKeeps(s, needs);
    SwitchKeepsKept(s.q.acks, s.f.flushed, s.m, s.nextFile);
    hide Adjacent, Divides, AllOrNothing, Kept, Numbering, Placement, History, SwitchMemory;
  }

  lemma QueueKeepsAcks(s: State, a: QueueStep)
    requires QueueEnabled(s, a) && Shape(s.q) && AcksOk(s) && Numbering(s) && Placement(s) && Logged(s)
    ensures AcksOk(DoQueue(s, a))
  {
    assert s.nextFile !in s.m.logs;
    match a {
      case Append(lostAt) => AppendKeepsAcks(s, lostAt);
      case Sync(ok) => SyncKeepsAcks(s, ok);
      case InsertOne => InsertKeepsAcks(s);
      case Finish => FinishKeepsAcks(s);
      case _ => LeadKeepsAcks(s, a);
    }
  }

  lemma PopKeepsMemory(s: State, s': State)
    requires Numbering(s) && Placement(s) && s.q.phase.Waiting?
    requires s' == s.(q := s'.q) && s'.q.phase.Waiting? && s'.q.lastSequence == s.q.lastSequence
    ensures Numbering(s') && Placement(s')
  {
    hide Layers, UniqueNumbers;
    assert History(s') == History(s);
  }

  lemma LeadKeepsAcks(s: State, a: QueueStep)
    requires QueueEnabled(s, a) && Shape(s.q) && AcksOk(s) && Numbering(s) && Placement(s) && s.nextFile !in s.m.logs
    requires a.Enqueue? || a.LeadFails? || a.LeadNull? || a.LeadWrite?
    ensures AcksOk(DoQueue(s, a))
  {
    hide Adjacent, GroupOps, Divides, MaybeSchedule, AllOrNothing, Kept, Numbered, Layers, UniqueNumbers, Bounded;
    match a {
      case Enqueue(w) =>
        assert s.q.writers != [] ==> (s.q.writers + [w])[0] == s.q.writers[0];
        assert History(DoQueue(s, a)) == History(s);
      case LeadFails => AnswerOne(s, Ack(s.q.writers[0], false, [], 0, 0));
      case LeadNull(needs) =>
        AnswerOne(s, Ack(s.q.writers[0], true, [], 0, 0));
        var s' := s.(q := Pop(s.q, 1, [Ack(s.q.writers[0], true, [], 0, 0)]));
        PopKeepsMemory(s, s');
        SwitchKeepsAcks(s', needs);
      case LeadWrite(size, switch, needs) =>
        if switch {
          SwitchKeepsAcks(s, needs);
        }
        var s' := if switch then Switch(s, needs) else s;
        assert History(s'.(q := Lead(s.q, size))) == History(s');
    }
  }

  lemma ViewKeepsAcks(s: State, a: ViewStep)
    requires ViewEnabled(s, a) && AcksOk(s)
    ensures AcksOk(DoView(s, a))
  {
    hide Adjacent, AllOrNothing, Kept, MaybeSchedule, RecordLogged;
    assert History(DoView(s, a)) == History(s);
    hide History;
    AdjacentBelow(s.base, s.q.acks, s.q.lastSequence);
    assert Divides(s.q.acks, s.q.lastSequence);
    hide Divides;
    forall p | p in DoView(s, a).v.snapshots ensures p == s.q.lastSequence || p in s.v.snapshots {
    }
  }

  lemma FlushKeepsKept(acks: seq<Ack>, s: State, flushed: set<Entry>, m: Memory)
    requires Kept(acks, s.f.flushed, s.m) && Logged(s) && s.m.imm.Some?
    requires flushed == s.f.flushed + Imm(s.m) && m.imm == None && m.logfile == s.m.logfile
    requires m.logfile in m.logs && m.logs[m.logfile] == s.m.logs[s.m.logfile]
    ensures Kept(acks, flushed, m)
  {
    forall a | a in acks && a.ok ensures Entries(a.entries) <= flushed || InRecord(a, m) {
      if s.m.imm == Some(a.log) && !(Entries(a.entries) <= s.f.flushed) {
        assert Entries(Reached(s.m.logs[a.log].writes[a.index])) <= LogSet(s.m.logs[a.log]);
      }
    }
  }

  /** What a step of the worker may do to answers that were given. */
  lemma WorkKeepsAcks(s: State, a: WorkStep)
    requires WorkEnabled(s, a) && AcksOk(s) && Numbering(s) && Placement(s) && Logged(s) && EditLog(s) && Scheduling(s.b, s.m.imm)
    ensures AcksOk(DoWork(s, a))
  {
    hide DoWork, WorkEnabled, Numbering, Placement, EditLog, Scheduling, Kept, Adjacent, AllOrNothing, Divides, History;
    var t := DoWork(s, a);
    WorkKeepsMemory(s, a);
    WorkKeepsLogs(s, a);
    WorkChanges(s, a);
    if t.m.imm != s.m.imm {
      FlushKeepsKept(s.q.acks, s, t.f.flushed, t.m);
    } else {
      SameLogsKept(s.q.acks, s.f.flushed, s.m, t.m);
    }
    hide Logged;
  }

  lemma SameLogsKept(acks: seq<Ack>, flushed: set<Entry>, m: Memory, m': Memory)
    requires Kept(acks, flushed, m) && m'.logfile == m.logfile && m'.imm == m.imm
    requires forall n :: (n == m.logfile || m.imm == Some(n)) && n in m.logs ==> n in m'.logs && m'.logs[n] == m.logs[n]
    ensures Kept(acks, flushed, m')
  {
    hide Entries;
  }

  lemma WorkChanges(s: State, a: WorkStep)
    requires WorkEnabled(s, a) && Logged(s) && EditLog(s) && Scheduling(s.b, s.m.imm)
    ensures var t := DoWork(s, a);
      && t.q == s.q && t.v == s.v && t.base == s.base && t.m.logfile == s.m.logfile
      && (if t.m.imm == s.m.imm then
            && t.f.flushed == s.f.flushed
            && forall n :: (n == s.m.logfile || s.m.imm == Some(n)) && n in s.m.logs ==> n in t.m.logs && t.m.logs[n] == s.m.logs[n]
          else
            && s.m.imm.Some? && t.m.imm.None? && t.f.flushed == s.f.flushed + Imm(s.m)
            && t.m.logfile in t.m.logs && t.m.logs[t.m.logfile] == s.m.logs[s.m.logfile])
  {
    hide Live, MergeInput, MergeOutput, MaybeSchedule, LogEntries, Mem, Imm;
  }
}
