/** The write queue and the scheduling of background work, over every run. */
module DatabaseQueue {
  import opened Keys
  import opened Compaction
  import opened Database

  // ---------- every writer is answered once, in the order of arrival ----------

  ghost predicate InOrder(q: Queue) {
    && q.arrivals == AckIds(q.acks) + Ids(q.writers)
    && forall i, j :: 0 <= i < j < |q.arrivals| ==> q.arrivals[i] != q.arrivals[j]
  }

  lemma {:induction false} AnswersIds(ws: seq<Writer>, ok: bool, last: nat, log: nat, index: nat)
    requires last + |GroupOps(ws)| <= MAX_SEQUENCE
    ensures AckIds(Answers(ws, ok, last, log, index)) == Ids(ws)
  {
    hide Numbered;
    if ws != [] {
      var n := |ws| - 1;
      AnswersIds(ws[..n], ok, last, log, index);
      IdsDrop(ws, n);
      AckIdsConcat(Answers(ws[..n], ok, last, log, index), Answers(ws, ok, last, log, index)[n..]);
    }
  }

  lemma IdsDrop(ws: seq<Writer>, n: nat)
    requires n <= |ws|
    ensures Ids(ws) == Ids(ws[..n]) + Ids(ws[n..])
  {
  }

  lemma AckIdsConcat(a: seq<Ack>, b: seq<Ack>)
    ensures AckIds(a + b) == AckIds(a) + AckIds(b)
  {
  }

  lemma PopKeepsOrder(q: Queue, n: nat, acks: seq<Ack>)
    requires InOrder(q) && n <= |q.writers| && AckIds(acks) == Ids(q.writers[..n])
    ensures InOrder(Pop(q, n, acks))
  {
    IdsDrop(q.writers, n);
    AckIdsConcat(q.acks, acks);
  }

  lemma KeepsOrder(s: State, a: QueueStep)
    requires QueueEnabled(s, a) && Shape(s.q) && InOrder(s.q)
    ensures InOrder(DoQueue(s, a).q)
  {
    hide Numbered, GroupOps, Answers, AppendTo, SyncMemory, Insert, SwitchMemory, MaybeSchedule;
    match a {
      case Enqueue(w) => assert Ids(s.q.writers + [w]) == Ids(s.q.writers) + [w.id];
      case LeadFails => PopKeepsOrder(s.q, 1, [Ack(s.q.writers[0], false, [], 0, 0)]);
      case LeadNull(_) => PopKeepsOrder(s.q, 1, [Ack(s.q.writers[0], true, [], 0, 0)]);
      case Finish =>
        var n := s.q.phase.count;
        var log, index := s.m.logfile, LastIndex(s.m.logs[s.m.logfile]);
        AnswersIds(s.q.writers[..n], s.q.phase.Inserting?, s.q.lastSequence, log, index);
        PopKeepsOrder(s.q, n, Answers(s.q.writers[..n], s.q.phase.Inserting?, s.q.lastSequence, log, index));
      case _ =>
    }
  }

  lemma KeepsShape(s: State, a: QueueStep)
    requires QueueEnabled(s, a) && Shape(s.q)
    ensures Shape(DoQueue(s, a).q)
  {
    hide Numbered, GroupOps, Answers, AppendTo, SyncMemory, Insert, SwitchMemory, MaybeSchedule;
    if a.Enqueue? && !s.q.phase.Waiting? {
      assert (s.q.writers + [a.writer])[..s.q.phase.count] == s.q.writers[..s.q.phase.count];
    }
  }

  // ---------- the background worker ----------

  ghost predicate JobFits(bg: Background, imm: Option<nat>) {
    bg.Running? ==>
      && (bg.job.Merging? ==> bg.merge.Some?)
      && (bg.job.Building? || bg.job.Built? ==> imm.Some?)
      && ((bg.job.Installing? || bg.job.Written?) && bg.job.flush ==> imm.Some?)
      && ((bg.job.Installing? || bg.job.Written?) && !bg.job.flush ==> bg.merge.Some? || bg.job.edit.added == bg.job.edit.deleted)
  }

  /** At most one background call is outstanding. While there is work and nothing forbids it, one is
      scheduled; so a writer that waits for the full memtable to be flushed has someone to wake it. */
  ghost predicate Scheduling(b: Worker, imm: Option<nat>) {
    && b.outstanding == (if b.scheduled then 1 else 0)
    && (b.scheduled <==> b.bg.Called? || b.bg.Running?)
    && (b.bg.Stopped? ==> b.bgError)
    && ((imm.Some? || b.manual) && !b.bgError && !b.shuttingDown ==> b.scheduled)
    && JobFits(b.bg, imm)
  }

  lemma QueueKeepsScheduling(s: State, a: QueueStep)
    requires QueueEnabled(s, a) && Shape(s.q) && Scheduling(s.b, s.m.imm)
    ensures Scheduling(DoQueue(s, a).b, DoQueue(s, a).m.imm)
  {
    hide Numbered, GroupOps, Answers, AppendTo, MayLead, Mem;
  }

  lemma ViewKeepsScheduling(s: State, a: ViewStep)
    requires ViewEnabled(s, a) && Scheduling(s.b, s.m.imm)
    ensures Scheduling(DoView(s, a).b, DoView(s, a).m.imm)
  {
  }

  lemma WorkKeepsScheduling(s: State, a: WorkStep)
    requires WorkEnabled(s, a) && Scheduling(s.b, s.m.imm)
    ensures Scheduling(DoWork(s, a).b, DoWork(s, a).m.imm)
  {
    hide Union, Keep, MergeInput, MergeOutput, Live, Collected, Imm;
  }
}
