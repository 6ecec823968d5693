/** Two runs in which an append to a log fails, the database goes on, and its promises do not hold: a
    synced batch that was answered OK is lost without any byte being lost, and an entry is recovered
    that nobody wrote. Block size and batches are those of the code. */
module DatabaseLosses {
  import opened Keys
  import opened Database
  import opened DatabaseQueue
  import opened DatabaseMemory
  import opened DatabaseStorage
  import opened DatabaseReaders
  import opened DatabaseAcks
  import opened DatabaseRuns
  import opened DatabaseGuarantees
  import opened DatabaseLogs
  import opened DatabaseCrash
  import opened WriteBatches
  import opened Coding
  import LogFormat
  import LogReader
  import LogWriter
  import LogDamage
  import Recovery

  const BLOCK_SIZE: nat := 32768

  // ---------- three batches ----------

  function Zeros(n: nat): (z: seq<byte>)
    ensures |z| == n
  {
    seq(n, _ => 0)
  }

  /** A deletion; a value that with it would fill the block; and a third update. */
  const LOST: seq<Update> := [Delete([0])]
  const FILLER: seq<Update> := [Set([], Zeros(32722))]
  const SYNCED: seq<Update> := [Delete([0, 0])]

  lemma DeletionSize(first: nat, key: seq<byte>)
    requires first < TWO_64 && |key| < 128
    ensures Encodable([Delete(key)]) && |Rep(first, [Delete(key)])| == 14 + |key|
  {
    var us := [Delete(key)];
    assert us[1..] == [];
    assert Body(us) == UpdateBytes(us[0]) + Body([]);
    assert |EncodeVarint32(|key|)| == 1;
  }

  /** What precedes the value in the batch that sets the empty key. */
  function BeforeValue(first: nat, size: nat): seq<byte>
    requires first < TWO_64 && size < LogFormat.TWO_32
  {
    EncodeFixed64(first) + LogFormat.EncodeFixed32(1) + [1] + VarString([]) + EncodeVarint32(size)
  }

  lemma SettingIs(first: nat, value: seq<byte>)
    requires first < TWO_64 && |value| < LogFormat.TWO_32
    ensures Encodable([Set([], value)])
    ensures Rep(first, [Set([], value)]) == BeforeValue(first, |value|) + value
    ensures |BeforeValue(first, |value|)| == 14 + |EncodeVarint32(|value|)|
  {
    var us := [Set([], value)];
    assert us[1..] == [];
    assert Body(us) == UpdateBytes(us[0]) + Body([]);
    var head, size := EncodeFixed64(first) + LogFormat.EncodeFixed32(1), EncodeVarint32(|value|);
    assert VarString(value) == size + value;
    assert |VarString([])| == 1;
    hide EncodeVarint32, EncodeFixed64, LogFormat.EncodeFixed32, VarString;
    assert head + (([1] + VarString([]) + (size + value)) + []) == (head + [1] + VarString([]) + size) + value;
  }

  // ---------- one writer after another ----------

  function EntryFor(last: nat, op: Op): Entry
    requires last < MAX_SEQUENCE
  {
    Entry(op.key, last + 1, op.kind, op.value)
  }

  /** Nobody waits, nothing has failed, and the memtable is to be used. */
  ghost predicate Quiet(s: State) {
    && s.q.phase.Waiting? && s.q.writers == [] && !s.b.bgError
    && s.m.logfile in s.m.logs && s.q.lastSequence + 1 < MAX_SEQUENCE
  }

  lemma GroupOfOneOp(w: Writer, op: Op, last: nat, ok: bool, log: nat, index: nat)
    requires w.batch == Some([op]) && last + 1 < MAX_SEQUENCE
    ensures GroupOps([w]) == [op] && Numbered(last, [op]) == [EntryFor(last, op)]
    ensures Answers([w], ok, last, log, index) == [Ack(w, ok, [EntryFor(last, op)], log, index)]
  {
    assert [w][..0] == [];
    assert GroupOps([]) == [] && [] + [op] == [op];
  }

  lemma OneStep(s: State, a: Action)
    requires Enabled(s, a)
    ensures Runs(s, [a], Do(s, a))
  {
    hide Enabled, Do;
    assert [a][1..] == [];
  }

  lemma Then(s: State, actions: seq<Action>, t: State, a: Action)
    requires Runs(s, actions, t) && Enabled(t, a)
    ensures Runs(s, actions + [a], Do(t, a))
  {
    hide Enabled, Do, Runs;
    OneStep(t, a);
    RunsOn(s, actions, t, [a], Do(t, a));
  }

  /** A writer with one update comes, leads a group of its own, and logs it. */
  lemma LogOne(s: State, w: Writer, op: Op, lostAt: Option<nat>) returns (actions: seq<Action>, t: State)
    requires Quiet(s) && w.id !in s.q.arrivals && w.batch == Some([op])
    ensures Runs(s, actions, t)
    ensures var e := EntryFor(s.q.lastSequence, op);
      && t == s.(q := t.q, m := s.m.(logs := s.m.logs[s.m.logfile := AppendTo(s.m.logs[s.m.logfile], [e], lostAt)]))
      && t.q == Queue([w], t.q.phase, s.q.lastSequence, s.q.arrivals + [w.id], s.q.acks)
      && t.q.phase == if lostAt.Some? then Failed(1, [e], false) else if w.sync then Syncing(1, [e]) else Inserting(1, [e], 0)
  {
    GroupOfOneOp(w, op, s.q.lastSequence, true, 0, 0);
    hide GroupOps, Numbered, Runs, MaybeSchedule;
    var s1 := DoQueue(s, Enqueue(w));
    assert s1.q.writers == [w] && [w][..1] == [w];
    OneStep(s, OfQueue(Enqueue(w)));
    var lead := OfQueue(LeadWrite(1, false, false));
    var s2 := Do(s1, lead);
    Then(s, [OfQueue(Enqueue(w))], s1, lead);
    actions := [OfQueue(Enqueue(w))] + [lead] + [OfQueue(Append(lostAt))];
    t := Do(s2, OfQueue(Append(lostAt)));
    Then(s, [OfQueue(Enqueue(w))] + [lead], s2, OfQueue(Append(lostAt)));
  }

  /** What is left of a group of one when its log is done with. */
  ghost predicate LogIsDone(s: State, w: Writer, op: Op) {
    && s.q.writers == [w] && w.batch == Some([op]) && s.q.lastSequence + 1 < MAX_SEQUENCE
    && s.m.logfile in s.m.logs && s.m.logs[s.m.logfile].writes != []
    && var e := EntryFor(s.q.lastSequence, op);
       s.q.phase == Failed(1, [e], false) || s.q.phase == Inserting(1, [e], 0)
  }

  /** It is inserted unless logging failed, and its writer is answered. */
  lemma FinishOne(s: State, w: Writer, op: Op) returns (actions: seq<Action>, t: State)
    requires LogIsDone(s, w, op)
    ensures Runs(s, actions, t)
    ensures var ack := Ack(w, s.q.phase.Inserting?, [EntryFor(s.q.lastSequence, op)], s.m.logfile, LastIndex(s.m.logs[s.m.logfile]));
      && t == s.(q := t.q, m := s.m.(memtables := t.m.memtables))
      && t.q == Queue([], Waiting, s.q.lastSequence + 1, s.q.arrivals, s.q.acks + [ack])
  {
    GroupOfOneOp(w, op, s.q.lastSequence, s.q.phase.Inserting?, s.m.logfile, LastIndex(s.m.logs[s.m.logfile]));
    hide GroupOps, Numbered, Answers, Runs, LastIndex;
    assert [w][..1] == [w] && [w][1..] == [];
    if s.q.phase.Failed? {
      OneStep(s, OfQueue(Finish));
      actions, t := [OfQueue(Finish)], Do(s, OfQueue(Finish));
    } else {
      OneStep(s, OfQueue(InsertOne));
      var s1 := Do(s, OfQueue(InsertOne));
      actions, t := [OfQueue(InsertOne)] + [OfQueue(Finish)], Do(s1, OfQueue(Finish));
      Then(s, [OfQueue(InsertOne)], s1, OfQueue(Finish));
    }
  }

  lemma WriteOne(s: State, w: Writer, op: Op, lostAt: Option<nat>) returns (t: State)
    requires Reachable(s) && Quiet(s) && w.id !in s.q.arrivals && w.batch == Some([op])
    ensures Reachable(t) && (s.q.lastSequence + 2 < MAX_SEQUENCE ==> Quiet(t))
    ensures var e, l := EntryFor(s.q.lastSequence, op), s.m.logs[s.m.logfile];
      var ack := Ack(w, lostAt.None?, [e], s.m.logfile, |l.writes|);
      var synced := if w.sync && lostAt.None? then |l.writes| + 1 else l.synced;
      && t.q == Queue([], Waiting, s.q.lastSequence + 1, s.q.arrivals + [w.id], s.q.acks + [ack])
      && t == s.(q := t.q, m := s.m.(memtables := t.m.memtables, logs := s.m.logs[s.m.logfile := LogFile(l.writes + [LogWrite([e], lostAt)], synced)]))
  {
    hide Runs, Reachable, GroupOps, Numbered;
    var before, logged := LogOne(s, w, op, lostAt);
    ReachableOn(s, before, logged);
    if lostAt.None? && w.sync {
      var sync := OfQueue(Sync(true));
      GroupOfOneOp(w, op, s.q.lastSequence, true, 0, 0);
      assert [w][..1] == [w];
      OneStep(logged, sync);
      ReachableOn(logged, [sync], Do(logged, sync));
      logged := Do(logged, sync);
    }
    var after;
    after, t := FinishOne(logged, w, op);
    ReachableOn(logged, after, t);
  }

  // ---------- a run with a failed append ----------

  /** A new, empty database. */
  ghost function Fresh(): (s: State)
    ensures Opened(s)
  {
    var s := State(Queue([], Waiting, 0, [], []), Memory(map[1 := {}], None, 1, map[1 := LogFile([], 0)], {}),
                   Files(map[], Manifest({}, 1), Manifest({}, 1), {}, {}, 0), Views([], map[]),
                   Worker(Idle, false, 0, false, false, false), 2, 0);
    assert Tables(s.f) == {};
    s
  }

  function OpFor(rank: seq<byte> -> UserKey, u: Update): Op {
    Op(rank(u.key), if u.Set? then Put else Deletion, if u.Set? then u.value else [])
  }

  function EntryAt(rank: seq<byte> -> UserKey, u: Update, number: nat): Entry
    requires 0 < number <= MAX_SEQUENCE
  {
    EntryFor(number - 1, OpFor(rank, u))
  }

  /** The appends of a run of three writers, the first of whom fails. */
  function ThreeWrites(rank: seq<byte> -> UserKey, u1: Update, u2: Update, u3: Update): seq<LogWrite> {
    [LogWrite([EntryAt(rank, u1, 1)], Some(0)), LogWrite([EntryAt(rank, u2, 2)], None), LogWrite([EntryAt(rank, u3, 3)], None)]
  }

  lemma ThreeWriters(rank: seq<byte> -> UserKey, u1: Update, u2: Update, u3: Update) returns (s: State, a: Ack)
    ensures Reachable(s) && a in s.q.acks && a.ok && a.writer.sync && a.entries == [EntryAt(rank, u3, 3)]
    ensures s.f == Fresh().f && s.m.imm == None && s.m.orphans == {} && s.q.phase.Waiting? && s.q.lastSequence == 3
    ensures s.m.logs == map[1 := LogFile(ThreeWrites(rank, u1, u2, u3), 3)]
  {
    hide Reachable, Opened;
    var s0 := Fresh();
    OpenedIsReachable(s0);
    var s1 := WriteOne(s0, Writer(1, Some([OpFor(rank, u1)]), false), OpFor(rank, u1), Some(0));
    var s2 := WriteOne(s1, Writer(2, Some([OpFor(rank, u2)]), false), OpFor(rank, u2), None);
    s := WriteOne(s2, Writer(3, Some([OpFor(rank, u3)]), true), OpFor(rank, u3), None);
    a := s.q.acks[2];
    var w := ThreeWrites(rank, u1, u2, u3);
    assert s1.m.logs[1].writes == [w[0]] && s2.m.logs[1].writes == [w[0], w[1]];
    assert s.m.logs[1] == LogFile(w, 3) && s.m.logs.Keys == {1};
  }

  lemma OpenedIsReachable(s: State)
    requires Opened(s)
    ensures Reachable(s)
  {
    hide Opened;
    var none: seq<Action> := [];
    assert Runs(s, none, s);
  }

  /** The batches for those three, and for nothing else. */
  function CodecFor(fmt: LogFormat.Format, rank: seq<byte> -> UserKey, u1: Update, u2: Update, u3: Update): Codec
    requires Encodable([u1]) && Encodable([u2]) && Encodable([u3])
  {
    var es1, es2 := [EntryAt(rank, u1, 1)], [EntryAt(rank, u2, 2)];
    var r1, r2, r3 := Rep(1, [u1]), Rep(2, [u2]), Rep(3, [u3]);
    Codec(fmt, rank, es => if es == es1 then r1 else if es == es2 then r2 else r3)
  }

  lemma OneUpdate(rank: seq<byte> -> UserKey, u: Update, number: nat)
    requires 0 < number <= 9 && Encodable([u])
    ensures InsertAll(rank, Rep(number, [u])) == Inserted([EntryAt(rank, u, number)], true)
  {
    hide Rep, InsertAll;
    InsertAllOf(rank, number, [u]);
    assert EntriesOf(rank, number, [u]) == [EntryAt(rank, u, number)];
  }

  /** A crash of that run that loses no byte: what the database holds then is what the reader gets. */
  lemma AfterThree(fmt: LogFormat.Format, rank: seq<byte> -> UserKey, u1: Update, u2: Update, u3: Update)
      returns (c: Codec, s: State, cuts: map<nat, nat>, a: Ack)
    requires Encodable([u1]) && Encodable([u2]) && Encodable([u3])
    ensures Reachable(s) && a in s.q.acks && a.ok && a.writer.sync && a.entries == [EntryAt(rank, u3, 3)]
    ensures Crash(c, s, cuts) && forall n :: n in s.m.logs ==> n in cuts && cuts[n] == |Bytes(c, s.m.logs[n].writes)|
    ensures forall e :: e in History(s) + Unapplied(s) ==> e.sequence <= 3
    ensures var file := LogWriter.FileBytes(fmt, 0, LogDamage.Unlucky(Rep(1, [u1]), Rep(2, [u2]), Rep(3, [u3])));
      var entries := Entries(Recovery.Replay(rank, false, LogReader.ReadLog(LogReader.Setup(fmt, true, 0), file).records,
                                             Recovery.Recovered([], 0, true)).entries);
      Durable(c, s, cuts) == entries && Recovered(c, s, cuts) == entries
  {
    hide Reachable, Opened, Rep, InsertAll, LogWriter.FileBytes, Recovery.Replay, LogReader.ReadLog, History, Unapplied;
    s, a := ThreeWriters(rank, u1, u2, u3);
    c := CodecFor(fmt, rank, u1, u2, u3);
    var writes := ThreeWrites(rank, u1, u2, u3);
    assert Calls(c, writes) == LogDamage.Unlucky(Rep(1, [u1]), Rep(2, [u2]), Rep(3, [u3]));
    cuts := map[1 := |Bytes(c, writes)|];
    OneUpdate(rank, u1, 1);
    OneUpdate(rank, u2, 2);
    OneUpdate(rank, u3, 3);
    assert writes[..3] == writes;
    assert Bytes(c, writes)[..|Bytes(c, writes)|] == Bytes(c, writes);
    NumbersReached(s);
    hide ReplayedLog;
    assert Replayed(c, s.m, 1, cuts) == ReplayedLog(c, s.m.logs[1], cuts[1]);
  }

  lemma NumbersReached(s: State)
    requires Reachable(s) && s.q.phase.Waiting? && s.m.orphans == {}
    ensures forall e :: e in History(s) + Unapplied(s) ==> e.sequence <= s.q.lastSequence
  {
    hide Reachable, StorageOk, ReadersOk, AcksOk, Logged, LogsOrdered, EditLog, Orphaned, InOrder, History;
    ReachableInv(s);
  }

  // ---------- what comes of it ----------

  /** A batch of a sync writer that was answered OK is gone, though no byte of any file was lost. */
  lemma SyncedIsLost(fmt: LogFormat.Format, rank: seq<byte> -> UserKey)
      returns (c: Codec, s: State, cuts: map<nat, nat>, a: Ack)
    requires fmt.blockSize == BLOCK_SIZE
    ensures Reachable(s) && a in s.q.acks && a.ok && a.writer.sync && a.entries != []
    ensures Crash(c, s, cuts) && forall n :: n in s.m.logs ==> n in cuts && cuts[n] == |Bytes(c, s.m.logs[n].writes)|
    ensures Entries(a.entries) !! Durable(c, s, cuts)
  {
    hide Reachable, Rep, InsertAll, LogWriter.FileBytes, LogReader.ReadLog, Recovery.LastSequenceOf, Durable, Recovered;
    DeletionSize(1, [0]);
    SettingIs(2, Zeros(32722));
    DeletionSize(3, [0, 0]);
    c, s, cuts, a := AfterThree(fmt, rank, LOST[0], FILLER[0], SYNCED[0]);
    LogDamage.RecordIsLost(fmt, Rep(1, LOST), Rep(2, FILLER), Rep(3, SYNCED));
    OneUpdate(rank, FILLER[0], 2);
    var found := [LogReader.Found(Rep(2, FILLER), 0)];
    assert found[1..] == [];
    assert Durable(c, s, cuts) == Entries([] + [EntryAt(rank, FILLER[0], 2)]);
  }

  /** A value that holds the bytes of a log record is read as one: an entry is recovered that was never
      written to the database. */
  lemma ForgedIsRecovered(fmt: LogFormat.Format, rank: seq<byte> -> UserKey)
      returns (c: Codec, s: State, cuts: map<nat, nat>, forged: Entry)
    requires fmt.blockSize == BLOCK_SIZE
    ensures Reachable(s)
    ensures Crash(c, s, cuts) && forall n :: n in s.m.logs ==> n in cuts && cuts[n] == |Bytes(c, s.m.logs[n].writes)|
    ensures forged in Recovered(c, s, cuts) && forged !in History(s) + Unapplied(s)
  {
    hide Reachable, Rep, InsertAll, LogWriter.FileBytes, LogReader.ReadLog, Recovery.LastSequenceOf, Durable, Recovered,
         History, Unapplied;
    DeletionSize(1, [0]);
    SettingIs(2, Zeros(32722));
    DeletionSize(9, []);
    var record := Rep(9, [Delete([])]);
    var value := LogFormat.Header(fmt, LogFormat.FULL, record) + record;
    SettingIs(3, value);
    var a;
    c, s, cuts, a := AfterThree(fmt, rank, LOST[0], FILLER[0], Set([], value));
    LogDamage.RecordIsForged(fmt, Rep(1, LOST), Rep(2, FILLER), BeforeValue(3, |value|), record);
    OneUpdate(rank, FILLER[0], 2);
    OneUpdate(rank, Delete([]), 9);
    forged := EntryAt(rank, Delete([]), 9);
    TwoRecords(rank, Rep(2, FILLER), record,
               LogReader.ReadLog(LogReader.Setup(fmt, true, 0),
                                 LogWriter.FileBytes(fmt, 0, LogDamage.Unlucky(Rep(1, LOST), Rep(2, FILLER), Rep(3, [Set([], value)])))).records);
  }

  lemma TwoRecords(rank: seq<byte> -> UserKey, r1: seq<byte>, r2: seq<byte>, found: seq<LogReader.Found>)
    requires LogDamage.Texts(found) == [r1, r2] && |r1| >= BATCH_HEADER && |r2| >= BATCH_HEADER
    ensures Entries(InsertAll(rank, r2).entries) <= Entries(Recovery.Replay(rank, false, found, Recovery.Recovered([], 0, true)).entries)
  {
    hide InsertAll, Recovery.LastSequenceOf;
    assert LogDamage.Texts(found)[0] == found[0].record && LogDamage.Texts(found)[1] == found[1].record;
    var st1 := Recovery.ReplayRecord(rank, false, r1, Recovery.Recovered([], 0, true));
    var st2 := Recovery.ReplayRecord(rank, false, r2, st1);
    assert found[1..][1..] == [] && found[1..][0] == found[1];
    assert Recovery.Replay(rank, false, found[1..], st1) == Recovery.Replay(rank, false, [], st2) == st2;
  }
}
