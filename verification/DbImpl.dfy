/** DBImpl as the code has it: an object whose methods run with the mutex held and update its fields.
    Each method is proved to take the step of the state machine it stands for. */
module DbImpl {
  import opened Keys
  import opened Database

  // ---------- the size of a group ----------

  const SMALL_BATCH: nat := 0x2_0000
  const MAX_GROUP: nat := 0x10_0000

  /** The bytes of the group's batches, header of each included. */
  function GroupBytes(ws: seq<Writer>, byteSize: seq<Op> -> nat): nat {
    if ws == [] then 0
    else GroupBytes(ws[..|ws| - 1], byteSize) + if ws[|ws| - 1].batch.Some? then byteSize(ws[|ws| - 1].batch.value) else 0
  }

  /** A small first batch limits the growth of its group. */
  function MaxGroup(first: nat): nat {
    if first <= SMALL_BATCH then first + SMALL_BATCH else MAX_GROUP
  }

  /** The first n writers can be one group: no sync writer behind one that is not, not too many bytes. */
  predicate Groups(ws: seq<Writer>, n: nat, byteSize: seq<Op> -> nat) {
    && MayLead(ws, n)
    && (n == 1 || (forall i :: 1 <= i < n ==> ws[i].batch.None?) || GroupBytes(ws[..n], byteSize) <= MaxGroup(byteSize(ws[0].batch.value)))
  }

  lemma GroupOneMore(ws: seq<Writer>, n: nat, byteSize: seq<Op> -> nat)
    requires n < |ws|
    ensures GroupOps(ws[..n + 1]) == GroupOps(ws[..n]) + OpsOf(ws[n])
    ensures GroupBytes(ws[..n + 1], byteSize) == GroupBytes(ws[..n], byteSize) + if ws[n].batch.Some? then byteSize(ws[n].batch.value) else 0
  {
    assert ws[..n + 1][..n] == ws[..n];
  }

  lemma GroupOfOne(ws: seq<Writer>, byteSize: seq<Op> -> nat)
    requires ws != [] && ws[0].batch.Some?
    ensures GroupOps(ws[..1]) == ws[0].batch.value && GroupBytes(ws[..1], byteSize) == byteSize(ws[0].batch.value)
  {
    GroupOneMore(ws, 0, byteSize);
  }

  /** A longer group has at least the bytes of a shorter one. */
  lemma {:induction false} GroupBytesGrow(ws: seq<Writer>, m: nat, n: nat, byteSize: seq<Op> -> nat)
    requires m <= n <= |ws|
    ensures GroupBytes(ws[..m], byteSize) <= GroupBytes(ws[..n], byteSize)
    decreases n - m
  {
    if m < n {
      GroupOneMore(ws, n - 1, byteSize);
      GroupBytesGrow(ws, m, n - 1, byteSize);
    }
  }

  datatype Room = Ready | PreviousError | Delay | WaitForFlush | WaitForLevel0 | NoNewLog

  const L0_SLOWDOWN_WRITES_TRIGGER: nat := 8
  const L0_STOP_WRITES_TRIGGER: nat := 12

  // ---------- the files of the database directory ----------

  datatype FileType = LogType | DescriptorType | TableType | TempType | OtherType
  datatype FileName = FileName(kind: FileType, number: nat)

  /** The fields are kept in the records of the state machine: the write queue, the memtables with
      their logs, the version set with pending_outputs_, the snapshots, and the background flags. */
  class DBImpl {
    var q: Queue
    var m: Memory
    ghost var f: Files
    var v: Views
    var b: Worker
    var nextFile: nat
    var pendingOutputs: set<nat>
    ghost var base: nat

    ghost function Abs(): State
      reads this
    {
      State(q, m, f, v, b, nextFile, base)
    }

    ghost predicate Valid()
      reads this
    {
      f.pending == pendingOutputs
    }

    // ---------- Write ----------

    method Enqueue(w: Writer)
      requires Valid() && w.id !in q.arrivals
      modifies this`q
      ensures Valid() && QueueEnabled(old(Abs()), Database.Enqueue(w))
      ensures Abs() == old(Abs()).(q := old(q).(writers := old(q.writers) + [w], arrivals := old(q.arrivals) + [w.id]))
    {
      q := q.(writers := q.writers + [w], arrivals := q.arrivals + [w.id]);
    }

    /** One pass of the loop that waits for room, up to the point where it waits, fails or succeeds. */
    method MakeRoomForWrite(force: bool, allowDelay: bool, full: bool, level0Files: nat, newLogOk: bool, needs: bool)
        returns (room: Room, switched: bool)
      requires Valid() && q.writers != []
      modifies this`m, this`b, this`nextFile
      ensures Valid()
      ensures b.bgError == old(b.bgError) && (room.PreviousError? <==> b.bgError)
      ensures room.Delay? <==> !b.bgError && allowDelay && level0Files >= L0_SLOWDOWN_WRITES_TRIGGER
      ensures switched <==> room.Ready? && (force || full)
      ensures !b.bgError && !room.Delay? ==>
        && (room.Ready? <==> (!force && !full) || (old(m.imm).None? && level0Files < L0_STOP_WRITES_TRIGGER && newLogOk))
        && (room.WaitForFlush? <==> (force || full) && old(m.imm).Some?)
        && (room.WaitForLevel0? <==> (force || full) && old(m.imm).None? && level0Files >= L0_STOP_WRITES_TRIGGER)
        && (room.NoNewLog? <==> (force || full) && old(m.imm).None? && level0Files < L0_STOP_WRITES_TRIGGER && !newLogOk)
      ensures Abs() == if switched then Switch(old(Abs()), needs) else old(Abs())
    {
      hide MaybeSchedule, SwitchMemory, Switch;
      var mustSwitch, memFull := force, full;
      switched := false;
      while true
        invariant !switched ==> mustSwitch == force && memFull == full && Abs() == old(Abs())
        invariant switched ==>
          && !mustSwitch && !memFull && !b.bgError && old(m.imm).None? && newLogOk && (force || full)
          && !(allowDelay && level0Files >= L0_SLOWDOWN_WRITES_TRIGGER) && level0Files < L0_STOP_WRITES_TRIGGER
          && Abs() == Switch(old(Abs()), needs)
        invariant Valid() && b.bgError == old(b.bgError) && m.imm.Some? == (switched || old(m.imm).Some?)
        decreases !switched
      {
        if b.bgError {
          room := PreviousError;
          return;
        } else if allowDelay && level0Files >= L0_SLOWDOWN_WRITES_TRIGGER {
          room := Delay;
          return;
        } else if !mustSwitch && !memFull {
          room := Ready;
          return;
        } else if m.imm.Some? {
          room := WaitForFlush;
          return;
        } else if level0Files >= L0_STOP_WRITES_TRIGGER {
          room := WaitForLevel0;
          return;
        } else if !newLogOk {
          // the file number is given back
          room := NoNewLog;
          return;
        } else {
          SwitchMemTable(needs);
          mustSwitch, memFull, switched := false, false, true;
        }
      }
    }

    /** The memtable becomes the immutable one; a new log and memtable take over. */
    method SwitchMemTable(needs: bool)
      requires Valid() && m.imm.None?
      modifies this`m, this`b, this`nextFile
      ensures Valid() && b.bgError == old(b.bgError) && m.imm.Some? && Abs() == Switch(old(Abs()), needs)
    {
      var newLog := nextFile;
      nextFile := nextFile + 1;
      m := m.(imm := Some(m.logfile));
      m := m.(logfile := newLog, logs := m.logs[newLog := LogFile([], 0)]);
      m := m.(memtables := m.memtables[newLog := {}]);
      MaybeScheduleCompaction(needs);
    }

    /** The longest group that the rules allow. */
    method BuildBatchGroup(byteSize: seq<Op> -> nat) returns (count: nat, ops: seq<Op>)
      requires q.writers != [] && q.writers[0].batch.Some?
      ensures Groups(q.writers, count, byteSize) && ops == GroupOps(q.writers[..count])
      ensures forall n :: count < n <= |q.writers| ==> !Groups(q.writers, n, byteSize)
    {
      hide GroupOps, GroupBytes;
      var first := q.writers[0];
      var size := byteSize(first.batch.value);
      var maxSize := if size <= SMALL_BATCH then size + SMALL_BATCH else MAX_GROUP;
      ops := first.batch.value;
      GroupOfOne(q.writers, byteSize);
      count := 1;
      while count < |q.writers|
        invariant 1 <= count <= |q.writers|
        invariant Groups(q.writers, count, byteSize)
        invariant ops == GroupOps(q.writers[..count]) && size == GroupBytes(q.writers[..count], byteSize)
      {
        var w := q.writers[count];
        if w.sync && !first.sync {
          break;
        }
        GroupOneMore(q.writers, count, byteSize);
        if w.batch.Some? {
          size := size + byteSize(w.batch.value);
          if size > maxSize {
            forall n | count < n <= |q.writers| ensures !Groups(q.writers, n, byteSize) {
              GroupBytesGrow(q.writers, count + 1, n, byteSize);
              assert q.writers[count].batch.Some?;
            }
            break;
          }
          ops := ops + w.batch.value;
        }
        count := count + 1;
      }
    }

    /** Write, from the moment its writer is at the front until it waits, is answered, or releases the
        mutex to log its group. */
    method LeadWrite(allowDelay: bool, full: bool, level0Files: nat, newLogOk: bool, needs: bool, byteSize: seq<Op> -> nat)
        returns (room: Room, switched: bool, count: nat)
      requires Valid() && q.phase.Waiting? && q.writers != []
      requires forall n :: 0 <= n <= |q.writers| ==> q.lastSequence + |GroupOps(q.writers[..n])| < MAX_SEQUENCE
      modifies this`q, this`m, this`b, this`nextFile
      ensures Valid()
      ensures room.Ready? && old(q.writers[0].batch.Some?) ==>
        && QueueEnabled(old(Abs()), Database.LeadWrite(count, switched, needs))
        && Abs() == DoQueue(old(Abs()), Database.LeadWrite(count, switched, needs))
        && Groups(q.writers, count, byteSize) && forall n :: count < n <= |q.writers| ==> !Groups(q.writers, n, byteSize)
      ensures room.Ready? && old(q.writers[0].batch.None?) ==>
        QueueEnabled(old(Abs()), LeadNull(needs)) && Abs() == DoQueue(old(Abs()), LeadNull(needs))
      ensures room.PreviousError? || room.NoNewLog? ==>
        QueueEnabled(old(Abs()), LeadFails) && Abs() == DoQueue(old(Abs()), LeadFails)
      ensures room.Delay? || room.WaitForFlush? || room.WaitForLevel0? ==> Abs() == old(Abs())
    {
      hide MaybeSchedule, SwitchMemory, GroupOps, Numbered, Answers;
      var w := q.writers[0];
      room, switched := MakeRoomForWrite(w.batch.None?, allowDelay && w.batch.Some?, full, level0Files, newLogOk, needs);
      count := 1;
      if room.Ready? {
        if w.batch.Some? {
          var ops;
          count, ops := BuildBatchGroup(byteSize);
          q := q.(phase := Logging(count, Numbered(q.lastSequence, ops)));
        } else {
          q := Pop(q, 1, [Ack(w, true, [], 0, 0)]);
        }
      } else if room.PreviousError? || room.NoNewLog? {
        q := Pop(q, 1, [Ack(w, false, [], 0, 0)]);
      }
    }

    /** InsertInto for the group's entries, one memtable insertion after the other. */
    method InsertInto()
      requires Valid() && Shape(q) && q.phase.Inserting? && q.phase.next == 0
      modifies this`q, this`m
      ensures Valid() && q == old(q).(phase := old(q.phase).(next := |old(q.phase).entries|))
      ensures Mem(m) == old(Mem(m)) + Entries(q.phase.entries)
      ensures m == old(m).(memtables := old(m.memtables)[old(m.logfile) := Mem(m)])
    {
      hide GroupOps, Numbered;
      var entries := q.phase.entries;
      m := m.(memtables := m.memtables[m.logfile := Mem(m)]);
      ghost var was := m;
      while q.phase.next < |entries|
        invariant q.phase.Inserting? && q.phase.next <= |entries| && q == old(q).(phase := old(q.phase).(next := q.phase.next))
        invariant m == was.(memtables := was.memtables[was.logfile := Mem(m)])
        invariant Mem(m) == Mem(was) + Entries(entries[..q.phase.next])
        decreases |entries| - q.phase.next
      {
        ghost var done := entries[..q.phase.next];
        assert entries[..q.phase.next + 1] == done + [entries[q.phase.next]];
        assert Entries(done + [entries[q.phase.next]]) == Entries(done) + {entries[q.phase.next]};
        m := Insert(m, entries[q.phase.next]);
        q := q.(phase := q.phase.(next := q.phase.next + 1));
      }
      assert entries[..|entries|] == entries;
    }

    /** The end of the group: its writers leave the queue, each with the group's status. */
    method FinishGroup()
      requires Valid() && QueueEnabled(Abs(), Finish) && Shape(q)
      modifies this`q, this`b
      ensures Valid() && QueueEnabled(old(Abs()), Finish) && Abs() == DoQueue(old(Abs()), Finish)
    {
      hide GroupOps, Numbered, Answers, AppendTo, SyncMemory, Insert, SwitchMemory, MaybeSchedule, LastIndex;
      if q.phase.Failed? && q.phase.syncError {
        RecordBackgroundError();
      }
      PopGroup(LastIndex(m.logs[m.logfile]));
    }

    method PopGroup(index: nat)
      requires !q.phase.Waiting? && Shape(q)
      modifies this`q
      ensures q == Finished(old(q), m.logfile, index)
    {
      hide GroupOps, Numbered, Answers;
      ghost var was := q;
      var ok, last, ws, lastWriter := q.phase.Inserting?, q.lastSequence, q.writers, q.phase.count;
      q := q.(lastSequence := last + |q.phase.entries|);
      var popped := 0;
      NoAnswers(ws, ok, last, m.logfile, index);
      while popped < lastWriter
        invariant popped <= lastWriter <= |ws| && last + |GroupOps(ws[..lastWriter])| <= MAX_SEQUENCE
        invariant last + |GroupOps(ws[..popped])| <= MAX_SEQUENCE
        invariant q == was.(writers := ws[popped..], lastSequence := last + |was.phase.entries|,
                            acks := was.acks + Answers(ws[..popped], ok, last, m.logfile, index))
      {
        var ready := q.writers[0];
        q := q.(writers := q.writers[1..]);
        GroupOpsGrow(ws, popped + 1, lastWriter);
        AnswersOneMore(ws, popped, ok, last, m.logfile, index);
        q := q.(acks := q.acks + [Ack(ready, ok, Numbered(last + |GroupOps(ws[..popped])|, OpsOf(ready)), m.logfile, index)]);
        popped := popped + 1;
      }
      q := q.(phase := Waiting);
    }

    // ---------- background work ----------

    method RecordBackgroundError()
      modifies this`b
      ensures b == old(b).(bgError := true)
    {
      if !b.bgError {
        b := b.(bgError := true);
      }
    }

    method MaybeScheduleCompaction(needs: bool)
      requires Valid()
      modifies this`b
      ensures Valid() && b == MaybeSchedule(old(b), m.imm, needs)
      ensures b.scheduled <==> old(b.scheduled) || (!b.shuttingDown && !b.bgError && (m.imm.Some? || b.manual || needs))
      ensures b.outstanding == old(b.outstanding) + if b.scheduled && !old(b.scheduled) then 1 else 0
    {
      if b.scheduled {
      } else if b.shuttingDown {
      } else if b.bgError {
      } else if m.imm.None? && !b.manual && !needs {
      } else {
        b := b.(scheduled := true);
        b := b.(outstanding := b.outstanding + 1, bg := Called);
      }
    }

    /** What follows BackgroundCompaction in BackgroundCall. */
    method EndBackgroundCall(needs: bool)
      requires Valid() && b.outstanding > 0
      modifies this`b
      ensures Valid() && b == EndCall(old(b), m.imm, needs)
    {
      b := b.(scheduled := false, outstanding := b.outstanding - 1, bg := Idle);
      MaybeScheduleCompaction(needs);
    }

    /** The part of WriteLevel0Table before it releases the mutex. */
    method BeginLevel0Table(merge: Option<Merge>) returns (number: nat)
      requires Valid()
      modifies this`nextFile, this`pendingOutputs, this`f, this`b
      ensures Valid() && Abs() == BeginFlush(old(Abs()), merge) && number == old(nextFile)
    {
      number := nextFile;
      nextFile := nextFile + 1;
      pendingOutputs := pendingOutputs + {number};
      f := f.(pending := pendingOutputs);
      b := b.(bg := Running(Building(number), merge));
    }

    /** What WriteLevel0Table and CompactMemTable do when they have the mutex again: the table no longer
        needs protection, and unless building it failed or the database shuts down, the edit that
        installs it goes to the descriptor, with the log of the memtable now being filled. */
    method FinishLevel0Table(needs: bool) returns (install: bool)
      requires Valid() && b.bg.Running? && b.bg.job.Built? && b.outstanding > 0
      modifies this`pendingOutputs, this`f, this`b
      ensures Valid() && install == (old(b.bg.job.ok) && !b.shuttingDown)
      ensures WorkEnabled(old(Abs()), FlushRelock(install, needs)) && Abs() == DoWork(old(Abs()), FlushRelock(install, needs))
    {
      var file, ok := b.bg.job.file, b.bg.job.ok;
      pendingOutputs := pendingOutputs - {file};
      f := f.(pending := pendingOutputs);
      if ok && b.shuttingDown {
        ok := false;
      }
      install := ok;
      if ok {
        var edit := Edit(if Imm(m) == {} then {} else {file}, {}, m.logfile);
        b := b.(bg := Running(Installing(edit, true), b.bg.merge));
      } else {
        RecordBackgroundError();
        if b.bg.merge.Some? {
          b := b.(bg := Running(Merging, b.bg.merge));
        } else {
          EndBackgroundCall(needs);
        }
      }
    }

    /** Goes through the directory and deletes what nobody needs. live is pending_outputs_ with the files
        of all versions: of the current one, of the readers' and of the one a compaction holds. */
    method DeleteObsoleteFiles(children: seq<FileName>, live: set<nat>, ghost held: set<nat>,
                               logNumber: nat, prevLogNumber: nat, manifestNumber: nat)
        returns (deleted: set<FileName>)
      requires Valid() && live == Live(f, v, held) && logNumber == f.current.logNumber && prevLogNumber !in m.logs
      requires forall n :: n in m.logs ==> FileName(LogType, n) in children
      requires forall n :: n in f.tables ==> FileName(TableType, n) in children
      modifies this`f, this`m
      ensures Valid() && Abs() == Database.DeleteObsoleteFiles(old(Abs()), held)
      ensures b.bgError ==> deleted == {}
      ensures !b.bgError ==> forall n: nat ::
        && (FileName(DescriptorType, n) in deleted <==> FileName(DescriptorType, n) in children && n < manifestNumber)
        && (FileName(TempType, n) in deleted <==> FileName(TempType, n) in children && n !in live)
        && FileName(OtherType, n) !in deleted
      ensures forall name :: name in deleted ==> name in children
    {
      deleted := {};
      if b.bgError {
        return;
      }
      hide Live;
      for i := 0 to |children|
        invariant Valid() && f == old(f).(tables := f.tables) && m == old(m).(logs := m.logs)
        invariant forall n :: n in m.logs <==> n in old(m.logs) && (n >= logNumber || FileName(LogType, n) !in children[..i])
        invariant forall n :: n in m.logs ==> m.logs[n] == old(m.logs)[n]
        invariant forall n :: n in f.tables <==> n in old(f.tables) && (n in live || FileName(TableType, n) !in children[..i])
        invariant forall n :: n in f.tables ==> f.tables[n] == old(f.tables)[n]
        invariant forall name :: name in deleted ==> name in children[..i] && name.kind != OtherType
        invariant forall n: nat ::
          && (FileName(DescriptorType, n) in deleted <==> FileName(DescriptorType, n) in children[..i] && n < manifestNumber)
          && (FileName(TempType, n) in deleted <==> FileName(TempType, n) in children[..i] && n !in live)
      {
        var name := children[i];
        var keep := true;
        match name.kind {
          case LogType => keep := name.number >= logNumber || name.number == prevLogNumber;
          case DescriptorType => keep := name.number >= manifestNumber;
          case TableType => keep := name.number in live;
          case TempType => keep := name.number in live;
          case OtherType => keep := true;
        }
        assert children[..i + 1] == children[..i] + [name];
        if !keep {
          deleted := deleted + {name};
          Remove(name);
        }
      }
      assert children[..|children|] == children;
      assert m.logs == CollectedLogs(old(m), logNumber).logs;
      assert f.tables == Collected(old(f), v, held).tables;
    }

    /** env_->DeleteFile: a log or a table is gone from the directory. */
    method Remove(name: FileName)
      modifies this`f, this`m
      ensures m == if name.kind == LogType then old(m).(logs := old(m.logs) - {name.number}) else old(m)
      ensures f == if name.kind == TableType then old(f).(tables := old(f.tables) - {name.number}) else old(f)
    {
      if name.kind == LogType {
        m := m.(logs := m.logs - {name.number});
      } else if name.kind == TableType {
        f := f.(tables := f.tables - {name.number});
      }
    }
  }

  lemma NoAnswers(ws: seq<Writer>, ok: bool, last: nat, log: nat, index: nat)
    requires last <= MAX_SEQUENCE
    ensures GroupOps(ws[..0]) == [] && Answers(ws[..0], ok, last, log, index) == []
  {
  }

  lemma AnswersOneMore(ws: seq<Writer>, n: nat, ok: bool, last: nat, log: nat, index: nat)
    requires n < |ws| && last + |GroupOps(ws[..n])| <= MAX_SEQUENCE && last + |GroupOps(ws[..n + 1])| <= MAX_SEQUENCE
    ensures |GroupOps(ws[..n + 1])| == |GroupOps(ws[..n])| + |OpsOf(ws[n])|
    ensures Answers(ws[..n + 1], ok, last, log, index) ==
      Answers(ws[..n], ok, last, log, index) + [Ack(ws[n], ok, Numbered(last + |GroupOps(ws[..n])|, OpsOf(ws[n])), log, index)]
  {
    hide Numbered;
    assert ws[..n + 1][..n] == ws[..n];
  }

  lemma {:induction false} GroupOpsGrow(ws: seq<Writer>, m: nat, n: nat)
    requires m <= n <= |ws|
    ensures |GroupOps(ws[..m])| <= |GroupOps(ws[..n])|
    decreases n - m
  {
    if m < n {
      assert ws[..n][..n - 1] == ws[..n - 1];
      GroupOpsGrow(ws, m, n - 1);
    }
  }
}
