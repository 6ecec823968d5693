/** The logs of the database as files: what their appends come to in bytes, what a crash may cut off,
    and what replaying the rest brings back. */
module DatabaseLogs {
  import opened Keys
  import opened Database
  import opened DatabaseMemory
  import LogFormat
  import LogReader
  import LogWriter
  import LogDamage
  import Recovery
  import WriteBatches

  /** The framing, the comparator's order, and the batch that is logged for a group's entries. */
  datatype Codec = Codec(fmt: LogFormat.Format, rank: seq<byte> -> UserKey, encode: seq<Entry> -> seq<byte>)

  /** The batches are right: inserted again they give the entries they were made for. */
  ghost predicate Encodes(c: Codec, writes: seq<LogWrite>) {
    forall w :: w in writes ==>
      && |c.encode(w.record)| >= WriteBatches.BATCH_HEADER
      && WriteBatches.InsertAll(c.rank, c.encode(w.record)) == WriteBatches.Inserted(w.record, true)
  }

  function Call(c: Codec, w: LogWrite): LogWriter.Attempt {
    LogWriter.Attempt(c.encode(w.record), w.lostAt)
  }

  function Calls(c: Codec, writes: seq<LogWrite>): (calls: seq<LogWriter.Attempt>)
    ensures |calls| == |writes|
  {
    seq(|writes|, i requires 0 <= i < |writes| => Call(c, writes[i]))
  }

  /** What log::Writer makes of the appends. */
  function Bytes(c: Codec, writes: seq<LogWrite>): seq<byte> {
    LogWriter.FileBytes(c.fmt, 0, Calls(c, writes))
  }

  /** The appends left every fragment where a reader looks for it. */
  predicate LogInStep(c: Codec, writes: seq<LogWrite>) {
    LogDamage.InStep(c.fmt.blockSize, Calls(c, writes))
  }

  /** A crash keeps the synced bytes and may cut the file anywhere behind them. */
  ghost predicate CutOf(c: Codec, l: LogFile, cut: nat) {
    && l.synced <= |l.writes|
    && |Bytes(c, l.writes[..l.synced])| <= cut <= |Bytes(c, l.writes)|
  }

  /** All bytes of append i are left. */
  predicate InCut(c: Codec, l: LogFile, i: nat, cut: nat) {
    i < |l.writes| && |Bytes(c, l.writes[..i + 1])| <= cut
  }

  /** What RecoverLogFile, without paranoid checks, inserts from the first bytes of a log. */
  function ReplayedLog(c: Codec, l: LogFile, cut: nat): set<Entry> {
    var file := Bytes(c, l.writes);
    var left := if cut <= |file| then file[..cut] else file;
    Entries(Recovery.Replay(c.rank, false, LogReader.ReadLog(LogReader.Setup(c.fmt, true, 0), left).records,
                            Recovery.Recovered([], 0, true)).entries)
  }

  // ---------- replaying ----------

  /** All entries of appends that succeeded, in order. */
  function AllReached(writes: seq<LogWrite>): seq<Entry>
    decreases |writes|
  {
    if writes == [] then [] else Reached(writes[0]) + AllReached(writes[1..])
  }

  lemma {:induction false} AllReachedSet(writes: seq<LogWrite>, e: Entry)
    ensures e in AllReached(writes) <==> exists i :: 0 <= i < |writes| && e in Reached(writes[i])
    decreases |writes|
  {
    if writes != [] {
      AllReachedSet(writes[1..], e);
      if i :| 0 <= i < |writes[1..]| && e in Reached(writes[1..][i]) {
        assert writes[i + 1] == writes[1..][i];
      }
      if i :| 0 < i < |writes| && e in Reached(writes[i]) {
        assert writes[1..][i - 1] == writes[i];
      }
    }
  }

  lemma AllReachedIs(l: LogFile, m: nat)
    requires m <= |l.writes|
    ensures Entries(AllReached(l.writes[..m])) == LogEntries(l, m)
  {
    forall e ensures e in Entries(AllReached(l.writes[..m])) <==> e in LogEntries(l, m) {
      AllReachedSet(l.writes[..m], e);
      if i :| 0 <= i < m && e in Reached(l.writes[i]) {
        assert l.writes[..m][i] == l.writes[i];
      }
    }
  }

  lemma CallsRest(c: Codec, writes: seq<LogWrite>)
    requires writes != []
    ensures Calls(c, writes)[0] == Call(c, writes[0]) && Calls(c, writes)[1..] == Calls(c, writes[1..])
  {
  }

  /** The records of the appends that succeeded bring back their entries. */
  lemma {:induction false} ReplayWrites(c: Codec, writes: seq<LogWrite>, found: seq<LogReader.Found>, st: Recovery.Recovered)
    requires Encodes(c, writes) && st.ok && LogDamage.Texts(found) == LogDamage.Successes(Calls(c, writes))
    ensures Recovery.Replay(c.rank, false, found, st).ok
    ensures Recovery.Replay(c.rank, false, found, st).entries == st.entries + AllReached(writes)
    decreases |writes|
  {
    hide LogDamage.Texts, WriteBatches.InsertAll, Recovery.LastSequenceOf;
    if writes == [] {
      assert found == [];
      assert st.entries + [] == st.entries;
    } else {
      CallsRest(c, writes);
      var w := writes[0];
      var rest := LogDamage.Successes(Calls(c, writes[1..]));
      if w.lostAt.Some? {
        assert [] + rest == rest;
        ReplayWrites(c, writes[1..], found, st);
        assert [] + AllReached(writes[1..]) == AllReached(writes[1..]);
      } else {
        assert ([c.encode(w.record)] + rest)[1..] == rest && ([c.encode(w.record)] + rest)[0] == c.encode(w.record);
        FirstText(found);
        var st' := Recovery.ReplayRecord(c.rank, false, found[0].record, st);
        assert st'.entries == st.entries + w.record;
        ReplayWrites(c, writes[1..], found[1..], st');
        assert (st.entries + w.record) + AllReached(writes[1..]) == st.entries + (w.record + AllReached(writes[1..]));
      }
    }
  }

  lemma FirstText(found: seq<LogReader.Found>)
    requires LogDamage.Texts(found) != []
    ensures found != [] && LogDamage.Texts(found)[0] == found[0].record && LogDamage.Texts(found)[1..] == LogDamage.Texts(found[1..])
  {
  }

  /** Without paranoid checks replay goes on to the end, whatever the records. */
  lemma {:induction false} ReplayGoesOn(rank: seq<byte> -> UserKey, found: seq<LogReader.Found>, more: seq<LogReader.Found>, st: Recovery.Recovered)
    requires st.ok
    ensures var all := Recovery.Replay(rank, false, found + more, st);
      var first := Recovery.Replay(rank, false, found, st);
      all.ok && first.ok && st.entries <= first.entries <= all.entries
    decreases |found| + |more|
  {
    hide WriteBatches.InsertAll, Recovery.LastSequenceOf;
    if found != [] {
      assert (found + more)[1..] == found[1..] + more;
      ReplayGoesOn(rank, found[1..], more, Recovery.ReplayRecord(rank, false, found[0].record, st));
    } else if more != [] {
      assert found + more == more;
      ReplayGoesOn(rank, [], more[1..], Recovery.ReplayRecord(rank, false, more[0].record, st));
      assert [] + more[1..] == more[1..];
    } else {
      assert found + more == [];
    }
  }

  // ---------- what is left of a log ----------

  lemma CallsPrefix(c: Codec, writes: seq<LogWrite>, m: nat)
    requires m <= |writes|
    ensures Calls(c, writes)[..m] == Calls(c, writes[..m])
  {
  }

  lemma BytesGrow(c: Codec, writes: seq<LogWrite>, m: nat, n: nat)
    requires m <= n <= |writes|
    ensures Bytes(c, writes[..m]) <= Bytes(c, writes[..n])
  {
    hide LogWriter.FileBytes;
    var calls, all := Calls(c, writes[..m]), Calls(c, writes[..n]);
    assert all == calls + all[m..];
    LogWriter.CallsConcat(c.fmt, 0, calls, all[m..]);
  }

  /** In step, what a cut log brings back are the entries of its first appends: of those whose bytes lie
      wholly in what is left, and these include all that were synced. */
  lemma InStepLog(c: Codec, l: LogFile, cut: nat) returns (m: nat)
    requires Encodes(c, l.writes) && LogInStep(c, l.writes) && CutOf(c, l, cut)
    ensures l.synced <= m <= |l.writes| && ReplayedLog(c, l, cut) == LogEntries(l, m)
    ensures forall i: nat :: i < m <==> InCut(c, l, i, cut)
  {
    hide LogDamage.InStep, LogWriter.FileBytes, Encodes, LogReader.ReadLog, LogDamage.Texts, LogDamage.Successes, Recovery.Replay;
    var setup := LogReader.Setup(c.fmt, true, 0);
    var file := Bytes(c, l.writes)[..cut];
    m := LogDamage.InStepReads(setup, Calls(c, l.writes), cut);
    CallsPrefix(c, l.writes, m);
    forall i: nat ensures i < m <==> InCut(c, l, i, cut) {
      if i < m {
        BytesGrow(c, l.writes, i + 1, m);
      } else if i < |l.writes| {
        CallsPrefix(c, l.writes, m + 1);
        BytesGrow(c, l.writes, m + 1, i + 1);
      }
    }
    if m < l.synced {
      BytesGrow(c, l.writes, m + 1, l.synced);
    }
    assert l.synced <= m by {
      assert InCut(c, l, m, cut) ==> m < m;
    }
    FirstEncoded(c, l.writes, m);
    ReplayWrites(c, l.writes[..m], LogReader.ReadLog(setup, file).records, Recovery.Recovered([], 0, true));
    assert [] + AllReached(l.writes[..m]) == AllReached(l.writes[..m]);
    assert ReplayedLog(c, l, cut) == Entries(AllReached(l.writes[..m]));
    AllReachedIs(l, m);
  }

  lemma FirstEncoded(c: Codec, writes: seq<LogWrite>, m: nat)
    requires Encodes(c, writes) && m <= |writes|
    ensures Encodes(c, writes[..m])
  {
  }

  /** Every run of first appends that includes the synced ones is what some crash leaves. */
  lemma EveryPrefixIsLeft(c: Codec, l: LogFile, m: nat)
    requires Encodes(c, l.writes) && LogInStep(c, l.writes) && l.synced <= m <= |l.writes|
    ensures CutOf(c, l, |Bytes(c, l.writes[..m])|)
    ensures ReplayedLog(c, l, |Bytes(c, l.writes[..m])|) == LogEntries(l, m)
  {
    hide LogDamage.InStep, LogWriter.FileBytes, Encodes, ReplayedLog, Bytes;
    var cut := |Bytes(c, l.writes[..m])|;
    BytesGrow(c, l.writes, l.synced, m);
    BytesGrow(c, l.writes, m, |l.writes|);
    assert l.writes[..|l.writes|] == l.writes;
    var k := InStepLog(c, l, cut);
    forall i: nat | m <= i < k ensures Reached(l.writes[i]) == [] {
      if l.writes[i].lostAt.None? {
        assert InCut(c, l, i, cut);
        BytesGrow(c, l.writes, m, i);
        SuccessHasBytes(c, l.writes, i);
      }
    }
    if k < m {
      assert !InCut(c, l, k, cut);
      BytesGrow(c, l.writes, k + 1, m);
    }
    assert LogEntries(l, k) == LogEntries(l, m);
  }

  lemma SuccessHasBytes(c: Codec, writes: seq<LogWrite>, i: nat)
    requires i < |writes| && writes[i].lostAt.None?
    ensures |Bytes(c, writes[..i])| < |Bytes(c, writes[..i + 1])|
  {
    var B := c.fmt.blockSize;
    var before, a := Calls(c, writes[..i]), Call(c, writes[i]);
    assert Calls(c, writes[..i + 1]) == before + [a];
    hide LogWriter.FileBytes, LogWriter.PositionAfter;
    LogWriter.CallsConcat(c.fmt, 0, before, [a]);
    var at := LogWriter.PositionAfter(B, 0, before);
    LogWriter.OneCall(c.fmt, at, a);
    CallHasBytes(c.fmt, at, a);
  }

  lemma CallHasBytes(fmt: LogFormat.Format, at: nat, a: LogWriter.Attempt)
    requires a.lostAt.None?
    ensures |LogWriter.BytesOf(fmt, at, a)| > 0
  {
    hide LogFormat.Fragments, LogFormat.Image, LogFormat.Start, LogFormat.Off;
    var fs := LogFormat.Fragments(fmt.blockSize, at, a.record, true);
    LogFormat.FragmentsChain(fmt.blockSize, at, a.record, true);
    LogWriter.LogBytesOne(fmt, at, a.record);
    LogFormat.ImageLength(fmt, at, fs);
    LogDamage.ChainAscends(fmt.blockSize, at, fs, |fs| - 1);
  }

  /** A synced append that succeeded is brought back if the log was in step up to it, whatever came
      later. */
  lemma SyncedInStep(c: Codec, l: LogFile, cut: nat, i: nat)
    requires CutOf(c, l, cut) && i < l.synced && Encodes(c, l.writes[..i + 1]) && LogInStep(c, l.writes[..i + 1])
    ensures Entries(Reached(l.writes[i])) <= ReplayedLog(c, l, cut)
  {
    hide LogDamage.InStep, LogWriter.FileBytes, Encodes, LogReader.ReadLog, LogDamage.Successes, Recovery.Replay;
    var file := Bytes(c, l.writes)[..cut];
    var writes := l.writes[..i + 1];
    BytesGrow(c, l.writes, i + 1, l.synced);
    BytesGrow(c, l.writes, i + 1, |l.writes|);
    assert l.writes[..|l.writes|] == l.writes;
    assert Bytes(c, writes) <= file;
    LogDamage.InStepPrefix(LogReader.Setup(c.fmt, true, 0), Calls(c, writes), file);
    var found := LogReader.ReadLog(LogReader.Setup(c.fmt, true, 0), file).records;
    var n := |LogDamage.Successes(Calls(c, writes))|;
    assert LogDamage.Texts(found[..n]) == LogDamage.Texts(found)[..n];
    assert found[..n] + found[n..] == found;
    ReplayWrites(c, writes, found[..n], Recovery.Recovered([], 0, true));
    ReplayGoesOn(c.rank, found[..n], found[n..], Recovery.Recovered([], 0, true));
    forall e | e in Reached(l.writes[i]) ensures e in AllReached(writes) {
      assert writes[i] == l.writes[i];
      AllReachedSet(writes, e);
    }
    assert [] + AllReached(writes) == AllReached(writes);
  }

  /** Logs without failed appends are in step. */
  lemma UndamagedLog(c: Codec, writes: seq<LogWrite>)
    requires forall w :: w in writes ==> w.lostAt.None?
    ensures LogInStep(c, writes)
  {
    LogDamage.UndamagedInStep(c.fmt.blockSize, Calls(c, writes));
  }
}
