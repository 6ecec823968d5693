/** DBImpl::RecoverLogFile: a memtable rebuilt from the records of one log. */
module Recovery {
  import opened Keys
  import opened LogFormat
  import opened LogReader
  import opened LogRecovery
  import opened Coding
  import opened WriteBatches

  /** The entries added to memtables, in order, the highest sequence number, and the status. */
  datatype Recovered = Recovered(entries: seq<Entry>, maxSequence: nat, ok: bool)

  /** Sequence(&batch) + Count(&batch) - 1, in 64 bits. */
  function LastSequenceOf(contents: seq<byte>): nat
    requires |contents| >= BATCH_HEADER
  {
    (BatchSequence(contents) + BatchCount(contents) - 1) % TWO_64
  }

  function Max(a: nat, b: nat): nat {
    if a < b then b else a
  }

  /** One record. Without paranoid checks errors are passed over. */
  function ReplayRecord(rank: seq<byte> -> UserKey, paranoid: bool, contents: seq<byte>, st: Recovered): Recovered {
    if |contents| < BATCH_HEADER then st.(ok := !paranoid)
    else
      var inserted := InsertAll(rank, contents);
      if !inserted.ok && paranoid then Recovered(st.entries + inserted.entries, st.maxSequence, false)
      else Recovered(st.entries + inserted.entries, Max(st.maxSequence, LastSequenceOf(contents)), true)
  }

  function Replay(rank: seq<byte> -> UserKey, paranoid: bool, records: seq<Found>, st: Recovered): Recovered
    decreases |records|
  {
    if records == [] || !st.ok then st
    else Replay(rank, paranoid, records[1..], ReplayRecord(rank, paranoid, records[0].record, st))
  }

  predicate SoundRecord(rank: seq<byte> -> UserKey, contents: seq<byte>) {
    |contents| >= BATCH_HEADER && InsertAll(rank, contents).ok
  }

  /** What records of any kind give: nothing if they are too small for a batch, and otherwise the updates that
      can be read. */
  function ReadableEntries(rank: seq<byte> -> UserKey, records: seq<Found>): seq<Entry>
    decreases |records|
  {
    if records == [] then []
    else
      (if |records[0].record| < BATCH_HEADER then [] else InsertAll(rank, records[0].record).entries)
      + ReadableEntries(rank, records[1..])
  }

  /** With paranoid checks recovery succeeds if and only if every record is a sound batch; without them it
      always does, and nothing that can be read is left out. */
  lemma {:induction false} ReplayOkIff(rank: seq<byte> -> UserKey, paranoid: bool, records: seq<Found>, st: Recovered)
    requires st.ok
    ensures var r := Replay(rank, paranoid, records, st);
      && (r.ok <==> !paranoid || forall i :: 0 <= i < |records| ==> SoundRecord(rank, records[i].record))
      && (r.ok ==> r.entries == st.entries + ReadableEntries(rank, records))
    decreases |records|
  {
    hide InsertAll, LastSequenceOf;
    if records != [] {
      var first := records[0].record;
      var st' := ReplayRecord(rank, paranoid, first, st);
      if st'.ok {
        ReplayOkIff(rank, paranoid, records[1..], st');
        var entries := if |first| < BATCH_HEADER then [] else InsertAll(rank, first).entries;
        assert st'.entries == st.entries + entries;
        assert st.entries + entries + ReadableEntries(rank, records[1..]) == st.entries + (entries + ReadableEntries(rank, records[1..]));
        assert forall i :: 0 < i < |records| ==> records[i] == records[1..][i - 1];
      } else {
        assert !SoundRecord(rank, records[0].record);
      }
    }
  }

  method RecoverLogFile(rank: seq<byte> -> UserKey, paranoid: bool, fmt: Format, file: seq<byte>, maxSequence: nat)
    returns (entries: seq<Entry>, lastSequence: nat, ok: bool)
    ensures var reading := ReadLog(Setup(fmt, true, 0), file);
      && (!paranoid || reading.reports == [] ==>
            Recovered(entries, lastSequence, ok) == Replay(rank, paranoid, reading.records, Recovered([], maxSequence, true)))
      && (paranoid && reading.reports != [] ==> !ok)
  {
    hide ReadAll, InsertAll, LastSequenceOf;
    var reader := new Reader(Setup(fmt, true, 0), file);
    ghost var reading := ReadLog(reader.setup, file);
    entries, lastSequence, ok := [], maxSequence, true;
    ghost var rest := reader.Rest();
    assert rest == reading;
    var more, record := true, [];
    while more && ok
      invariant reader.Valid() && reader.file == file && reader.setup == Setup(fmt, true, 0)
      invariant more ==> reader.Ready()
      invariant more && ok ==> rest == reader.Rest()
      invariant !more ==> rest == Reading([], [])
      invariant reading.reports == reader.reports + rest.reports || !ok
      invariant !paranoid || reading.reports == [] ==>
        Replay(rank, paranoid, rest.records, Recovered(entries, lastSequence, ok))
          == Replay(rank, paranoid, reading.records, Recovered([], maxSequence, true))
      invariant paranoid ==> reader.reports == [] || !ok
      decreases more, ok, |file| - reader.Pos()
    {
      var before := |reader.reports|;
      ghost var tail := rest;
      more, record := reader.ReadRecord();
      var reported := |reader.reports| > before;
      if more {
        rest := reader.Rest();
        assert tail.records[1..] == rest.records;
      } else {
        rest := Reading([], []);
      }
      if paranoid && reported {
        ok := false;
      }
      if more && ok {
        ghost var st := Recovered(entries, lastSequence, true);
        if |record| < BATCH_HEADER {
          ok := !paranoid;
        } else {
          var mem, sound := InsertInto(rank, record);
          entries := entries + mem;
          if !sound && paranoid {
            ok := false;
          } else {
            lastSequence := Max(lastSequence, LastSequenceOf(record));
          }
        }
        assert Recovered(entries, lastSequence, ok) == ReplayRecord(rank, paranoid, record, st);
      }
    }
  }

  // ---------- a log of group commits, cut short ----------

  datatype Commit = Commit(first: nat, updates: seq<Update>)

  /** Each commit's numbers follow the previous one's; the first follows `last`. */
  ghost predicate Contiguous(commits: seq<Commit>, last: nat)
    decreases |commits|
  {
    commits == [] ||
    (&& commits[0].first == last + 1
     && last + |commits[0].updates| <= MAX_SEQUENCE
     && |commits[0].updates| < 0x8000_0000 && Encodable(commits[0].updates)
     && Contiguous(commits[1..], last + |commits[0].updates|))
  }

  function Total(commits: seq<Commit>): nat
    decreases |commits|
  {
    if commits == [] then 0 else |commits[0].updates| + Total(commits[1..])
  }

  ghost function AllEntries(rank: seq<byte> -> UserKey, commits: seq<Commit>): seq<Entry>
    decreases |commits|
  {
    if commits == [] then [] else EntriesOf(rank, commits[0].first, commits[0].updates) + AllEntries(rank, commits[1..])
  }

  /** The record a group commit writes. */
  function RecordOf(c: Commit): seq<byte>
    requires c.first < TWO_64 && |c.updates| < TWO_32 && Encodable(c.updates)
  {
    Rep(c.first, c.updates)
  }

  ghost predicate Records(commits: seq<Commit>, records: seq<seq<byte>>) {
    && |records| == |commits|
    && forall i :: 0 <= i < |commits| ==>
         && commits[i].first < TWO_64 && |commits[i].updates| < 0x8000_0000 && Encodable(commits[i].updates)
         && records[i] == RecordOf(commits[i])
  }

  /** The highest number after replaying the commits, whatever it was before. */
  function HighestAfter(start: nat, commits: seq<Commit>, last: nat): nat {
    if commits == [] then start else Max(start, last + Total(commits))
  }

  lemma HighestGrows(start: nat, commits: seq<Commit>, last: nat)
    requires commits != []
    ensures var n := |commits[0].updates|;
      HighestAfter(Max(start, last + n), commits[1..], last + n) == HighestAfter(start, commits, last)
  {
    assert Total(commits) == |commits[0].updates| + Total(commits[1..]);
    assert commits[1..] == [] ==> Total(commits[1..]) == 0;
  }

  lemma {:induction false} ReplayCommits(rank: seq<byte> -> UserKey, paranoid: bool, commits: seq<Commit>, last: nat, found: seq<Found>, st: Recovered)
    requires Contiguous(commits, last) && |found| == |commits|
    requires forall i :: 0 <= i < |found| ==>
      && commits[i].first < TWO_64 && |commits[i].updates| < 0x8000_0000 && Encodable(commits[i].updates)
      && found[i].record == RecordOf(commits[i])
    requires st.ok
    ensures Replay(rank, paranoid, found, st)
         == Recovered(st.entries + AllEntries(rank, commits), HighestAfter(st.maxSequence, commits, last), true)
    decreases |commits|
  {
    hide Rep, InsertAll, BatchSequence, BatchCount, EntriesOf;
    if commits != [] {
      var c := commits[0];
      InsertAllOf(rank, c.first, c.updates);
      var st' := ReplayRecord(rank, paranoid, found[0].record, st);
      assert st' == Recovered(st.entries + EntriesOf(rank, c.first, c.updates), Max(st.maxSequence, last + |c.updates|), true);
      HighestGrows(st.maxSequence, commits, last);
      ReplayCommits(rank, paranoid, commits[1..], last + |c.updates|, found[1..], st');
      assert (st.entries + EntriesOf(rank, c.first, c.updates)) + AllEntries(rank, commits[1..])
          == st.entries + (EntriesOf(rank, c.first, c.updates) + AllEntries(rank, commits[1..]));
    } else {
      assert st.entries + [] == st.entries;
    }
  }

  lemma {:induction false} ContiguousPrefix(commits: seq<Commit>, last: nat, m: nat)
    requires Contiguous(commits, last) && m <= |commits|
    ensures Contiguous(commits[..m], last)
    decreases m
  {
    if m > 0 {
      assert commits[..m][1..] == commits[1..][..m - 1];
      ContiguousPrefix(commits[1..], last + |commits[0].updates|, m - 1);
    }
  }

  /** Recovery from a log cut at any byte rebuilds exactly the commits whose records lie wholly in
      the bytes kept, which are a prefix of all commits, and reports no corruption. The highest number
      starts at what earlier logs gave, or at 0. */
  lemma CrashRecoveryIsPrefix(rank: seq<byte> -> UserKey, paranoid: bool, fmt: Format, commits: seq<Commit>, last: nat,
                              records: seq<seq<byte>>, n: nat, start: nat) returns (m: nat)
    requires Contiguous(commits, last) && Records(commits, records)
    requires n <= |LogBytes(fmt, 0, records)|
    ensures m <= |commits|
    ensures |LogBytes(fmt, 0, records[..m])| <= n
    ensures m < |commits| ==> |LogBytes(fmt, 0, records[..m + 1])| > n
    ensures var reading := ReadLog(Setup(fmt, true, 0), LogBytes(fmt, 0, records)[..n]);
      && reading.reports == []
      && Replay(rank, paranoid, reading.records, Recovered([], start, true))
         == Recovered(AllEntries(rank, commits[..m]), HighestAfter(start, commits[..m], last), true)
  {
    hide LogBytes, ReadAll, Delivered, Replay, Rep;
    var c := Setup(fmt, true, 0);
    ReadLogDelivers(c, records, n);
    m := DeliveredIsPrefix(c, records, n);
    var found := Delivered(c, 0, records, n);
    ContiguousPrefix(commits, last, m);
    ReplayCommits(rank, paranoid, commits[..m], last, found, Recovered([], start, true));
    assert [] + AllEntries(rank, commits[..m]) == AllEntries(rank, commits[..m]);
  }
}
