/** The circular doubly-linked list of snapshots. */
module Snapshots {
  import opened Keys

  class SnapshotImpl {
    const number: SequenceNumber
    var prev: SnapshotImpl?
    var next: SnapshotImpl?

    constructor (number: SequenceNumber)
      ensures this.number == number
    {
      this.number := number;
    }
  }

  predicate NoDuplicates(ring: seq<SnapshotImpl>) {
    forall i, j :: 0 <= i < j < |ring| ==> ring[i] != ring[j]
  }

  /** From the dummy head on, links lead around the ring, both ways. */
  predicate WellLinked(ring: seq<SnapshotImpl>)
    reads ring
  {
    && |ring| > 0
    && (forall i {:trigger ring[i].next} :: 0 <= i < |ring| - 1 ==> ring[i].next == ring[i + 1])
    && (forall i {:trigger ring[i].prev} :: 0 < i < |ring| ==> ring[i].prev == ring[i - 1])
    && ring[|ring| - 1].next == ring[0] && ring[0].prev == ring[|ring| - 1]
  }

  function Numbers(nodes: seq<SnapshotImpl>): (r: seq<SequenceNumber>)
    ensures |r| == |nodes| && forall i :: 0 <= i < |r| ==> r[i] == nodes[i].number
  {
    seq(|nodes|, i requires 0 <= i < |nodes| => nodes[i].number)
  }

  predicate Ascending(numbers: seq<SequenceNumber>) {
    forall i, j :: 0 <= i < j < |numbers| ==> numbers[i] <= numbers[j]
  }

  /** The sequence without its element k. */
  function Without<T>(s: seq<T>, k: nat): (r: seq<T>)
    requires k < |s|
    ensures |r| == |s| - 1 && forall i :: 0 <= i < |r| ==> r[i] == s[if i < k then i else i + 1]
  {
    s[..k] + s[k + 1..]
  }

  lemma AscendingAppend(numbers: seq<SequenceNumber>, n: SequenceNumber)
    requires Ascending(numbers) && forall m :: m in numbers ==> m <= n
    ensures Ascending(numbers + [n])
  {
    forall i | 0 <= i < |numbers| ensures numbers[i] <= n {
      assert numbers[i] in numbers;
    }
  }

  lemma NumbersWithout(nodes: seq<SnapshotImpl>, k: nat)
    requires k < |nodes|
    ensures Numbers(Without(nodes, k)) == Without(Numbers(nodes), k)
  {
    var a, b := Numbers(Without(nodes, k)), Without(Numbers(nodes), k);
    assert forall i :: 0 <= i < |a| ==> a[i] == b[i];
  }

  lemma AscendingWithout(numbers: seq<SequenceNumber>, k: nat)
    requires k < |numbers| && Ascending(numbers)
    ensures Ascending(Without(numbers, k))
  {
  }

  lemma OnlyAt(ring: seq<SnapshotImpl>, k: nat)
    requires k < |ring| && NoDuplicates(ring)
    ensures forall i :: 0 <= i < |ring| && i != k ==> ring[i] != ring[k]
  {
  }

  lemma RingWithout(head: SnapshotImpl, nodes: seq<SnapshotImpl>, k: nat)
    requires k < |nodes|
    ensures [head] + Without(nodes, k) == Without([head] + nodes, k + 1)
  {
  }

  class SnapshotList {
    const head: SnapshotImpl
    ghost var nodes: seq<SnapshotImpl>

    ghost function Ring(): seq<SnapshotImpl>
      reads this
    {
      [head] + nodes
    }

    ghost predicate Valid()
      reads this, Ring()
    {
      WellLinked(Ring()) && NoDuplicates(Ring()) && Ascending(Contents())
    }

    /** The snapshots' numbers, oldest first. */
    ghost function Contents(): seq<SequenceNumber>
      reads this
    {
      Numbers(nodes)
    }

    constructor ()
      ensures Valid() && nodes == [] && fresh(head)
    {
      head := new SnapshotImpl(0);
      nodes := [];
      new;
      head.prev, head.next := head, head;
    }

    method Empty() returns (empty: bool)
      requires Valid()
      ensures empty <==> nodes == []
    {
      assert Ring()[0] == head;
      empty := head.next == head;
      assert nodes != [] ==> Ring()[1] == nodes[0];
    }

    /** The smallest of all numbers. */
    method Oldest() returns (s: SnapshotImpl)
      requires Valid() && nodes != []
      ensures s == nodes[0] && forall n :: n in Contents() ==> s.number <= n
    {
      assert Ring()[0] == head && Ring()[1] == nodes[0];
      s := head.next;
    }

    method New(number: SequenceNumber) returns (s: SnapshotImpl)
      requires Valid() && forall n :: n in Contents() ==> n <= number
      modifies this, Ring()
      ensures Valid() && fresh(s) && s.number == number
      ensures nodes == old(nodes) + [s] && Contents() == old(Contents()) + [number]
    {
      ghost var ring, numbers := Ring(), Contents();
      assert ring[0] == head;
      s := new SnapshotImpl(number);
      assert s !in ring;
      s.next := head;
      s.prev := head.prev;
      s.prev.next := s;
      s.next.prev := s;
      nodes := nodes + [s];
      assert Contents() == numbers + [number];
      AscendingAppend(numbers, number);
      Appended(ring, s);
      hide NoDuplicates, WellLinked, Ascending;
      assert Ring() == ring + [s];
    }

    /** Takes out the snapshot, wherever it is. */
    method Delete(s: SnapshotImpl) returns (ghost k: nat)
      requires Valid() && s in nodes
      modifies this, Ring()
      ensures Valid()
      ensures k < |old(nodes)| && old(nodes)[k] == s
      ensures nodes == Without(old(nodes), k) && Contents() == Without(old(Contents()), k)
    {
      hide NoDuplicates, Ascending, Without, Numbers, WellLinked;
      k :| k < |nodes| && nodes[k] == s;
      NumbersWithout(nodes, k);
      AscendingWithout(Contents(), k);
      RingWithout(head, nodes, k);
      Unlink(s, Ring(), k + 1);
      nodes := Without(nodes, k);
    }

    method Unlink(s: SnapshotImpl, ghost ring: seq<SnapshotImpl>, ghost k: nat)
      requires WellLinked(ring) && NoDuplicates(ring) && 0 < k < |ring| && ring[k] == s
      modifies ring
      ensures WellLinked(Without(ring, k)) && NoDuplicates(Without(ring, k))
    {
      ghost var after := if k + 1 < |ring| then k + 1 else 0;
      ghost var rest := Without(ring, k);
      OnlyAt(ring, k - 1);
      OnlyAt(ring, after);
      DuplicatesWithout(ring, k);
      hide NoDuplicates;
      assert s.prev == ring[k - 1] && s.next == ring[after];
      s.prev.next := s.next;
      s.next.prev := s.prev;
      forall i | 0 <= i < |rest| - 1 ensures rest[i].next == rest[i + 1] {
      }
      forall i | 0 < i < |rest| ensures rest[i].prev == rest[i - 1] {
      }
    }
  }

  lemma DuplicatesWithout(ring: seq<SnapshotImpl>, k: nat)
    requires k < |ring| && NoDuplicates(ring)
    ensures NoDuplicates(Without(ring, k))
  {
  }

  twostate lemma Appended(ring: seq<SnapshotImpl>, new s: SnapshotImpl)
    requires old(WellLinked(ring)) && NoDuplicates(ring) && s !in ring
    requires forall i :: 0 <= i < |ring| - 1 ==> ring[i].next == old(ring[i].next)
    requires forall i :: 0 < i < |ring| ==> ring[i].prev == old(ring[i].prev)
    requires ring[|ring| - 1].next == s && s.next == ring[0] && ring[0].prev == s && s.prev == ring[|ring| - 1]
    ensures WellLinked(ring + [s]) && NoDuplicates(ring + [s])
  {
  }
}
