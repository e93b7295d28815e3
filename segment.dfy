/**
 * Segment.java: a typed, sequence-numbered message and `Segment.Buffer`, the
 * priority queue of segments ordered by sequence number that serves both as
 * the receiver's reassembly buffer and as the sender's unacknowledged queue.
 */
module Segments {
  import opened Wrappers
  import opened TransportDefs

  /**
   * A segment. `startTime` is the clock reading (in ms) taken when the
   * segment object was created; it is only used for RTT samples.
   */
  datatype Segment = Segment(kind: Kind, seqNum: int, payload: seq<Byte>, startTime: int)
  {
    /** getPayloadSize */
    function PayloadSize(): nat { |payload| }

    /** getRTT, given the current clock reading. */
    function RTT(now: int): int { now - startTime }

    /** compareTo: the sign of the comparison of the two sequence numbers. */
    function CompareTo(o: Segment): (r: int)
      ensures -1 <= r <= 1
      ensures r < 0 <==> seqNum < o.seqNum
      ensures r == 0 <==> seqNum == o.seqNum
      ensures r > 0 <==> seqNum > o.seqNum
    {
      if seqNum < o.seqNum then -1 else if seqNum == o.seqNum then 0 else 1
    }

    /** isNextTo: this segment starts exactly where `o` ends. */
    predicate IsNextTo(o: Segment) {
      o.seqNum + o.PayloadSize() == seqNum
    }
  }

  /** The two-argument constructor `Segment(seqNum, payload)`: a DATA segment. */
  function DataSegment(seqNum: int, payload: seq<Byte>, now: int): (s: Segment)
    ensures s.kind == DATA && s.seqNum == seqNum && s.payload == payload
    ensures s.startTime == now && s.PayloadSize() == |payload|
  {
    Segment(DATA, seqNum, payload, now)
  }

  /** The ordering of `compareTo` looks at sequence numbers only. */
  lemma CompareToOrdersBySeqNum(a: Segment, b: Segment, a': Segment, b': Segment)
    requires a'.seqNum == a.seqNum && b'.seqNum == b.seqNum
    ensures a.CompareTo(b) == a'.CompareTo(b')
    ensures a.CompareTo(b) == -b.CompareTo(a)
  {
  }

  /** Ascending sequence-number order: the order in which the queue yields segments. */
  ghost predicate Sorted(q: seq<Segment>) {
    forall i, j :: 0 <= i < j < |q| ==> q[i].seqNum <= q[j].seqNum
  }

  /** The sequence numbers occurring in `q`. */
  function SeqNums(q: seq<Segment>): set<int> {
    set s | s in q :: s.seqNum
  }

  /**
   * Insertion into the ordered queue. A new segment goes after every queued
   * segment with the same sequence number.
   */
  function Insert(q: seq<Segment>, s: Segment): (r: seq<Segment>)
    ensures |r| == |q| + 1
  {
    if q == [] || s.seqNum < q[0].seqNum then [s] + q
    else [q[0]] + Insert(q[1..], s)
  }

  /** Insertion adds exactly the new segment. */
  lemma {:induction false} InsertAddsOne(q: seq<Segment>, s: Segment)
    ensures multiset(Insert(q, s)) == multiset(q) + multiset{s}
  {
    if q != [] && s.seqNum >= q[0].seqNum {
      InsertAddsOne(q[1..], s);
      assert q == [q[0]] + q[1..];
    }
  }

  /** Insertion keeps the queue ordered. */
  lemma {:induction false} InsertKeepsOrder(q: seq<Segment>, s: Segment)
    requires Sorted(q)
    ensures Sorted(Insert(q, s))
  {
    if q == [] || s.seqNum < q[0].seqNum {
      SortedCons(s, q);
    } else {
      var rest := Insert(q[1..], s);
      InsertKeepsOrder(q[1..], s);
      InsertAddsOne(q[1..], s);
      forall x | x in rest ensures q[0].seqNum <= x.seqNum {
        assert x in multiset(rest);
        if x != s {
          assert x in multiset(q[1..]);
          assert x in q[1..];
        }
      }
      SortedCons(q[0], rest);
    }
  }

  /** Putting a least element in front of an ordered queue keeps it ordered. */
  lemma SortedCons(x: Segment, q: seq<Segment>)
    requires Sorted(q)
    requires forall y :: y in q ==> x.seqNum <= y.seqNum
    ensures Sorted([x] + q)
  {
    var r := [x] + q;
    forall i, j | 0 <= i < j < |r| ensures r[i].seqNum <= r[j].seqNum {
      assert r[j] == q[j - 1];
      if i > 0 { assert r[i] == q[i - 1]; }
    }
  }

  /**
   * Two segments with different sequence numbers end up in the same place
   * whichever arrives first: the queue's contents do not depend on the order
   * of arrival.
   */
  lemma {:induction false} InsertCommutes(q: seq<Segment>, s: Segment, t: Segment)
    requires s.seqNum != t.seqNum
    ensures Insert(Insert(q, s), t) == Insert(Insert(q, t), s)
  {
    if q != [] && s.seqNum >= q[0].seqNum && t.seqNum >= q[0].seqNum {
      InsertCommutes(q[1..], s, t);
    }
  }

  /**
   * The number of leading segments removed by the loop
   * `while (peekSeqNum() != -1 && peekSeqNum() < n) poll();`.
   * It stops at the first segment at or above `n`, and also at a segment
   * whose sequence number is the sentinel -1.
   */
  function PruneCount(q: seq<Segment>, n: int): (k: nat)
    ensures k <= |q|
    ensures forall i :: 0 <= i < k ==> q[i].seqNum != -1 && q[i].seqNum < n
    ensures k < |q| ==> q[k].seqNum == -1 || q[k].seqNum >= n
  {
    if q == [] || q[0].seqNum == -1 || q[0].seqNum >= n then 0
    else 1 + PruneCount(q[1..], n)
  }

  /** The prune loop polls a segment only while it is still below the prune count. */
  lemma PruneContinues(q: seq<Segment>, n: int, i: nat)
    requires i <= PruneCount(q, n) && i < |q|
    requires q[i].seqNum != -1 && q[i].seqNum < n
    ensures i < PruneCount(q, n)
  {
  }

  /** Where the prune loop stops is the prune count. */
  lemma PruneStops(q: seq<Segment>, n: int, i: nat)
    requires i <= PruneCount(q, n)
    requires i == |q| || q[i].seqNum == -1 || q[i].seqNum >= n
    ensures i == PruneCount(q, n)
  {
  }

  /**
   * On an ordered queue without the sentinel sequence number, pruning below
   * `n` removes exactly the segments whose sequence number is below `n`.
   */
  lemma PruneRemovesExactlyBelow(q: seq<Segment>, n: int)
    requires Sorted(q)
    requires -1 !in SeqNums(q)
    ensures forall i :: 0 <= i < |q| ==> (i < PruneCount(q, n) <==> q[i].seqNum < n)
  {
    var k := PruneCount(q, n);
    forall i | 0 <= i < |q| ensures i < k <==> q[i].seqNum < n {
      if k <= i {
        assert q[k] in q;
        assert q[k].seqNum <= q[i].seqNum;
      }
    }
  }

  /** Pruning twice with the same bound removes nothing the second time. */
  lemma PruneIsIdempotent(q: seq<Segment>, n: int)
    ensures PruneCount(q[PruneCount(q, n)..], n) == 0
  {
  }

  /** Segment.Buffer: a priority queue of segments, least sequence number first. */
  class Buffer {
    /** The queued segments in the order `poll` yields them. */
    var q: seq<Segment>

    ghost predicate Valid()
      reads this
    {
      Sorted(q)
    }

    constructor()
      ensures Valid() && q == []
    {
      q := [];
    }

    /** PriorityQueue.add(Segment). */
    method AddSegment(s: Segment)
      requires Valid()
      modifies this
      ensures Valid()
      ensures q == Insert(old(q), s)
      ensures multiset(q) == old(multiset(q)) + multiset{s}
    {
      InsertAddsOne(q, s);
      InsertKeepsOrder(q, s);
      q := Insert(q, s);
    }

    /** add(seqNum, payload): queues a DATA segment created at time `now`. */
    method AddData(seqNum: int, payload: seq<Byte>, now: int)
      requires Valid()
      modifies this
      ensures Valid()
      ensures q == Insert(old(q), DataSegment(seqNum, payload, now))
      ensures multiset(q) == old(multiset(q)) + multiset{Segment(DATA, seqNum, payload, now)}
    {
      AddSegment(DataSegment(seqNum, payload, now));
    }

    /** add(type, seqNum, payload): queues a segment of the given type. */
    method Add(kind: Kind, seqNum: int, payload: seq<Byte>, now: int)
      requires Valid()
      modifies this
      ensures Valid()
      ensures q == Insert(old(q), Segment(kind, seqNum, payload, now))
      ensures multiset(q) == old(multiset(q)) + multiset{Segment(kind, seqNum, payload, now)}
    {
      AddSegment(Segment(kind, seqNum, payload, now));
    }

    /** peek: a segment of least sequence number, or none when empty. */
    function Peek(): (r: Option<Segment>)
      reads this
      requires Valid()
      ensures r.None? <==> q == []
      ensures r.Some? ==> r.value in q && forall s :: s in q ==> r.value.seqNum <= s.seqNum
    {
      if q == [] then None else Some(q[0])
    }

    /** peekSeqNum: the least queued sequence number, or -1 when empty. */
    function PeekSeqNum(): (r: int)
      reads this
      requires Valid()
      ensures q == [] ==> r == -1
      ensures q != [] ==> r == Peek().value.seqNum
      ensures q != [] ==> forall s :: s in q ==> r <= s.seqNum
    {
      if q == [] then -1 else q[0].seqNum
    }

    /** poll: removes and returns a segment of least sequence number. */
    method Poll() returns (r: Option<Segment>)
      requires Valid()
      modifies this
      ensures Valid()
      ensures r == old(Peek())
      ensures r.None? ==> q == old(q)
      ensures r.Some? ==> q == old(q)[1..]
      ensures r.Some? ==> multiset(q) == old(multiset(q)) - multiset{r.value}
    {
      if q == [] {
        r := None;
      } else {
        r := Some(q[0]);
        assert q == [q[0]] + q[1..];
        q := q[1..];
      }
    }
  }

  /** When no sequence number is negative, -1 from peekSeqNum means exactly "empty". */
  lemma PeekSeqNumSentinel(b: Buffer)
    requires b.Valid()
    requires forall s :: s in b.q ==> s.seqNum >= 0
    ensures b.PeekSeqNum() == -1 <==> b.q == []
  {
  }
}
