/**
 * TCPSockClientTimer.java: the retransmission timer. It keeps its own queue
 * of unacknowledged segments, resends the head on a timeout, and on a
 * cumulative ACK prunes the queue and feeds the RTT samples of segments that
 * were never retransmitted into the estimate of the timeout interval.
 */
module SockClientTimer {
  import opened Wrappers
  import opened TransportDefs
  import opened Segments
  import opened SockClient

  /** Initial timeout interval and RTT estimate (ms). */
  const DEFAULT_TIMEOUT: int := 1000

  /** A retransmission handed to the client: the segment's type, sequence number and payload. */
  datatype Resend = Resend(kind: Kind, seqNum: int, payload: seq<Byte>)

  /** The estimator's state: estimatedRTT, devRTT and the timeout interval derived from them. */
  datatype Estimate = Estimate(estimatedRTT: real, devRTT: real, timeoutInterval: int)

  function Initial(): Estimate {
    Estimate(DEFAULT_TIMEOUT as real, 0.0, DEFAULT_TIMEOUT)
  }

  function Abs(x: real): real {
    if x < 0.0 then -x else x
  }

  function MinReal(a: real, b: real): real {
    if a <= b then a else b
  }

  function MaxReal(a: real, b: real): real {
    if a <= b then b else a
  }

  /** The (int) cast of a double: truncation toward zero. */
  function TruncToInt(x: real): (r: int)
    ensures 0.0 <= x ==> 0 <= r && r as real <= x < r as real + 1.0
    ensures x < 0.0 ==> r <= 0 && r as real - 1.0 < x <= r as real
  {
    if x >= 0.0 then x.Floor else -((-x).Floor)
  }

  /**
   * recalculateTimeoutInterval(sampleRTT): exponentially weighted averages of
   * the RTT (gain 1/8) and of its deviation (gain 1/4), the deviation being
   * measured against the updated average; the timeout is the average plus
   * four deviations, truncated.
   */
  function Recalculate(e: Estimate, sample: int): Estimate {
    var est := 0.875 * e.estimatedRTT + 0.125 * sample as real;
    var dev := 0.75 * e.devRTT + 0.25 * Abs(sample as real - est);
    Estimate(est, dev, TruncToInt(est + 4.0 * dev))
  }

  /** The estimate after feeding `samples` in order, starting from `e`. */
  function FoldRtt(e: Estimate, samples: seq<int>): Estimate {
    if samples == [] then e
    else Recalculate(FoldRtt(e, samples[..|samples| - 1]), samples[|samples| - 1])
  }

  /**
   * One update moves the average toward the sample without overshooting it,
   * keeps the deviation non-negative, and sets a timeout no shorter than the
   * truncated average.
   */
  lemma RecalculateBounds(e: Estimate, sample: int)
    requires e.devRTT >= 0.0
    ensures var e' := Recalculate(e, sample);
      && MinReal(e.estimatedRTT, sample as real) <= e'.estimatedRTT <= MaxReal(e.estimatedRTT, sample as real)
      && e'.devRTT >= 0.0
      && e'.timeoutInterval >= TruncToInt(e'.estimatedRTT)
  {
    var e' := Recalculate(e, sample);
    var x, y := e'.estimatedRTT, e'.estimatedRTT + 4.0 * e'.devRTT;
    assert x <= y;
    if 0.0 <= x {
      assert x.Floor <= y.Floor;
    } else if y < 0.0 {
      assert (-y).Floor <= (-x).Floor;
    }
  }

  /**
   * Fed only samples within [lo, hi], an average that starts there stays
   * there, and the deviation stays non-negative.
   */
  lemma {:induction false} FoldStaysWithin(e: Estimate, samples: seq<int>, lo: real, hi: real)
    requires lo <= e.estimatedRTT <= hi && e.devRTT >= 0.0
    requires forall i :: 0 <= i < |samples| ==> lo <= samples[i] as real <= hi
    ensures lo <= FoldRtt(e, samples).estimatedRTT <= hi
    ensures FoldRtt(e, samples).devRTT >= 0.0
  {
    if samples != [] {
      var init := samples[..|samples| - 1];
      FoldStaysWithin(e, init, lo, hi);
      RecalculateBounds(FoldRtt(e, init), samples[|samples| - 1]);
    }
  }

  /** How many segments of `p` carry sequence number `x`. */
  function Occurrences(p: seq<Segment>, x: int): nat {
    if p == [] then 0
    else Occurrences(p[..|p| - 1], x) + (if p[|p| - 1].seqNum == x then 1 else 0)
  }

  /**
   * The map that pruneQueue's first loop builds from the polled segments `p`
   * (in polling order), the clock reading `now` giving each RTT sample.
   */
  function SampleMap(p: seq<Segment>, now: int): map<int, int> {
    if p == [] then map[]
    else
      var m := SampleMap(p[..|p| - 1], now);
      var s := p[|p| - 1];
      m[s.seqNum := if s.seqNum in m then -1 else s.RTT(now)]
  }

  /**
   * Karn's rule as pruneQueue implements it: the map has a key for every
   * polled sequence number; one polled exactly once maps to that segment's
   * RTT sample, one polled two or more times maps to -1.
   */
  lemma {:induction false} SampleMapSpec(p: seq<Segment>, now: int)
    ensures forall x :: x in SampleMap(p, now) <==> Occurrences(p, x) > 0
    ensures forall x :: Occurrences(p, x) >= 2 ==> x in SampleMap(p, now) && SampleMap(p, now)[x] == -1
    ensures forall i :: 0 <= i < |p| && Occurrences(p, p[i].seqNum) == 1 ==>
              p[i].seqNum in SampleMap(p, now) && SampleMap(p, now)[p[i].seqNum] == p[i].RTT(now)
  {
    if p != [] {
      var init, s := p[..|p| - 1], p[|p| - 1];
      SampleMapSpec(init, now);
      forall i | 0 <= i < |p| - 1
        ensures Occurrences(p, p[i].seqNum) == 1 ==>
                  p[i].seqNum in SampleMap(p, now) && SampleMap(p, now)[p[i].seqNum] == p[i].RTT(now)
      {
        assert p[i] == init[i];
        OccursWhereItIs(init, i);
      }
    }
  }

  /** A sequence number occurs at least once where it appears. */
  lemma {:induction false} OccursWhereItIs(p: seq<Segment>, i: nat)
    requires i < |p|
    ensures Occurrences(p, p[i].seqNum) >= 1
  {
    if i < |p| - 1 {
      assert p[..|p| - 1][i] == p[i];
      OccursWhereItIs(p[..|p| - 1], i);
    }
  }

  /** A sequence number that occurs in `p` sits at some index of it. */
  lemma {:induction false} OccurrenceAt(p: seq<Segment>, x: int) returns (i: nat)
    requires Occurrences(p, x) > 0
    ensures i < |p| && p[i].seqNum == x
  {
    if p[|p| - 1].seqNum == x {
      i := |p| - 1;
    } else {
      i := OccurrenceAt(p[..|p| - 1], x);
    }
  }

  /**
   * When no polled segment was created after the clock reading `now`, no
   * RTT sample collides with the -1 mark, so the values other than -1 are
   * exactly those of the sequence numbers polled once.
   */
  lemma KarnFeedsPolledOnce(p: seq<Segment>, now: int)
    requires forall i :: 0 <= i < |p| ==> p[i].startTime <= now
    ensures forall x :: x in SampleMap(p, now) && SampleMap(p, now)[x] != -1 <==> Occurrences(p, x) == 1
  {
    SampleMapSpec(p, now);
    forall x | Occurrences(p, x) == 1
      ensures x in SampleMap(p, now) && SampleMap(p, now)[x] != -1
    {
      var i := OccurrenceAt(p, x);
    }
  }

  /** One more polled segment updates the map as pruneQueue's two puts do. */
  lemma SampleMapStep(q: seq<Segment>, i: nat, now: int, m: map<int, int>, m': map<int, int>)
    requires i < |q| && m == SampleMap(q[..i], now)
    requires q[i].seqNum in m ==> m' == m[q[i].seqNum := q[i].RTT(now)][q[i].seqNum := -1]
    requires q[i].seqNum !in m ==> m' == m[q[i].seqNum := q[i].RTT(now)]
    ensures m' == SampleMap(q[..i + 1], now)
  {
    assert q[..i + 1][..i] == q[..i];
  }

  /** Feeding one more sample applies one more update. */
  lemma FoldStep(e: Estimate, samples: seq<int>, x: int)
    ensures FoldRtt(e, samples + [x]) == Recalculate(FoldRtt(e, samples), x)
  {
    assert (samples + [x])[..|samples|] == samples;
  }

  /** A member of a non-empty set. */
  lemma Member(s: set<int>) returns (x: int)
    requires s != {}
    ensures x in s
  {
    if forall y :: y !in s {
      assert false;
    }
    x :| x in s;
  }

  class TCPSockClientTimer {
    /** Segments sent and not yet acknowledged, least sequence number first. */
    const segmentQueue: Buffer
    var running: bool
    var timeoutInterval: int
    var estimatedRTT: real
    var devRTT: real

    /** Every timer armed so far, oldest first. */
    ghost var armed: seq<Armed>
    /** Every segment handed back to the client for retransmission, oldest first. */
    ghost var resent: seq<Resend>

    ghost predicate Valid()
      reads this, segmentQueue
    {
      segmentQueue.Valid()
    }

    /** The estimator's fields, as one value. */
    function Current(): Estimate
      reads this
    {
      Estimate(estimatedRTT, devRTT, timeoutInterval)
    }

    constructor()
      ensures Valid() && fresh(segmentQueue)
      ensures segmentQueue.q == [] && !running
      ensures Current() == Initial()
      ensures armed == [] && resent == []
    {
      segmentQueue := new Buffer();
      running := false;
      timeoutInterval := DEFAULT_TIMEOUT;
      estimatedRTT := DEFAULT_TIMEOUT as real;
      devRTT := 0.0;
      armed, resent := [], [];
    }

    /**
     * timeout(sock, seqNum): with an empty queue the timer stops. Otherwise
     * the head segment is resent (it stays queued) and the timer is started
     * again. The `seqNum` argument plays no part.
     */
    method Timeout(seqNum: int, created: bool)
      requires Valid()
      modifies this`running, this`armed, this`resent
      ensures Valid()
      ensures segmentQueue.q == [] ==>
                !running && armed == old(armed) && resent == old(resent)
      ensures segmentQueue.q != [] ==>
                resent == old(resent) + [Resend(segmentQueue.q[0].kind, segmentQueue.q[0].seqNum, segmentQueue.q[0].payload)]
      ensures segmentQueue.q != [] && (segmentQueue.PeekSeqNum() == -1 || !created) ==>
                running == old(running) && armed == old(armed)
      ensures segmentQueue.q != [] && segmentQueue.PeekSeqNum() != -1 && created ==>
                running && armed == old(armed) + [Armed(timeoutInterval, segmentQueue.PeekSeqNum())]
    {
      var segment := PeekQueue();
      if segment.None? {
        Stop();
        return;
      }
      resent := resent + [Resend(segment.value.kind, segment.value.seqNum, segment.value.payload)];
      Start(created);
    }

    /**
     * start: nothing happens when peekSeqNum reports -1. Otherwise a timer of
     * `timeoutInterval` ms carrying the least queued sequence number is armed
     * and the timer is marked running; `created` is false when the callback
     * cannot be built, in which case nothing changes either.
     */
    method Start(created: bool)
      requires Valid()
      modifies this`running, this`armed
      ensures Valid()
      ensures segmentQueue.PeekSeqNum() == -1 || !created ==>
                running == old(running) && armed == old(armed)
      ensures segmentQueue.PeekSeqNum() != -1 && created ==>
                running && armed == old(armed) + [Armed(timeoutInterval, segmentQueue.PeekSeqNum())]
    {
      var seqNumMin := segmentQueue.PeekSeqNum();
      if seqNumMin == -1 {
        return;
      }
      if !created {
        return;
      }
      armed := armed + [Armed(timeoutInterval, seqNumMin)];
      running := true;
    }

    /** stop */
    method Stop()
      modifies this`running
      ensures !running
    {
      running := false;
    }

    /** isRunning */
    predicate IsRunning()
      reads this
    {
      running
    }

    /** addToQueue: queues a sent segment of the given type. */
    method AddToQueue(kind: Kind, seqNum: int, payload: seq<Byte>, now: int)
      requires Valid()
      modifies segmentQueue
      ensures Valid()
      ensures segmentQueue.q == Insert(old(segmentQueue.q), Segment(kind, seqNum, payload, now))
      ensures multiset(segmentQueue.q) == old(multiset(segmentQueue.q)) + multiset{Segment(kind, seqNum, payload, now)}
    {
      segmentQueue.Add(kind, seqNum, payload, now);
    }

    /** peekQueue: a queued segment of least sequence number, if any. */
    function PeekQueue(): (r: Option<Segment>)
      reads this, segmentQueue
      requires Valid()
      ensures r.None? <==> segmentQueue.q == []
      ensures r.Some? ==> r.value == segmentQueue.q[0]
      ensures r.Some? ==> forall s :: s in segmentQueue.q ==> r.value.seqNum <= s.seqNum
    {
      segmentQueue.Peek()
    }

    /** recalculateTimeoutInterval */
    method RecalculateTimeoutInterval(sampleRTT: int)
      modifies this`estimatedRTT, this`devRTT, this`timeoutInterval
      ensures Current() == Recalculate(old(Current()), sampleRTT)
    {
      estimatedRTT := 0.875 * estimatedRTT + 0.125 * sampleRTT as real;
      devRTT := 0.75 * devRTT + 0.25 * Abs(sampleRTT as real - estimatedRTT);
      timeoutInterval := TruncToInt(estimatedRTT + 4.0 * devRTT);
    }

    /**
     * pruneQueue(n): polls while the least sequence number is not -1 and
     * below `n`, recording in a map each polled sequence number's RTT sample,
     * or -1 once it has been polled twice. Every value other than -1 is then
     * fed to the estimator, in the map's iteration order (`fed` lists the
     * keys in that order, `samples` their values).
     */
    method PruneQueue(n: int, now: int) returns (ghost fed: seq<int>, ghost samples: seq<int>)
      requires Valid()
      modifies this`estimatedRTT, this`devRTT, this`timeoutInterval, segmentQueue
      ensures Valid()
      ensures segmentQueue.q == old(segmentQueue.q)[PruneCount(old(segmentQueue.q), n)..]
      ensures var m := SampleMap(old(segmentQueue.q)[..PruneCount(old(segmentQueue.q), n)], now);
        && (forall x :: x in fed <==> x in m && m[x] != -1)
        && (forall i, j :: 0 <= i < j < |fed| ==> fed[i] != fed[j])
        && |samples| == |fed|
        && (forall i :: 0 <= i < |fed| ==> fed[i] in m && samples[i] == m[fed[i]])
      ensures Current() == FoldRtt(old(Current()), samples)
      ensures PruneCount(old(segmentQueue.q), n) == 0 ==> Current() == old(Current())
      ensures var p := old(segmentQueue.q)[..PruneCount(old(segmentQueue.q), n)];
        (forall i :: 0 <= i < |p| ==> p[i].startTime <= now) ==>
          forall x :: x in fed <==> Occurrences(p, x) == 1
    {
      ghost var q0 := segmentQueue.q;
      var sampleRTTMap := PollAcked(n, now);
      fed, samples := FeedSamples(sampleRTTMap);
      ghost var p := q0[..PruneCount(q0, n)];
      if forall i :: 0 <= i < |p| ==> p[i].startTime <= now {
        KarnFeedsPolledOnce(p, now);
      }
      if PruneCount(q0, n) == 0 {
        assert sampleRTTMap == map[] by {
          assert q0[..0] == [];
        }
      }
    }

    /**
     * The first loop of pruneQueue: polls the acknowledged segments and
     * builds the map from their sequence numbers to RTT samples.
     */
    method PollAcked(n: int, now: int) returns (sampleRTTMap: map<int, int>)
      requires Valid()
      modifies segmentQueue
      ensures Valid()
      ensures segmentQueue.q == old(segmentQueue.q)[PruneCount(old(segmentQueue.q), n)..]
      ensures sampleRTTMap == SampleMap(old(segmentQueue.q)[..PruneCount(old(segmentQueue.q), n)], now)
    {
      ghost var q0 := segmentQueue.q;
      ghost var i := 0;
      sampleRTTMap := map[];
      while segmentQueue.PeekSeqNum() != -1 && segmentQueue.PeekSeqNum() < n
        invariant segmentQueue.Valid()
        invariant 0 <= i <= PruneCount(q0, n)
        invariant segmentQueue.q == q0[i..]
        invariant sampleRTTMap == SampleMap(q0[..i], now)
        decreases |segmentQueue.q|
      {
        PruneContinues(q0, n, i);
        ghost var m := sampleRTTMap;
        var acked := segmentQueue.Poll();
        var ackedSegment := acked.value;
        var sampleRTTOrig := if ackedSegment.seqNum in sampleRTTMap then Some(sampleRTTMap[ackedSegment.seqNum]) else None;
        sampleRTTMap := sampleRTTMap[ackedSegment.seqNum := ackedSegment.RTT(now)];
        if sampleRTTOrig.Some? {
          sampleRTTMap := sampleRTTMap[ackedSegment.seqNum := -1];
        }
        SampleMapStep(q0, i, now, m, sampleRTTMap);
        i := i + 1;
      }
      PruneStops(q0, n, i);
    }

    /**
     * The second loop of pruneQueue: visits every key of the map once, in an
     * order the map chooses, and feeds each value other than -1 to the
     * estimator.
     */
    method FeedSamples(sampleRTTMap: map<int, int>) returns (ghost fed: seq<int>, ghost samples: seq<int>)
      modifies this`estimatedRTT, this`devRTT, this`timeoutInterval
      ensures forall x :: x in fed <==> x in sampleRTTMap && sampleRTTMap[x] != -1
      ensures forall i, j :: 0 <= i < j < |fed| ==> fed[i] != fed[j]
      ensures |samples| == |fed|
      ensures forall i :: 0 <= i < |fed| ==> fed[i] in sampleRTTMap && samples[i] == sampleRTTMap[fed[i]]
      ensures Current() == FoldRtt(old(Current()), samples)
    {
      ghost var e1 := Current();
      var rest := sampleRTTMap.Keys;
      fed, samples := [], [];
      while rest != {}
        invariant rest <= sampleRTTMap.Keys
        invariant forall x :: x in fed <==> x in sampleRTTMap && x !in rest && sampleRTTMap[x] != -1
        invariant forall i, j :: 0 <= i < j < |fed| ==> fed[i] != fed[j]
        invariant |samples| == |fed|
        invariant forall i :: 0 <= i < |fed| ==> fed[i] in sampleRTTMap && samples[i] == sampleRTTMap[fed[i]]
        invariant Current() == FoldRtt(e1, samples)
        decreases |rest|
      {
        ghost var some := Member(rest);
        var key :| key in rest;
        rest := rest - {key};
        var sampleRTT := sampleRTTMap[key];
        if sampleRTT != -1 {
          RecalculateTimeoutInterval(sampleRTT);
          FoldStep(e1, samples, sampleRTT);
          fed, samples := fed + [key], samples + [sampleRTT];
        }
      }
    }
  }
}
