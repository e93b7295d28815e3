/**
 * TCPSockClient.java: the sender's bookkeeping. It keeps the next sequence
 * number to use, the send base, the peer's window and a queue of segments
 * sent but not yet acknowledged, which a cumulative ACK prunes.
 */
module SockClient {
  import opened Wrappers
  import opened TransportDefs
  import opened Segments

  /** Delay (ms) of the retransmission timer armed by startTimer. */
  const TIMER_TIMEOUT: int := 200

  /** A timer registered with the node's manager: its delay and the sequence number its callback carries. */
  datatype Armed = Armed(delay: int, seqNum: int)

  class TCPSockClient {
    var nextSeqNum: int
    var sendBase: int
    var windowSize: int
    var destAddr: int
    var destPort: int
    /** The sequence number of the FIN, -1 while none is set. */
    var seqNumFIN: int

    /** Segments sent and not yet acknowledged, least sequence number first. */
    const timerQueue: Buffer
    var timerRunning: bool
    const timeout: int

    /** Every timer this client has armed, oldest first. */
    ghost var armed: seq<Armed>

    ghost predicate Valid()
      reads this, timerQueue
    {
      timerQueue.Valid()
    }

    /**
     * Creates the client state for a connection to (destAddr, destPort).
     * `isn` stands for the random initial sequence number, drawn from
     * 0 .. 2^16 - 1.
     */
    constructor(destAddr: int, destPort: int, isn: int)
      requires 0 <= isn < 0x1_0000
      ensures Valid() && fresh(timerQueue)
      ensures nextSeqNum == isn && sendBase == nextSeqNum
      ensures windowSize == 2 * MAX_PAYLOAD_SIZE
      ensures this.destAddr == destAddr && this.destPort == destPort
      ensures seqNumFIN == -1
      ensures timerQueue.q == [] && !timerRunning && timeout == TIMER_TIMEOUT
      ensures armed == []
    {
      nextSeqNum := isn;
      sendBase := isn;
      windowSize := 2 * MAX_PAYLOAD_SIZE;
      this.destAddr := destAddr;
      this.destPort := destPort;
      seqNumFIN := -1;
      timerQueue := new Buffer();
      timerRunning := false;
      timeout := TIMER_TIMEOUT;
      armed := [];
    }

    /**
     * startTimer: nothing happens when peekSeqNum reports -1. Otherwise a
     * timer of `timeout` ms carrying the least queued sequence number is
     * armed and the timer is marked running. `created` is false when the
     * callback cannot be built, in which case nothing changes either.
     */
    method StartTimer(created: bool)
      requires Valid()
      modifies this`timerRunning, this`armed
      ensures Valid()
      ensures timerQueue.PeekSeqNum() == -1 || !created ==>
                timerRunning == old(timerRunning) && armed == old(armed)
      ensures timerQueue.PeekSeqNum() != -1 && created ==>
                timerRunning && armed == old(armed) + [Armed(timeout, timerQueue.PeekSeqNum())]
    {
      var seqNumMin := timerQueue.PeekSeqNum();
      if seqNumMin == -1 {
        return;
      }
      if !created {
        return;
      }
      armed := armed + [Armed(timeout, seqNumMin)];
      timerRunning := true;
    }

    /** stopTimer */
    method StopTimer()
      modifies this`timerRunning
      ensures !timerRunning
    {
      timerRunning := false;
    }

    /** isTimerRunning */
    predicate IsTimerRunning()
      reads this
    {
      timerRunning
    }

    /** addToTimerQueue: queues a sent segment of the given type. */
    method AddToTimerQueue(kind: Kind, seqNum: int, payload: seq<Byte>, now: int)
      requires Valid()
      modifies timerQueue
      ensures Valid()
      ensures timerQueue.q == Insert(old(timerQueue.q), Segment(kind, seqNum, payload, now))
      ensures multiset(timerQueue.q) == old(multiset(timerQueue.q)) + multiset{Segment(kind, seqNum, payload, now)}
    {
      timerQueue.Add(kind, seqNum, payload, now);
    }

    /**
     * pruneTimerQueue(n): polls while the least sequence number is not -1
     * and below `n`. On a queue without the -1 sequence number this removes
     * exactly the segments below `n` (PruneRemovesExactlyBelow).
     */
    method PruneTimerQueue(n: int)
      requires Valid()
      modifies timerQueue
      ensures Valid()
      ensures timerQueue.q == old(timerQueue.q)[PruneCount(old(timerQueue.q), n)..]
      ensures -1 !in SeqNums(old(timerQueue.q)) ==>
                forall s :: s in timerQueue.q <==> s in old(timerQueue.q) && s.seqNum >= n
    {
      ghost var q0 := timerQueue.q;
      ghost var i := 0;
      while timerQueue.PeekSeqNum() != -1 && timerQueue.PeekSeqNum() < n
        invariant timerQueue.Valid()
        invariant 0 <= i <= PruneCount(q0, n)
        invariant timerQueue.q == q0[i..]
        decreases |timerQueue.q|
      {
        PruneContinues(q0, n, i);
        var _ := timerQueue.Poll();
        i := i + 1;
      }
      PruneStops(q0, n, i);
      if -1 !in SeqNums(q0) {
        PruneKeepsExactlyAbove(q0, n);
      }
    }

    /** peekTimerQueue: a queued segment of least sequence number, if any. */
    function PeekTimerQueue(): (r: Option<Segment>)
      reads this, timerQueue
      requires Valid()
      ensures r.None? <==> timerQueue.q == []
      ensures r.Some? ==> r.value in timerQueue.q && forall s :: s in timerQueue.q ==> r.value.seqNum <= s.seqNum
    {
      timerQueue.Peek()
    }

    /** incNextSeqNum */
    method IncNextSeqNum(amount: int)
      modifies this`nextSeqNum
      ensures nextSeqNum == old(nextSeqNum) + amount
    {
      nextSeqNum := nextSeqNum + amount;
    }

    /** setNextSeqNum */
    method SetNextSeqNum(seqNum: int)
      modifies this`nextSeqNum
      ensures nextSeqNum == seqNum
    {
      nextSeqNum := seqNum;
    }

    /** setSendBase */
    method SetSendBase(sendBase: int)
      modifies this`sendBase
      ensures this.sendBase == sendBase
    {
      this.sendBase := sendBase;
    }

    /** setWindowSize */
    method SetWindowSize(windowSize: int)
      modifies this`windowSize
      ensures this.windowSize == windowSize
    {
      this.windowSize := windowSize;
    }

    /** setSeqNumFIN */
    method SetSeqNumFIN(seqNum: int)
      modifies this`seqNumFIN
      ensures seqNumFIN == seqNum
    {
      seqNumFIN := seqNum;
    }
  }

  /**
   * What pruning keeps, as a set of segments: on an ordered queue without the
   * -1 sequence number, exactly the segments at or above `n`.
   */
  lemma PruneKeepsExactlyAbove(q: seq<Segment>, n: int)
    requires Sorted(q)
    requires -1 !in SeqNums(q)
    ensures forall s :: s in q[PruneCount(q, n)..] <==> s in q && s.seqNum >= n
  {
    var k := PruneCount(q, n);
    PruneRemovesExactlyBelow(q, n);
    forall s ensures s in q[k..] <==> s in q && s.seqNum >= n {
      if s in q[k..] {
        var j :| 0 <= j < |q[k..]| && q[k..][j] == s;
        assert q[k + j] == s;
      }
      if s in q && s.seqNum >= n {
        var j :| 0 <= j < |q| && q[j] == s;
        assert q[k..][j - k] == s;
      }
    }
  }

  /**
   * A cumulative ACK for `n` followed by the retransmission timer: the queue
   * keeps only what is unacknowledged, and the timer carries its least
   * sequence number. `p` stands for any payload.
   */
  method AckThenRearm(p: seq<Byte>, now: int)
    returns (c: TCPSockClient, head: Option<Segment>, running: bool)
    ensures head == Some(Segment(DATA, 300, p, now))
    ensures c.armed == [Armed(TIMER_TIMEOUT, 300)] && running
  {
    c := new TCPSockClient(1, 80, 100);
    c.AddToTimerQueue(DATA, 300, p, now);
    c.AddToTimerQueue(DATA, 100, p, now);
    c.AddToTimerQueue(DATA, 200, p, now);
    c.PruneTimerQueue(300);
    assert c.timerQueue.q == [Segment(DATA, 300, p, now)];
    head := c.PeekTimerQueue();
    c.StartTimer(true);
    running := c.IsTimerRunning();
  }
}
