/**
 * TCPSockServerClient.java: the receiver side. Out-of-order segments wait in a
 * segment buffer; `unloadSegmentBuffer` moves the run of adjacent segments at
 * its head into a 1024-byte read buffer, from which `read` copies bytes out.
 */
module SockServerClient {
  import opened TransportDefs
  import opened Segments
  import opened ByteBuffers

  /** Capacity of the read buffer (ByteBuffer.allocate(0x400)). */
  const READ_BUFFER_SIZE: nat := 0x400

  function Min(a: int, b: int): int {
    if a <= b then a else b
  }

  /** The payloads of `segs`, concatenated in order. */
  function Payloads(segs: seq<Segment>): seq<Byte> {
    if segs == [] then [] else segs[0].payload + Payloads(segs[1..])
  }

  /** The sequence number just past a segment's last byte. */
  function EndOf(s: Segment): int {
    s.seqNum + |s.payload|
  }

  lemma PayloadsOfPrefix(segs: seq<Segment>, j: nat)
    ensures 0 < j <= |segs| ==> Payloads(segs[..j]) == segs[0].payload + Payloads(segs[1..][..j - 1])
  {
    if 0 < j <= |segs| {
      assert segs[..j][1..] == segs[1..][..j - 1];
    }
  }

  lemma {:induction false} PayloadsAppend(segs: seq<Segment>, s: Segment)
    ensures Payloads(segs + [s]) == Payloads(segs) + s.payload
  {
    if segs != [] {
      assert (segs + [s])[1..] == segs[1..] + [s];
      PayloadsAppend(segs[1..], s);
    }
  }

  /**
   * The number of leading segments of `q` that form a chain in which each
   * segment isNextTo the one before it, the first one being next to `last`.
   */
  function RunLength(q: seq<Segment>, last: Segment): (k: nat)
    ensures k <= |q|
  {
    if q == [] || !q[0].IsNextTo(last) then 0
    else 1 + RunLength(q[1..], q[0])
  }

  /**
   * The run is a chain of adjacent segments, and it is maximal: the segment
   * after it (if any) is not next to the run's last segment.
   */
  lemma {:induction false} RunIsMaximalChain(q: seq<Segment>, last: Segment)
    ensures var k := RunLength(q, last);
            && (k > 0 ==> q[0].IsNextTo(last))
            && (forall i :: 0 < i < k ==> q[i].IsNextTo(q[i - 1]))
            && (k < |q| ==> !q[k].IsNextTo(if k == 0 then last else q[k - 1]))
  {
    if q != [] && q[0].IsNextTo(last) {
      RunIsMaximalChain(q[1..], q[0]);
      var k := RunLength(q, last);
      forall i | 1 < i < k ensures q[i].IsNextTo(q[i - 1]) {
        assert q[i] == q[1..][i - 1] && q[i - 1] == q[1..][i - 2];
      }
      if 1 < k < |q| {
        assert q[k] == q[1..][k - 1] && q[k - 1] == q[1..][k - 2];
      }
    }
  }

  /**
   * A chain of adjacent segments covers one contiguous stretch of the byte
   * stream: its bytes run from the end of `last` to the end of its final
   * segment, and their number is the total payload length.
   */
  lemma {:induction false} RunIsContiguous(q: seq<Segment>, last: Segment)
    ensures var k := RunLength(q, last);
            EndOf(if k == 0 then last else q[k - 1]) == EndOf(last) + |Payloads(q[..k])|
  {
    var k := RunLength(q, last);
    if k > 0 {
      RunIsContiguous(q[1..], q[0]);
      PayloadsOfPrefix(q, k);
      if k > 1 {
        assert q[k - 1] == q[1..][k - 2];
      }
    }
  }

  /** The zero-length DATA segment that starts the chain at the head's sequence number. */
  function Sentinel(q: seq<Segment>): (s: Segment)
    requires q != []
    ensures EndOf(s) == q[0].seqNum
  {
    DataSegment(q[0].seqNum, [], 0)
  }

  /** Starting from the sentinel, the head segment always belongs to the run. */
  lemma HeadIsAlwaysDelivered(q: seq<Segment>)
    requires q != []
    ensures RunLength(q, Sentinel(q)) >= 1
  {
  }

  /**
   * The number of leading segments whose payloads fit, one after another,
   * into `space` bytes: the first that does not fit stops the count.
   */
  function Fitting(segs: seq<Segment>, space: int): (j: nat)
    ensures j <= |segs|
  {
    if segs == [] || |segs[0].payload| > space then 0
    else 1 + Fitting(segs[1..], space - |segs[0].payload|)
  }

  /**
   * The first Fitting(segs, space) payloads take at most `space` bytes, and
   * one more would not fit.
   */
  lemma {:induction false} FittingIsLongestFit(segs: seq<Segment>, space: int)
    ensures var j := Fitting(segs, space);
            && (j == 0 || |Payloads(segs[..j])| <= space)
            && (j < |segs| ==> |Payloads(segs[..j + 1])| > space)
  {
    var j := Fitting(segs, space);
    PayloadsOfPrefix(segs, 1);
    if segs != [] && |segs[0].payload| <= space {
      FittingIsLongestFit(segs[1..], space - |segs[0].payload|);
      PayloadsOfPrefix(segs, j);
      PayloadsOfPrefix(segs, j + 1);
    }
  }

  /** The outcome of unloadSegmentBuffer: a byte count, or BufferOverflowException. */
  datatype UnloadResult = Unloaded(byteCount: int) | Overflowed

  /** How many segments unloadSegmentBuffer removes from `q` when `space` bytes are free. */
  function Delivered(q: seq<Segment>, space: int): (d: nat)
    ensures d <= |q|
  {
    if q == [] || q[0].seqNum == -1 then 0
    else Fitting(q[..RunLength(q, Sentinel(q))], space)
  }

  /** What unloadSegmentBuffer reports for `q` and `space` free bytes. */
  function UnloadOutcome(q: seq<Segment>, space: int): UnloadResult {
    if q == [] || q[0].seqNum == -1 then Unloaded(0)
    else
      var k := RunLength(q, Sentinel(q));
      if Delivered(q, space) == k then Unloaded(|Payloads(q[..k])|) else Overflowed
  }

  /** One more adjacent segment at index i: the run goes on past it. */
  lemma RunStep(q0: seq<Segment>, i: nat, k: nat, last: Segment)
    requires i < |q0| && RunLength(q0[i..], last) == k - i
    requires q0[i].IsNextTo(last)
    ensures i < k && RunLength(q0[i + 1..], q0[i]) == k - i - 1
  {
    assert q0[i..][1..] == q0[i + 1..];
  }

  /** One more segment at index i: it fits exactly when the fitting count goes past i. */
  lemma FitStep(q0: seq<Segment>, i: nat, k: nat, d: nat, space: int)
    requires i < k <= |q0| && Fitting(q0[i..k], space) == d - i
    ensures |q0[i].payload| <= space <==> i < d
    ensures |q0[i].payload| <= space ==> Fitting(q0[i + 1..k], space - |q0[i].payload|) == d - i - 1
  {
    assert q0[i..k][1..] == q0[i + 1..k];
  }

  lemma PayloadsStep(w: seq<Byte>, q0: seq<Segment>, i: nat)
    requires i < |q0|
    ensures w + Payloads(q0[..i + 1]) == w + Payloads(q0[..i]) + q0[i].payload
  {
    assert q0[..i + 1] == q0[..i] + [q0[i]];
    PayloadsAppend(q0[..i], q0[i]);
  }

  /**
   * The state of unloadSegmentBuffer after it has delivered the first `i`
   * segments of `q0`: `q` is what is left in the segment buffer, `written`
   * and `remaining` describe the read buffer, `last` is the segment the next
   * one must be adjacent to; `k` is the run length and `d` how many of the
   * run fit in the `space` free bytes.
   */
  ghost predicate Unloading(q0: seq<Segment>, w0: seq<Byte>, space: int, k: nat, d: nat,
                            i: nat, byteCount: int, last: Segment,
                            q: seq<Segment>, written: seq<Byte>, remaining: int)
  {
    && i <= d <= k <= |q0|
    && q == q0[i..]
    && byteCount == |Payloads(q0[..i])|
    && written == w0 + Payloads(q0[..i])
    && remaining == space - byteCount
    && RunLength(q0[i..], last) == k - i
    && Fitting(q0[i..k], space - byteCount) == d - i
  }

  /** Delivering the next segment, when it is adjacent and fits, keeps the loop's state. */
  lemma UnloadStep(q0: seq<Segment>, w0: seq<Byte>, space: int, k: nat, d: nat,
                   i: nat, byteCount: int, last: Segment,
                   q: seq<Segment>, written: seq<Byte>, remaining: int,
                   s: Segment, byteCount': int, q': seq<Segment>, written': seq<Byte>, remaining': int)
    requires Unloading(q0, w0, space, k, d, i, byteCount, last, q, written, remaining)
    requires q != [] && s == q[0] && s.IsNextTo(last) && |s.payload| <= remaining
    requires byteCount' == byteCount + |s.payload| && q' == q[1..]
    requires written' == written + s.payload && remaining' == remaining - |s.payload|
    ensures Unloading(q0, w0, space, k, d, i + 1, byteCount', s, q', written', remaining')
  {
    assert s == q0[i];
    RunStep(q0, i, k, last);
    FitStep(q0, i, k, d, space - byteCount);
    PayloadsStep(w0, q0, i);
    PayloadsStep([], q0, i);
    assert q[1..] == q0[i + 1..];
  }

  /** The loop stops at an empty buffer or a gap exactly when the whole run was delivered. */
  lemma UnloadStops(q0: seq<Segment>, w0: seq<Byte>, space: int, k: nat, d: nat,
                    i: nat, byteCount: int, last: Segment,
                    q: seq<Segment>, written: seq<Byte>, remaining: int)
    requires Unloading(q0, w0, space, k, d, i, byteCount, last, q, written, remaining)
    requires q == [] || !q[0].IsNextTo(last)
    ensures i == d == k
  {
    assert q != [] ==> q[0] == q0[i] && q0[i..][1..] == q0[i + 1..];
  }

  /** A put that does not fit happens exactly at the first segment of the run that does not fit. */
  lemma UnloadOverflows(q0: seq<Segment>, w0: seq<Byte>, space: int, k: nat, d: nat,
                        i: nat, byteCount: int, last: Segment,
                        q: seq<Segment>, written: seq<Byte>, remaining: int)
    requires Unloading(q0, w0, space, k, d, i, byteCount, last, q, written, remaining)
    requires q != [] && q[0].IsNextTo(last) && |q[0].payload| > remaining
    ensures i == d < k
  {
    assert q[0] == q0[i];
    RunStep(q0, i, k, last);
    FitStep(q0, i, k, d, space - byteCount);
  }

  /** What one pass of the unloading loop did. */
  datatype HeadStep = Stopped | Overflow | Moved(segment: Segment)

  class TCPSockServerClient {
    const segmentBuffer: Buffer
    const readBuffer: ByteBuffer

    ghost predicate Valid()
      reads this, segmentBuffer, readBuffer
    {
      segmentBuffer.Valid() && readBuffer.Valid() && readBuffer.data.Length == READ_BUFFER_SIZE
    }

    constructor()
      ensures Valid()
      ensures fresh(segmentBuffer) && fresh(readBuffer) && fresh(readBuffer.data)
      ensures segmentBuffer.q == [] && readBuffer.position == 0 && readBuffer.limit == READ_BUFFER_SIZE
    {
      segmentBuffer := new Buffer();
      readBuffer := new ByteBuffer.Allocate(READ_BUFFER_SIZE);
    }

    /** bufferSegment: queues a received DATA segment for reassembly. */
    method BufferSegment(seqNum: int, payload: seq<Byte>, now: int)
      requires Valid()
      modifies segmentBuffer
      ensures Valid()
      ensures segmentBuffer.q == Insert(old(segmentBuffer.q), DataSegment(seqNum, payload, now))
    {
      segmentBuffer.AddData(seqNum, payload, now);
    }

    /**
     * unloadSegmentBuffer: delivers the run of adjacent segments at the head
     * of the segment buffer into the read buffer, in sequence-number order,
     * and returns the number of bytes delivered. A payload that does not fit
     * into the read buffer stops it with BufferOverflowException; what was
     * delivered before stays delivered.
     */
    method UnloadSegmentBuffer() returns (r: UnloadResult)
      requires Valid()
      modifies segmentBuffer, readBuffer, readBuffer.data
      ensures Valid()
      ensures r == UnloadOutcome(old(segmentBuffer.q), old(readBuffer.Remaining()))
      ensures segmentBuffer.q == old(segmentBuffer.q)[Delivered(old(segmentBuffer.q), old(readBuffer.Remaining()))..]
      ensures readBuffer.Written()
              == old(readBuffer.Written())
                 + Payloads(old(segmentBuffer.q)[..Delivered(old(segmentBuffer.q), old(readBuffer.Remaining()))])
      ensures readBuffer.limit == old(readBuffer.limit)
    {
      ghost var q0 := segmentBuffer.q;
      ghost var w0 := readBuffer.Written();
      ghost var space := readBuffer.Remaining();
      var byteCount := 0;

      var firstSeqNum := segmentBuffer.PeekSeqNum();
      if firstSeqNum == -1 {
        return Unloaded(0);
      }

      var lastSegment := DataSegment(firstSeqNum, [], 0);
      assert lastSegment == Sentinel(q0);
      ghost var k := RunLength(q0, lastSegment);
      ghost var d := Fitting(q0[..k], space);
      assert Delivered(q0, space) == d;
      assert UnloadOutcome(q0, space) == if d == k then Unloaded(|Payloads(q0[..k])|) else Overflowed;
      ghost var i := 0;
      assert q0[..0] == [] && q0[0..k] == q0[..k] && q0[0..] == q0;

      while true
        invariant Valid()
        invariant readBuffer.limit == old(readBuffer.limit)
        invariant Unloading(q0, w0, space, k, d, i, byteCount, lastSegment,
                            segmentBuffer.q, readBuffer.Written(), readBuffer.Remaining())
        decreases |segmentBuffer.q|
      {
        ghost var q, written, remaining := segmentBuffer.q, readBuffer.Written(), readBuffer.Remaining();
        var step := DeliverHead(lastSegment);
        match step {
          case Stopped =>
            UnloadStops(q0, w0, space, k, d, i, byteCount, lastSegment, q, written, remaining);
            break;
          case Overflow =>
            UnloadOverflows(q0, w0, space, k, d, i, byteCount, lastSegment, q, written, remaining);
            return Overflowed;
          case Moved(segment) =>
            ghost var byteCount0, last0 := byteCount, lastSegment;
            byteCount := byteCount + segment.PayloadSize();
            lastSegment := segment;
            UnloadStep(q0, w0, space, k, d, i, byteCount0, last0, q, written, remaining,
                       segment, byteCount, segmentBuffer.q, readBuffer.Written(), readBuffer.Remaining());
            i := i + 1;
        }
      }
      r := Unloaded(byteCount);
    }

    /**
     * One pass of unloadSegmentBuffer's loop body: when the head segment is
     * next to `last`, its payload is put into the read buffer and the segment
     * is polled; an empty buffer or a gap stops the loop, and a payload that
     * does not fit raises BufferOverflowException.
     */
    method DeliverHead(last: Segment) returns (step: HeadStep)
      requires Valid()
      modifies segmentBuffer, readBuffer, readBuffer.data
      ensures Valid() && readBuffer.limit == old(readBuffer.limit)
      ensures old(segmentBuffer.q) == [] || !old(segmentBuffer.q)[0].IsNextTo(last) ==>
                step == Stopped && segmentBuffer.q == old(segmentBuffer.q)
                && readBuffer.Written() == old(readBuffer.Written())
                && readBuffer.Remaining() == old(readBuffer.Remaining())
      ensures old(segmentBuffer.q) != [] && old(segmentBuffer.q)[0].IsNextTo(last)
              && |old(segmentBuffer.q)[0].payload| > old(readBuffer.Remaining()) ==>
                step == Overflow && segmentBuffer.q == old(segmentBuffer.q)
                && readBuffer.Written() == old(readBuffer.Written())
      ensures old(segmentBuffer.q) != [] && old(segmentBuffer.q)[0].IsNextTo(last)
              && |old(segmentBuffer.q)[0].payload| <= old(readBuffer.Remaining()) ==>
                && step == Moved(old(segmentBuffer.q)[0])
                && segmentBuffer.q == old(segmentBuffer.q)[1..]
                && readBuffer.Written() == old(readBuffer.Written()) + old(segmentBuffer.q)[0].payload
                && readBuffer.Remaining() == old(readBuffer.Remaining()) - |old(segmentBuffer.q)[0].payload|
    {
      var segment := segmentBuffer.Peek();
      if segment.None? || !segment.value.IsNextTo(last) {
        return Stopped;
      }
      var ok := readBuffer.Put(segment.value.payload);
      if !ok {
        return Overflow;
      }
      var polled := segmentBuffer.Poll();
      step := Moved(polled.value);
    }

    /**
     * read, as written: copies the oldest min(buffered, len) bytes into
     * buf[pos..] and returns their number. The second flip leaves position 0
     * and limit equal to that number, so the bytes not read are dropped and
     * the room for further puts shrinks to the number just read.
     */
    method Read(buf: array<Byte>, pos: int, len: int) returns (n: int)
      requires Valid()
      requires buf != readBuffer.data
      requires 0 <= pos && 0 <= len && pos + Min(readBuffer.position, len) <= buf.Length
      modifies readBuffer, buf
      ensures Valid()
      ensures n == Min(old(readBuffer.position), len)
      ensures buf[..] == old(buf[..pos]) + old(readBuffer.Written())[..n] + old(buf[pos + n..])
      ensures readBuffer.position == 0 && readBuffer.limit == n
    {
      readBuffer.Flip();
      n := Min(readBuffer.Remaining(), len);
      readBuffer.Get(buf, pos, n);
      readBuffer.Flip();
    }

    /**
     * read as evidently intended: the same copy, then compact instead of the
     * second flip, so the unread bytes stay buffered in order and the whole
     * capacity is available again.
     */
    method ReadCompacting(buf: array<Byte>, pos: int, len: int) returns (n: int)
      requires Valid()
      requires buf != readBuffer.data
      requires 0 <= pos && 0 <= len && pos + Min(readBuffer.position, len) <= buf.Length
      modifies readBuffer, readBuffer.data, buf
      ensures Valid()
      ensures n == Min(old(readBuffer.position), len)
      ensures buf[..] == old(buf[..pos]) + old(readBuffer.Written())[..n] + old(buf[pos + n..])
      ensures readBuffer.Written() == old(readBuffer.Written())[n..]
      ensures readBuffer.limit == READ_BUFFER_SIZE
    {
      readBuffer.Flip();
      n := Min(readBuffer.Remaining(), len);
      readBuffer.Get(buf, pos, n);
      readBuffer.Compact();
    }
  }

  /** A lone segment at the head is delivered whole when it fits. */
  lemma OneSegmentUnloads(q: seq<Segment>, data: seq<Byte>)
    requires q == [DataSegment(0, data, 0)] && |data| <= READ_BUFFER_SIZE
    ensures Delivered(q, READ_BUFFER_SIZE) == 1
    ensures UnloadOutcome(q, READ_BUFFER_SIZE) == Unloaded(|data|)
    ensures Payloads(q[..1]) == data
  {
    assert q[1..] == [];
    assert RunLength(q, Sentinel(q)) == 1;
    assert q[..1] == q;
    assert Fitting(q, READ_BUFFER_SIZE) == 1;
    assert Payloads(q) == data + Payloads([]);
  }

  /**
   * The code as written: ten bytes are delivered, four are read, and the
   * next read finds nothing although six bytes were never read.
   */
  method PartialReadLosesTheRest(data: seq<Byte>) returns (unloaded: UnloadResult, first: int, second: int)
    requires |data| == 10
    ensures unloaded == Unloaded(10) && first == 4 && second == 0
  {
    var c := new TCPSockServerClient();
    c.BufferSegment(0, data, 0);
    OneSegmentUnloads(c.segmentBuffer.q, data);
    unloaded := c.UnloadSegmentBuffer();
    var buf := new Byte[10];
    first := c.Read(buf, 0, 4);
    second := c.Read(buf, 4, 6);
  }

  /** The corrected read: the second read returns the six remaining bytes, in order. */
  method PartialReadKeepsTheRest(data: seq<Byte>) returns (unloaded: UnloadResult, first: int, second: int, got: seq<Byte>)
    requires |data| == 10
    ensures unloaded == Unloaded(10) && first == 4 && second == 6
    ensures got == data
  {
    var c := new TCPSockServerClient();
    c.BufferSegment(0, data, 0);
    OneSegmentUnloads(c.segmentBuffer.q, data);
    unloaded := c.UnloadSegmentBuffer();
    var buf := new Byte[10];
    assert c.readBuffer.Written() == data;
    first := c.ReadCompacting(buf, 0, 4);
    ghost var afterFirst := buf[..];
    assert afterFirst[..4] == data[..4];
    assert c.readBuffer.Written() == data[4..];
    second := c.ReadCompacting(buf, 4, 6);
    got := buf[..];
    assert data[4..][..6] == data[4..];
    assert got == afterFirst[..4] + data[4..];
    assert data == data[..4] + data[4..];
  }
}
