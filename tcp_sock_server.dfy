/**
 * TCPSockServer.java: a listener's backlog, a bounded FIFO queue of
 * connections waiting to be accepted (java.util.concurrent.ArrayBlockingQueue).
 */
module SockServer {
  import opened Wrappers

  class TCPSockServer<T> {
    /** The waiting connections, oldest first. */
    var backlog: seq<T>
    /** The capacity fixed when the queue is created. */
    const capacity: nat

    ghost predicate Valid()
      reads this
    {
      |backlog| <= capacity
    }

    /**
     * Creates an empty backlog of the given capacity; ArrayBlockingQueue
     * rejects a capacity below 1.
     */
    constructor(capacity: nat)
      requires capacity >= 1
      ensures Valid()
      ensures backlog == [] && this.capacity == capacity
    {
      this.capacity := capacity;
      backlog := [];
    }

    /** remainingCapacity */
    function RemainingCapacity(): (r: nat)
      reads this
      requires Valid()
      ensures r + |backlog| == capacity
    {
      capacity - |backlog|
    }

    /** isBacklogFull: no room is left. */
    predicate IsBacklogFull()
      reads this
      requires Valid()
      ensures IsBacklogFull() <==> |backlog| == capacity
    {
      RemainingCapacity() == 0
    }

    /** pollBacklog: removes and returns the oldest entry, or none when empty. */
    method PollBacklog() returns (r: Option<T>)
      requires Valid()
      modifies this
      ensures Valid()
      ensures old(backlog) == [] ==> r.None? && backlog == []
      ensures old(backlog) != [] ==> r == Some(old(backlog)[0]) && backlog == old(backlog)[1..]
    {
      if backlog == [] {
        r := None;
      } else {
        r := Some(backlog[0]);
        backlog := backlog[1..];
      }
    }

    /**
     * addToBacklog: appends at the tail and returns true, or returns false
     * and leaves the queue alone when it is full.
     */
    method AddToBacklog(sock: T) returns (ok: bool)
      requires Valid()
      modifies this
      ensures Valid()
      ensures ok <==> old(|backlog|) < capacity
      ensures ok ==> backlog == old(backlog) + [sock]
      ensures !ok ==> backlog == old(backlog)
    {
      if |backlog| == capacity {
        return false;
      }
      backlog := backlog + [sock];
      return true;
    }
  }

  /** A backlog of capacity 1 takes one connection and refuses the next. */
  method SecondConnectionIsRefused() returns (first: bool, second: bool, oldest: Option<int>)
    ensures first && !second && oldest == Some(10)
  {
    var b := new TCPSockServer<int>(1);
    first := b.AddToBacklog(10);
    second := b.AddToBacklog(20);
    oldest := b.PollBacklog();
  }
}
