/**
 * TCPSock.java: the socket API and its state machine. A socket is bound to
 * a local port, then either listens (spawning a passive socket for every SYN
 * while its backlog has room) or connects (sending a SYN and waiting for the
 * ACK). The node's table of ports is shared by all its sockets.
 */
module Sockets {
  import opened Wrappers
  import opened TransportDefs
  import opened SocketManagement
  import opened SockServer

  datatype State = Unbound | Bound | Closed | Listen | SynSent | Established | Shutdown

  datatype SockType = NoType | ServerListener | ServerClient | Client

  /** A segment handed to the network: the destination address and the segment. */
  datatype Outgoing = Outgoing(destAddr: int, segment: Transport)

  class TCPSock {
    var state: State
    var sockType: SockType
    var myPort: int
    /**
     * The queue of pending connections, created by listen. The Java socket
     * holds an ArrayBlockingQueue of its own and does not use TCPSockServer;
     * the bounded FIFO modelled in SockServer behaves the same and stands in
     * for it here.
     */
    var serverBacklog: TCPSockServer?<TCPSock>
    var clientSeqNo: int
    var clientWindowSize: int
    var clientDestAddr: int
    var clientDestPort: int
    /** The node's port table (the TCP manager's SocketManager). */
    const ports: SocketManager<TCPSock>
    /** Every segment this socket has sent, oldest first. */
    ghost var sent: seq<Outgoing>

    ghost predicate Valid()
      reads this, serverBacklog
    {
      sockType == ServerListener ==> serverBacklog != null && serverBacklog.Valid()
    }

    /** A new socket: unbound, of no type, with nothing sent. */
    constructor(ports: SocketManager<TCPSock>)
      ensures Valid()
      ensures state == Unbound && sockType == NoType && myPort == 0 && serverBacklog == null
      ensures this.ports == ports && sent == []
    {
      state, sockType, myPort := Unbound, NoType, 0;
      serverBacklog := null;
      clientSeqNo, clientWindowSize, clientDestAddr, clientDestPort := 0, 0, 0, 0;
      this.ports := ports;
      sent := [];
    }

    /**
     * The passive socket a listener creates for a SYN `t` from
     * (destAddr, destPort): established, with the peer's sequence number plus
     * one and its window; it acknowledges at once. Its own port is never set.
     */
    constructor Passive(ports: SocketManager<TCPSock>, destAddr: int, destPort: int, t: Transport)
      ensures Valid()
      ensures IsPassiveFor(ports, destAddr, destPort, t)
    {
      state, sockType, myPort := Established, ServerClient, 0;
      serverBacklog := null;
      clientSeqNo := t.seqNum + 1;
      clientWindowSize := t.window;
      clientDestAddr, clientDestPort := destAddr, destPort;
      this.ports := ports;
      sent := [];
      new;
      Send(ACK, 0, clientSeqNo, []);
    }

    /** What the passive constructor leaves behind. */
    ghost predicate IsPassiveFor(ports: SocketManager<TCPSock>, destAddr: int, destPort: int, t: Transport)
      reads this
    {
      && state == Established && sockType == ServerClient && myPort == 0
      && serverBacklog == null && this.ports == ports
      && clientSeqNo == t.seqNum + 1 && clientWindowSize == t.window
      && clientDestAddr == destAddr && clientDestPort == destPort
      && sent == [Outgoing(destAddr, Transport(0, destPort, ACK, 0, t.seqNum + 1, []))]
    }

    predicate CanBind() reads this { state == Unbound }
    predicate CanListen() reads this { state == Bound }
    predicate CanConnect() reads this { state == Bound }
    predicate IsListening() reads this { sockType == ServerListener }
    predicate IsServerClient() reads this { sockType == ServerClient }
    predicate IsClient() reads this { sockType == Client }
    predicate IsConnectionPending() reads this { state == SynSent }
    predicate IsClosed() reads this { state == Closed }
    predicate IsConnected() reads this { state == Established }
    predicate IsClosurePending() reads this { state == Shutdown }

    /**
     * bind: only an unbound socket binds, and only when the port table
     * accepts the port; the socket then is bound to it and is the port's
     * wildcard socket. Otherwise -1 and nothing changes.
     */
    method Bind(localPort: int) returns (r: int)
      requires Valid()
      modifies this`state, this`myPort, ports
      ensures Valid()
      ensures r == 0 <==> old(state) == Unbound && old(ports.IsPortAvailable(localPort))
      ensures r == 0 || r == -1
      ensures r == 0 ==> state == Bound && myPort == localPort
                         && ports.portMap == old(ports.portMap)[localPort := ListenerSet(this)]
      ensures r == -1 ==> state == old(state) && myPort == old(myPort) && ports.portMap == old(ports.portMap)
    {
      if !CanBind() {
        return -1;
      }
      var taken := ports.Assign(localPort, this);
      if taken == -1 {
        return -1;
      }
      state := Bound;
      myPort := localPort;
      return 0;
    }

    /**
     * listen: only a bound socket listens; it becomes a listener with an
     * empty backlog of the given capacity. Otherwise -1 and nothing changes.
     * The queue rejects a capacity below 1, so a bound socket needs one.
     */
    method Listen(backlog: int) returns (r: int)
      requires Valid()
      requires state == Bound ==> backlog >= 1
      modifies this`state, this`sockType, this`serverBacklog
      ensures Valid()
      ensures r == 0 <==> old(state) == Bound
      ensures r == 0 || r == -1
      ensures r == 0 ==> state == State.Listen && sockType == ServerListener && fresh(serverBacklog)
                         && serverBacklog.backlog == [] && serverBacklog.capacity == backlog
      ensures r == -1 ==> state == old(state) && sockType == old(sockType) && serverBacklog == old(serverBacklog)
    {
      if !CanListen() {
        return -1;
      }
      state := State.Listen;
      sockType := ServerListener;
      serverBacklog := new TCPSockServer(backlog);
      return 0;
    }

    /**
     * accept: none unless the socket is a listener; otherwise the oldest
     * pending connection, removed from the backlog, or none when it is empty.
     */
    method Accept() returns (r: Option<TCPSock>)
      requires Valid()
      modifies serverBacklog
      ensures Valid()
      ensures sockType != ServerListener ==> r.None?
      ensures sockType != ServerListener && serverBacklog != null ==> serverBacklog.backlog == old(serverBacklog.backlog)
      ensures sockType == ServerListener && old(serverBacklog.backlog) == [] ==>
                r.None? && serverBacklog.backlog == []
      ensures sockType == ServerListener && old(serverBacklog.backlog) != [] ==>
                r == Some(old(serverBacklog.backlog)[0]) && serverBacklog.backlog == old(serverBacklog.backlog)[1..]
    {
      if !IsListening() {
        return None;
      }
      r := serverBacklog.PollBacklog();
    }

    /**
     * connect: only a bound socket connects. It sends a SYN carrying the
     * initial sequence number `isn` (the random draw, in 0 .. 2^16 - 1) and
     * waits for the ACK with the next sequence number at isn + 1. Otherwise
     * -1 and nothing changes.
     */
    method Connect(destAddr: int, destPort: int, isn: int) returns (r: int)
      requires Valid()
      requires 0 <= isn < 0x1_0000
      modifies this`clientSeqNo, this`clientWindowSize, this`clientDestAddr, this`clientDestPort
      modifies this`sent, this`state, this`sockType
      ensures Valid()
      ensures r == 0 <==> old(state) == Bound
      ensures r == 0 || r == -1
      ensures r == 0 ==>
                && sent == old(sent) + [Outgoing(destAddr, Transport(myPort, destPort, SYN, 0, isn, []))]
                && clientSeqNo == isn + 1 && clientWindowSize == 2 * MAX_PAYLOAD_SIZE
                && clientDestAddr == destAddr && clientDestPort == destPort
                && state == SynSent && sockType == Client
      ensures r == -1 ==>
                && sent == old(sent) && state == old(state) && sockType == old(sockType)
                && clientSeqNo == old(clientSeqNo) && clientWindowSize == old(clientWindowSize)
                && clientDestAddr == old(clientDestAddr) && clientDestPort == old(clientDestPort)
    {
      if !CanConnect() {
        return -1;
      }
      clientSeqNo := isn;
      clientWindowSize := 2 * MAX_PAYLOAD_SIZE;
      clientDestAddr := destAddr;
      clientDestPort := destPort;
      Send(SYN, 0, clientSeqNo, []);
      clientSeqNo := clientSeqNo + 1;
      state := SynSent;
      sockType := Client;
      return 0;
    }

    /** close: not implemented; it does nothing. */
    method Close() {
    }

    /** release: not implemented; it does nothing. */
    method Release() {
    }

    /** write: not implemented; it always fails. */
    method Write(buf: array<Byte>, pos: int, len: int) returns (r: int)
      ensures r == -1
    {
      return -1;
    }

    /** read: not implemented; it always fails. */
    method Read(buf: array<Byte>, pos: int, len: int) returns (r: int)
      ensures r == -1
    {
      return -1;
    }

    /**
     * receive: a listener handles only SYNs (receiveSYN); a client handles
     * only ACKs, which complete a pending connection without looking at the
     * sequence number; a passive socket and a socket of no type ignore
     * everything. `spawned` is the passive socket a SYN created, if any.
     */
    method Receive(srcAddr: int, srcPort: int, t: Transport) returns (ghost spawned: Option<TCPSock>)
      requires Valid()
      modifies this`state, serverBacklog, ports
      ensures Valid()
      ensures !(sockType == ServerListener && t.kind == SYN) ==>
                spawned.None? && ports.portMap == old(ports.portMap)
                && (serverBacklog != null ==> serverBacklog.backlog == old(serverBacklog.backlog))
      ensures sockType == Client && t.kind == ACK && old(state) == SynSent ==> state == Established
      ensures !(sockType == Client && t.kind == ACK && old(state) == SynSent) ==> state == old(state)
      ensures sockType == ServerListener && t.kind == SYN &&
              old(serverBacklog.RemainingCapacity()) == 0 ==>
                spawned.None? && serverBacklog.backlog == old(serverBacklog.backlog)
                && ports.portMap == old(ports.portMap)
      ensures sockType == ServerListener && t.kind == SYN &&
              old(serverBacklog.RemainingCapacity()) > 0 ==>
                && spawned.Some? && fresh(spawned.value)
                && spawned.value.IsPassiveFor(ports, srcAddr, srcPort, t)
      ensures sockType == ServerListener && t.kind == SYN &&
              old(serverBacklog.RemainingCapacity()) > 0
              && old(ports.IsSockAvailable(Peer(srcAddr, srcPort), myPort)) ==>
                && spawned.Some?
                && serverBacklog.backlog == old(serverBacklog.backlog) + [spawned.value]
                && ports.portMap == old(ports.portMap)[myPort := PeerSet(Peer(srcAddr, srcPort), spawned.value)]
                && ports.Find(srcAddr, srcPort, myPort) == Some(spawned.value)
      ensures sockType == ServerListener && t.kind == SYN &&
              old(serverBacklog.RemainingCapacity()) > 0
              && old(ports.IsSockAvailable(Peer(srcAddr, srcPort), myPort)) ==>
                forall a, p :: Peer(a, p) != Peer(srcAddr, srcPort) ==> ports.Find(a, p, myPort).None?
      ensures sockType == ServerListener && t.kind == SYN &&
              old(serverBacklog.RemainingCapacity()) > 0
              && !old(ports.IsSockAvailable(Peer(srcAddr, srcPort), myPort)) ==>
                serverBacklog.backlog == old(serverBacklog.backlog) && ports.portMap == old(ports.portMap)
    {
      spawned := None;
      if IsListening() {
        if t.kind == SYN {
          spawned := ReceiveSyn(srcAddr, srcPort, t);
        }
      } else if IsClient() {
        if t.kind == ACK {
          if IsConnectionPending() {
            state := Established;
          }
        }
      } else if IsServerClient() {
      } else {
        // a socket of no type logs an error and drops the segment
      }
    }

    /**
     * receiveSYN: refuses the SYN when the backlog is full; otherwise creates
     * the passive socket, registers it for the peer in the port table, and
     * queues it when the registration succeeds. The registration goes through
     * the address-qualified assign, which replaces the port's whole set: from
     * then on the port answers only that peer, and the listener's wildcard
     * entry is gone.
     */
    method ReceiveSyn(srcAddr: int, srcPort: int, t: Transport) returns (ghost spawned: Option<TCPSock>)
      requires Valid() && sockType == ServerListener
      modifies serverBacklog, ports
      ensures Valid()
      ensures old(serverBacklog.RemainingCapacity()) == 0 ==>
                spawned.None? && serverBacklog.backlog == old(serverBacklog.backlog)
                && ports.portMap == old(ports.portMap)
      ensures old(serverBacklog.RemainingCapacity()) > 0 ==>
                && spawned.Some? && fresh(spawned.value)
                && spawned.value.IsPassiveFor(ports, srcAddr, srcPort, t)
      ensures old(serverBacklog.RemainingCapacity()) > 0
              && old(ports.IsSockAvailable(Peer(srcAddr, srcPort), myPort)) ==>
                && spawned.Some?
                && serverBacklog.backlog == old(serverBacklog.backlog) + [spawned.value]
                && ports.portMap == old(ports.portMap)[myPort := PeerSet(Peer(srcAddr, srcPort), spawned.value)]
                && ports.Find(srcAddr, srcPort, myPort) == Some(spawned.value)
      ensures old(serverBacklog.RemainingCapacity()) > 0
              && old(ports.IsSockAvailable(Peer(srcAddr, srcPort), myPort)) ==>
                forall a, p :: Peer(a, p) != Peer(srcAddr, srcPort) ==> ports.Find(a, p, myPort).None?
      ensures old(serverBacklog.RemainingCapacity()) > 0
              && !old(ports.IsSockAvailable(Peer(srcAddr, srcPort), myPort)) ==>
                serverBacklog.backlog == old(serverBacklog.backlog) && ports.portMap == old(ports.portMap)
    {
      if serverBacklog.RemainingCapacity() == 0 {
        return None;
      }
      var sock := new TCPSock.Passive(ports, srcAddr, srcPort, t);
      spawned := Some(sock);
      var registered := ports.AssignPeer(srcAddr, srcPort, myPort, sock);
      if registered == -1 {
        return;
      }
      var added := serverBacklog.AddToBacklog(sock);
    }

    /**
     * receiveSYN with the corrected registration: the peer's entry is added
     * to the port's set, so every other peer still finds what it found
     * before, the listener included.
     */
    method ReceiveSynKeepingSet(srcAddr: int, srcPort: int, t: Transport) returns (ghost spawned: Option<TCPSock>)
      requires Valid() && sockType == ServerListener
      modifies serverBacklog, ports
      ensures Valid()
      ensures old(serverBacklog.RemainingCapacity()) == 0 ==>
                spawned.None? && serverBacklog.backlog == old(serverBacklog.backlog)
                && ports.portMap == old(ports.portMap)
      ensures old(serverBacklog.RemainingCapacity()) > 0 ==>
                && spawned.Some? && fresh(spawned.value)
                && spawned.value.IsPassiveFor(ports, srcAddr, srcPort, t)
      ensures old(serverBacklog.RemainingCapacity()) > 0
              && old(ports.IsSockAvailable(Peer(srcAddr, srcPort), myPort)) ==>
                && spawned.Some?
                && serverBacklog.backlog == old(serverBacklog.backlog) + [spawned.value]
                && ports.Find(srcAddr, srcPort, myPort) == Some(spawned.value)
                && SameElsewhere(ports.portMap, old(ports.portMap), myPort)
      ensures old(serverBacklog.RemainingCapacity()) > 0 && myPort in old(ports.portMap)
              && old(ports.IsSockAvailable(Peer(srcAddr, srcPort), myPort)) ==>
                forall a, p :: Peer(a, p) != Peer(srcAddr, srcPort) ==>
                  ports.Find(a, p, myPort) == old(ports.Find(a, p, myPort))
      ensures old(serverBacklog.RemainingCapacity()) > 0
              && !old(ports.IsSockAvailable(Peer(srcAddr, srcPort), myPort)) ==>
                serverBacklog.backlog == old(serverBacklog.backlog) && ports.portMap == old(ports.portMap)
    {
      if serverBacklog.RemainingCapacity() == 0 {
        return None;
      }
      var sock := new TCPSock.Passive(ports, srcAddr, srcPort, t);
      spawned := Some(sock);
      var registered := ports.AssignPeerKeepingSet(srcAddr, srcPort, myPort, sock);
      if registered == -1 {
        return;
      }
      var added := serverBacklog.AddToBacklog(sock);
    }

    /** send: hands a segment from this socket's port to the peer. */
    method Send(kind: Kind, window: int, seqNum: int, payload: seq<Byte>)
      modifies this`sent
      ensures sent == old(sent) + [Outgoing(clientDestAddr, Transport(myPort, clientDestPort, kind, window, seqNum, payload))]
    {
      sent := sent + [Outgoing(clientDestAddr, Transport(myPort, clientDestPort, kind, window, seqNum, payload))];
    }
  }

  /**
   * A listener on port 80 with a backlog of one: the first SYN yields a
   * connection that accept returns, established and acknowledged; a second
   * SYN while it is pending is refused. The port table now answers only the
   * first peer: any other peer finds no socket on port 80, not even the
   * listener.
   */
  method ListenerAcceptsOne(w: int)
    returns (bound: int, listening: int, accepted: Option<TCPSock>, next: Option<TCPSock>, peer: Option<TCPSock>, served: Option<TCPSock>)
    ensures bound == 0 && listening == 0
    ensures accepted.Some? && accepted.value.state == Established
    ensures accepted.value.clientSeqNo == 1001
    ensures accepted.value.sent == [Outgoing(5, Transport(0, 6, ACK, 0, 1001, []))]
    ensures next.None?
    ensures peer == accepted && served.None?
  {
    var ports := new SocketManager<TCPSock>();
    var listener := new TCPSock(ports);
    bound := listener.Bind(80);
    listening := listener.Listen(1);
    ghost var first := listener.Receive(5, 6, Transport(6, 80, SYN, w, 1000, []));
    ghost var second := listener.Receive(7, 8, Transport(8, 80, SYN, w, 2000, []));
    accepted := listener.Accept();
    next := listener.Accept();
    peer := ports.Find(5, 6, 80);
    served := ports.Find(9, 9, 80);
  }

  /**
   * The same listener with the corrected registration: after the first
   * connection the port answers that peer with its socket and every other
   * peer with the listener.
   */
  method ListenerKeepsServing(w: int)
    returns (accepted: Option<TCPSock>, peer: Option<TCPSock>, served: Option<TCPSock>, listener: TCPSock)
    ensures accepted.Some? && accepted.value.clientSeqNo == 1001
    ensures peer == accepted && served == Some(listener)
  {
    var ports := new SocketManager<TCPSock>();
    listener := new TCPSock(ports);
    var bound := listener.Bind(80);
    var listening := listener.Listen(1);
    ghost var first := listener.ReceiveSynKeepingSet(5, 6, Transport(6, 80, SYN, w, 1000, []));
    accepted := listener.Accept();
    peer := ports.Find(5, 6, 80);
    served := ports.Find(9, 9, 80);
  }

  /** An active open: bind, connect with initial sequence number `isn`, then the ACK. */
  method ClientConnects(isn: int) returns (sock: TCPSock, connected: bool)
    requires 0 <= isn < 0x1_0000
    ensures connected && sock.clientSeqNo == isn + 1
    ensures sock.sent == [Outgoing(2, Transport(1, 80, SYN, 0, isn, []))]
  {
    var ports := new SocketManager<TCPSock>();
    sock := new TCPSock(ports);
    var r := sock.Bind(1);
    r := sock.Connect(2, 80, isn);
    ghost var none := sock.Receive(2, 80, Transport(80, 1, ACK, 0, isn + 1, []));
    connected := sock.IsConnected();
  }
}
