/**
 * SocketManager.java: the demultiplexing table. Each local port maps to a
 * set of sockets keyed by peer (address, port), plus a wildcard entry that a
 * listening or bound socket uses to receive from any peer.
 */
module SocketManagement {
  import opened Wrappers
  import opened TransportDefs

  /**
   * A key of a per-port set: the wildcard "" or the string
   * AddressPair.toString(addr, port), which is distinct for distinct pairs
   * and never equal to "".
   */
  datatype Key = Wildcard | Peer(addr: int, port: int)

  /** SockSet: the sockets registered on one local port. */
  datatype SockSet<S> = SockSet(sockMap: map<Key, S>)
  {
    /** get: the exact peer's socket if there is one, else the wildcard socket. */
    function Get(srcAddr: int, srcPort: int): (r: Option<S>)
      ensures Peer(srcAddr, srcPort) in sockMap ==> r == Some(sockMap[Peer(srcAddr, srcPort)])
      ensures Peer(srcAddr, srcPort) !in sockMap && Wildcard in sockMap ==> r == Some(sockMap[Wildcard])
      ensures r.None? <==> Peer(srcAddr, srcPort) !in sockMap && Wildcard !in sockMap
    {
      var key := Peer(srcAddr, srcPort);
      if key in sockMap then Some(sockMap[key])
      else if Wildcard in sockMap then Some(sockMap[Wildcard])
      else None
    }

    /** hasAddress */
    predicate HasAddress(key: Key) {
      key in sockMap
    }
  }

  /** The constructor SockSet(sock): a set with only the wildcard entry. */
  function ListenerSet<S>(sock: S): SockSet<S> {
    SockSet(map[Wildcard := sock])
  }

  /** The constructor SockSet(srcAddress, sock): a set with only that peer's entry. */
  function PeerSet<S>(key: Key, sock: S): SockSet<S> {
    SockSet(map[key := sock])
  }

  /** A set made by SockSet(sock) hands its socket to every peer. */
  lemma ListenerSetServesEveryPeer<S>(sock: S, srcAddr: int, srcPort: int)
    ensures ListenerSet(sock).Get(srcAddr, srcPort) == Some(sock)
  {
  }

  /** A set made by SockSet(srcAddress, sock) serves that one peer and nobody else. */
  lemma PeerSetServesOnlyItsPeer<S>(key: Key, sock: S, srcAddr: int, srcPort: int)
    requires key.Peer?
    ensures PeerSet(key, sock).Get(srcAddr, srcPort)
            == (if key == Peer(srcAddr, srcPort) then Some(sock) else None)
  {
  }

  /** `m` and `m'` agree on every port other than `port`. */
  ghost predicate SameElsewhere<S>(m: map<int, SockSet<S>>, m': map<int, SockSet<S>>, port: int) {
    forall p :: p != port ==> (p in m <==> p in m') && (p in m ==> m[p] == m'[p])
  }

  class SocketManager<S> {
    /** portMap: local port to the sockets registered on it. */
    var portMap: map<int, SockSet<S>>

    constructor()
      ensures portMap == map[]
    {
      portMap := map[];
    }

    /** isPortValid: the port lies in 0..MAX_PORT_NUM. */
    static predicate IsPortValid(destPort: int) {
      0 <= destPort <= MAX_PORT_NUM
    }

    /** isPortAvailable: the port is valid and nothing is registered on it. */
    predicate IsPortAvailable(destPort: int)
      reads this
    {
      IsPortValid(destPort) && destPort !in portMap
    }

    /** isSockAvailable: the port is valid and its set has no entry under `key`. */
    function IsSockAvailable(key: Key, destPort: int): (r: bool)
      reads this
      ensures r <==> IsPortValid(destPort) && (destPort in portMap ==> key !in portMap[destPort].sockMap)
    {
      if IsPortAvailable(destPort) then true
      else if !IsPortValid(destPort) then false
      else !portMap[destPort].HasAddress(key)
    }

    /**
     * find: no socket when the port has no set; otherwise the peer's own
     * socket, falling back to the port's wildcard socket.
     */
    function Find(srcAddr: int, srcPort: int, destPort: int): (r: Option<S>)
      reads this
      ensures destPort !in portMap ==> r.None?
      ensures destPort in portMap && Peer(srcAddr, srcPort) in portMap[destPort].sockMap
              ==> r == Some(portMap[destPort].sockMap[Peer(srcAddr, srcPort)])
      ensures destPort in portMap && Peer(srcAddr, srcPort) !in portMap[destPort].sockMap
              ==> r == (if Wildcard in portMap[destPort].sockMap
                        then Some(portMap[destPort].sockMap[Wildcard]) else None)
    {
      if destPort !in portMap then None
      else portMap[destPort].Get(srcAddr, srcPort)
    }

    /**
     * assign(destPort, sock): registers `sock` as the wildcard socket of a
     * valid, unused port; returns 0 on success and -1 otherwise.
     */
    method Assign(destPort: int, sock: S) returns (r: int)
      modifies this
      ensures r == 0 || r == -1
      ensures r == 0 <==> old(IsPortAvailable(destPort))
      ensures r == -1 ==> portMap == old(portMap)
      ensures r == 0 ==> portMap == old(portMap)[destPort := ListenerSet(sock)]
      ensures r == 0 ==> forall a, p :: Find(a, p, destPort) == Some(sock)
      ensures SameElsewhere(portMap, old(portMap), destPort)
    {
      if !IsPortAvailable(destPort) {
        return -1;
      }
      portMap := portMap[destPort := ListenerSet(sock)];
      forall a, p ensures Find(a, p, destPort) == Some(sock) {
        ListenerSetServesEveryPeer(sock, a, p);
      }
      return 0;
    }

    /**
     * assign(srcAddr, srcPort, destPort, sock), as written: when the peer's
     * key is free on a valid port, the port's whole set is REPLACED by one
     * holding only that peer, so the port's wildcard socket and every other
     * peer become unreachable.
     */
    method AssignPeer(srcAddr: int, srcPort: int, destPort: int, sock: S) returns (r: int)
      modifies this
      ensures r == 0 || r == -1
      ensures r == 0 <==> old(IsSockAvailable(Peer(srcAddr, srcPort), destPort))
      ensures r == -1 ==> portMap == old(portMap)
      ensures r == 0 ==> portMap == old(portMap)[destPort := PeerSet(Peer(srcAddr, srcPort), sock)]
      ensures r == 0 ==> Find(srcAddr, srcPort, destPort) == Some(sock)
      ensures r == 0 ==> forall a, p :: Peer(a, p) != Peer(srcAddr, srcPort) ==> Find(a, p, destPort).None?
      ensures SameElsewhere(portMap, old(portMap), destPort)
    {
      var key := Peer(srcAddr, srcPort);
      if !IsSockAvailable(key, destPort) {
        return -1;
      }
      portMap := portMap[destPort := PeerSet(key, sock)];
      forall a, p ensures Find(a, p, destPort) == (if key == Peer(a, p) then Some(sock) else None) {
        PeerSetServesOnlyItsPeer(key, sock, a, p);
      }
      return 0;
    }

    /**
     * The address-qualified assign as evidently intended: the peer's entry is
     * added to the port's set, which keeps its wildcard socket and its other
     * peers.
     */
    method AssignPeerKeepingSet(srcAddr: int, srcPort: int, destPort: int, sock: S) returns (r: int)
      modifies this
      ensures r == 0 || r == -1
      ensures r == 0 <==> old(IsSockAvailable(Peer(srcAddr, srcPort), destPort))
      ensures r == -1 ==> portMap == old(portMap)
      ensures r == 0 ==> destPort in portMap
      ensures r == 0 ==> portMap[destPort].sockMap
                         == (if destPort in old(portMap) then old(portMap)[destPort].sockMap else map[])
                            [Peer(srcAddr, srcPort) := sock]
      ensures r == 0 ==> Find(srcAddr, srcPort, destPort) == Some(sock)
      ensures r == 0 && destPort in old(portMap) ==>
                forall a, p :: Peer(a, p) != Peer(srcAddr, srcPort) ==>
                  Find(a, p, destPort) == old(Find(a, p, destPort))
      ensures SameElsewhere(portMap, old(portMap), destPort)
    {
      var key := Peer(srcAddr, srcPort);
      if !IsSockAvailable(key, destPort) {
        return -1;
      }
      var entries := if destPort in portMap then portMap[destPort].sockMap else map[];
      portMap := portMap[destPort := SockSet(entries[key := sock])];
      return 0;
    }

    /** deassign: unregisters the port; true iff it had a set. */
    method Deassign(destPort: int) returns (b: bool)
      modifies this
      ensures b == (destPort in old(portMap))
      ensures destPort !in portMap
      ensures forall a, p :: Find(a, p, destPort).None?
      ensures SameElsewhere(portMap, old(portMap), destPort)
    {
      b := destPort in portMap;
      portMap := portMap - {destPort};
    }
  }

  /**
   * The code as written: once a listener on port 80 has accepted its first
   * peer, a SYN from any other peer no longer finds the listener.
   */
  method FirstPeerHidesListener() returns (before: Option<int>, after: Option<int>)
    ensures before == Some(1) && after == None
  {
    var m := new SocketManager<int>();
    var r := m.Assign(80, 1);
    before := m.Find(7, 9, 80);
    r := m.AssignPeer(5, 6, 80, 2);
    after := m.Find(7, 9, 80);
  }

  /**
   * The corrected assign: the first peer gets its own socket and every other
   * peer still reaches the listener.
   */
  method FirstPeerKeepsListener() returns (peer: Option<int>, other: Option<int>)
    ensures peer == Some(2) && other == Some(1)
  {
    var m := new SocketManager<int>();
    var r := m.Assign(80, 1);
    r := m.AssignPeerKeepingSet(5, 6, 80, 2);
    peer := m.Find(5, 6, 80);
    other := m.Find(7, 9, 80);
  }
}
