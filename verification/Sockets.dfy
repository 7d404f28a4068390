// Sockets and the ports they own (lib/socket.c:181-257, 338-410), and the bind
// retries of nl_connect (lib/nl.c:104-218).

module Sockets {
  import opened WordBits
  import opened Ports

  // struct nl_sock, as far as ports go
  class NlSock {
    var pid: nat           // s_local.nl_pid
    var ownPort: bool      // NL_OWN_PORT in s_flags: the port was not generated
    var fd: int            // s_fd
    var proto: nat         // s_proto

    // __alloc_socket
    constructor ()
      ensures pid == 0 && ownPort && fd == -1 && proto == 0
    {
      pid, ownPort, fd, proto := 0, true, -1, 0;
    }
  }

  // The library's port state: the map, the sockets, and the slots set aside by
  // bind retries that are running.
  class Library {
    const ports: PortMap
    ghost var socks: set<NlSock>
    ghost var parked: set<nat>

    constructor (pid: nat)
      requires pid < SHIFT
      ensures fresh(ports) && fresh(ports.words) && socks == {} && parked == {} && Conserved(this, {})
    {
      ports := new PortMap(pid);
      socks, parked := {}, {};
      new;
      forall s: nat | s < 1024 ensures !Used(ports.words[..], s) { ZeroBits(s % 32); }
    }
  }

  ghost function TakenSlots(l: Library): set<nat>
    requires l.ports.Valid()
    reads l.ports, l.ports.words
  {
    Taken(l.ports.words[..])
  }

  // The slots these sockets own.
  ghost function Owned(ks: set<NlSock>): set<nat>
    reads ks`pid, ks`ownPort
  {
    set k | k in ks && !k.ownPort :: SlotOf(k.pid)
  }

  // A socket that does not have its own port has a generated one, and no two
  // have the port of one slot.
  ghost predicate OwnersOk(pid: nat, ks: set<NlSock>)
    reads ks`pid, ks`ownPort
  {
    && (forall k :: k in ks ==> k.pid < LIMIT)
    && (forall k :: k in ks && !k.ownPort ==> SlotOf(k.pid) < 1024 && k.pid == PortOf(pid, SlotOf(k.pid)))
    && (forall j, k :: j in ks && k in ks && j != k && !j.ownPort && !k.ownPort ==> SlotOf(j.pid) != SlotOf(k.pid))
  }

  // The taken slots are those owned by the sockets ks and those set aside, no
  // slot both, and no slot owned twice.
  ghost predicate Conserved(l: Library, ks: set<NlSock>)
    reads l`parked, l.ports, l.ports.words, ks`pid, ks`ownPort
  {
    && l.ports.Valid() && OwnersOk(l.ports.pid, ks)
    && TakenSlots(l) == Owned(ks) + l.parked && Owned(ks) !! l.parked
  }

  // No two sockets share a generated port.
  lemma NoSharedPort(l: Library, j: NlSock, k: NlSock)
    requires Conserved(l, l.socks) && j in l.socks && k in l.socks && j != k && !j.ownPort && !k.ownPort
    ensures j.pid != k.pid && j.pid != 0 && k.pid != 0
  {
    PortRoundTrip(l.ports.pid, SlotOf(j.pid));
    PortRoundTrip(l.ports.pid, SlotOf(k.pid));
  }

  // nl_socket_alloc
  method AllocSocket(l: Library) returns (sk: NlSock)
    requires Conserved(l, l.socks)
    modifies l`socks
    ensures Conserved(l, l.socks) && fresh(sk) && l.socks == old(l.socks) + {sk} && sk.pid == 0 && sk.ownPort && sk.fd == -1 && sk.proto == 0
  {
    sk := new NlSock();
    l.socks := l.socks + {sk};
    assert Owned(l.socks) == old(Owned(l.socks));
  }

  // What a change to one socket has to show.
  lemma OwnedWith(ks: set<NlSock>, sk: NlSock)
    ensures Owned(ks + {sk}) == Owned(ks) + if sk.ownPort then {} else {SlotOf(sk.pid)}
  {}

  // release_local_port for a socket's generated port; the socket is then about
  // to forget it.
  method ReleaseOwn(l: Library, sk: NlSock)
    requires Conserved(l, l.socks) && sk in l.socks && !sk.ownPort
    modifies l.ports.words
    ensures Conserved(l, l.socks - {sk})
  {
    PortRoundTrip(l.ports.pid, SlotOf(sk.pid));
    ghost var rest := l.socks - {sk};
    assert l.socks == rest + {sk};
    OwnedWith(rest, sk);
    OwnedApart(l, sk);
    ReleaseLocalPort(l.ports, sk.pid);
  }

  lemma OwnedApart(l: Library, sk: NlSock)
    requires Conserved(l, l.socks) && sk in l.socks && !sk.ownPort
    ensures SlotOf(sk.pid) !in Owned(l.socks - {sk}) && SlotOf(sk.pid) in Owned(l.socks)
  {}

  // nl_socket_free
  method FreeSocket(l: Library, sk: NlSock)
    requires Conserved(l, l.socks) && sk in l.socks
    modifies l.ports.words, l`socks, sk`fd
    ensures Conserved(l, l.socks) && l.socks == old(l.socks) - {sk}
  {
    if sk.fd >= 0 {
      sk.fd := -1;    // close
    }
    if !sk.ownPort {
      ReleaseOwn(l, sk);
    } else {
      LeftOut(l, sk);
    }
    hide Conserved;
    l.socks := l.socks - {sk};
  }

  lemma LeftOut(l: Library, sk: NlSock)
    requires Conserved(l, l.socks) && sk.ownPort
    ensures Conserved(l, l.socks - {sk})
  {
    assert Owned(l.socks - {sk}) == Owned(l.socks);
  }

  // nl_socket_set_local_port
  method SetLocalPort(l: Library, sk: NlSock, port: nat)
    requires Conserved(l, l.socks) && sk in l.socks && port < LIMIT
    modifies l.ports.words, sk`pid, sk`ownPort
    ensures Conserved(l, l.socks) && sk.ownPort && sk.pid == port
  {
    if !sk.ownPort {
      ReleaseOwn(l, sk);
    } else {
      LeftOut(l, sk);
    }
    sk.ownPort := true;
    sk.pid := port;
    Rejoined(l, sk);
  }

  lemma Rejoined(l: Library, sk: NlSock)
    requires Conserved(l, l.socks - {sk}) && sk in l.socks && sk.ownPort && sk.pid < LIMIT
    ensures Conserved(l, l.socks)
  {
    assert l.socks == l.socks - {sk} + {sk};
    OwnedWith(l.socks - {sk}, sk);
  }

  // ---------- generated ports ----------

  // A socket that owns nothing so far is given a slot.
  method GenerateFor(l: Library, ghost sk: NlSock, seed: nat) returns (port: nat)
    requires Conserved(l, l.socks - {sk}) && sk in l.socks && seed < 0x1_0000
    modifies l.ports`idxState, l.ports.words
    ensures l.ports.Valid() && port < LIMIT
    ensures port == 0 ==> Conserved(l, l.socks - {sk}) && forall s :: 0 <= s < 1024 ==> s in old(TakenSlots(l))
    ensures port != 0 ==>
      && SlotOf(port) < 1024 && port == PortOf(l.ports.pid, SlotOf(port))
      && SlotOf(port) !in old(TakenSlots(l)) && TakenSlots(l) == old(TakenSlots(l)) + {SlotOf(port)}
    ensures port != 0 && SlotOf(port) < 32 ==> forall s :: 32 <= s < 1024 ==> s in old(TakenSlots(l))
  {
    port := GenerateLocalPort(l.ports, seed);
  }

  // The new slot is the socket's.
  lemma Given(l: Library, sk: NlSock, before: set<nat>)
    requires l.ports.Valid() && sk in l.socks && !sk.ownPort && SlotOf(sk.pid) < 1024 && sk.pid < LIMIT
    requires sk.pid == PortOf(l.ports.pid, SlotOf(sk.pid))
    requires before == Owned(l.socks - {sk}) + l.parked && Owned(l.socks - {sk}) !! l.parked
    requires SlotOf(sk.pid) !in before && TakenSlots(l) == before + {SlotOf(sk.pid)}
    requires OwnersOk(l.ports.pid, l.socks - {sk})
    ensures Conserved(l, l.socks)
  {
    assert l.socks == l.socks - {sk} + {sk};
    OwnedWith(l.socks - {sk}, sk);
    forall k | k in l.socks - {sk} && !k.ownPort ensures SlotOf(k.pid) in Owned(l.socks - {sk}) {}
  }

  // _nl_socket_set_local_port_no_release: what the socket had before must
  // already be accounted for elsewhere.
  method SetLocalPortNoRelease(l: Library, sk: NlSock, generateOther: bool, seed: nat) returns (port: nat)
    requires Conserved(l, l.socks - {sk}) && sk in l.socks && seed < 0x1_0000
    modifies l.ports`idxState, l.ports.words, sk`pid, sk`ownPort
    ensures Conserved(l, l.socks) && sk.pid == port && (sk.ownPort <==> port == 0)
    ensures !generateOther ==> port == 0 && TakenSlots(l) == old(TakenSlots(l))
    ensures generateOther ==> (port == 0 <==> forall s :: 0 <= s < 1024 ==> s in old(TakenSlots(l)))
    ensures port != 0 ==> SlotOf(port) < 1024 && SlotOf(port) !in old(TakenSlots(l))
                          && TakenSlots(l) == old(TakenSlots(l)) + {SlotOf(port)}
    ensures port == 0 ==> TakenSlots(l) == old(TakenSlots(l))
  {
    hide Taken; hide OwnersOk; hide SlotOf; hide PortOf;
    ghost var before := TakenSlots(l);
    if generateOther {
      port := GenerateFor(l, sk, seed);
    } else {
      port := 0;
    }
    sk.pid := port;
    if port == 0 {
      sk.ownPort := true;
      Rejoined(l, sk);
    } else {
      sk.ownPort := false;
      Given(l, sk, before);
    }
  }

  // nl_socket_get_local_port.  When no slot is free the socket gets the
  // largest port number, which it does not own.
  method GetLocalPort(l: Library, sk: NlSock, seed: nat) returns (port: nat)
    requires Conserved(l, l.socks) && sk in l.socks && seed < 0x1_0000
    modifies l.ports`idxState, l.ports.words, sk`pid, sk`ownPort
    ensures Conserved(l, l.socks) && port == sk.pid && port != 0
    ensures old(sk.pid) != 0 ==> sk.pid == old(sk.pid) && sk.ownPort == old(sk.ownPort)
    ensures old(sk.pid) == 0 ==>
      if forall s :: 0 <= s < 1024 ==> s in old(TakenSlots(l)) then sk.pid == 0xFFFFFFFF && sk.ownPort else !sk.ownPort
  {
    if sk.pid == 0 {
      Unspecified(l, sk);
      LeftOut(l, sk);
      var p := SetLocalPortNoRelease(l, sk, true, seed);
      if p == 0 {
        LeftOut(l, sk);
        sk.pid := 0xFFFFFFFF;
        Rejoined(l, sk);
      }
    }
    port := sk.pid;
  }

  // A socket without a port has not generated one.
  lemma Unspecified(l: Library, sk: NlSock)
    requires Conserved(l, l.socks) && sk in l.socks && sk.pid == 0
    ensures sk.ownPort
  {
    if !sk.ownPort { PortRoundTrip(l.ports.pid, SlotOf(sk.pid)); }
  }

  // ---------- nl_connect ----------

  // What the kernel answers: to socket(), to setting the buffers, to the i-th
  // bind(), and to getsockname().
  datatype BindResult = Bound | InUse | BindFails
  datatype Name = NameFails | NameBadSize | NameBadFamily | Named(pid: nat)
  datatype Kernel = Kernel(fd: int, buffers: bool, bind: nat -> BindResult, name: Name)

  datatype ConnectStatus = Connected | BadSocket | NoSocket | NoBuffers | NotBound | NoName | NoAddr | AfNotSupported

  // How one round of the retry loop ends
  datatype Try = NoPort | Took | Gave | Again

  // One round: another port is generated and bound to, and set aside when it
  // is in use.
  method TryPort(l: Library, sk: NlSock, r: BindResult, seed: nat, used: array<Word>, ghost parked: set<nat>)
    returns (t: Try)
    requires Conserved(l, l.socks - {sk}) && sk in l.socks && seed < 0x1_0000
    requires used.Length == 32 && used != l.ports.words
    requires l.parked == parked + Taken(used[..]) && parked !! Taken(used[..])
    modifies l.ports`idxState, l.ports.words, l`parked, sk`pid, sk`ownPort, used
    ensures if t == Again then Conserved(l, l.socks - {sk}) else Conserved(l, l.socks)
    ensures l.parked == parked + Taken(used[..]) && parked !! Taken(used[..])
    ensures t == NoPort <==> sk.ownPort
    ensures t == NoPort ==> sk.pid == 0
    ensures t != NoPort ==> r == match t case Took => Bound case Gave => BindFails case Again => InUse
    ensures t != NoPort ==> SlotOf(sk.pid) !in old(TakenSlots(l)) && TakenSlots(l) == old(TakenSlots(l)) + {SlotOf(sk.pid)}
    ensures t == NoPort ==> TakenSlots(l) == old(TakenSlots(l))
    ensures t == NoPort <==> forall s :: 0 <= s < 1024 ==> s in old(TakenSlots(l))
  {
    hide Conserved; hide Taken; hide TakenSlots; hide SlotOf; hide PortOf;
    var port := SetLocalPortNoRelease(l, sk, true, seed);
    if port == 0 {
      return NoPort;
    }
    if r == Bound {
      return Took;
    }
    if r == BindFails {
      return Gave;
    }
    Park(l, sk, used, parked);
    return Again;
  }

  // How many ports can be tried: six, or as many as there are free slots
  function TryLimit(taken: set<nat>): (n: nat)
    ensures |taken| <= 1024 ==> n <= 6 && n <= 1024 - |taken| && (n == 6 || n == 1024 - |taken|)
  {
    if |taken| > 1024 then 0 else if 1024 - |taken| < 6 then 1024 - |taken| else 6
  }

  // The bind that counts: the first that does not find its port in use, or the
  // one after all that may be tried.
  function Counted(bind: nat -> BindResult, limit: nat): (j: nat)
    ensures j <= limit && (forall i :: 0 <= i < j ==> bind(i) == InUse) && (j < limit ==> bind(j) != InUse)
  {
    if limit == 0 then 0
    else
      var j := Counted(bind, limit - 1);
      if j < limit - 1 || bind(j) != InUse then j else limit
  }

  lemma CountedIs(bind: nat -> BindResult, limit: nat, n: nat)
    requires n <= limit && (forall i :: 0 <= i < n ==> bind(i) == InUse) && (n < limit ==> bind(n) != InUse)
    ensures Counted(bind, limit) == n
  {
    var j := Counted(bind, limit);
  }

  // Slots are numbers below 1024, and all are taken when 1024 are.
  lemma SlotCount(taken: set<nat>)
    requires forall s :: s in taken ==> s < 1024
    ensures |taken| <= 1024 && (|taken| == 1024 <==> forall s :: 0 <= s < 1024 ==> s in taken)
  {
    var all := Below(1024);
    assert taken <= all;
    FewerBelow(taken, all);
    if forall s :: 0 <= s < 1024 ==> s in taken { assert taken == all; }
  }

  function Below(n: nat): (s: set<nat>)
    ensures |s| == n && forall k :: k in s <==> 0 <= k < n
  {
    if n == 0 then {} else Below(n - 1) + {n - 1}
  }

  lemma FewerBelow(s: set<nat>, t: set<nat>)
    requires s <= t
    ensures |s| <= |t| && (|s| == |t| ==> s == t)
  {
    assert t == s + (t - s) && |t| == |s| + |t - s|;
  }

  lemma TakenCount(l: Library)
    requires l.ports.Valid()
    ensures var taken := TakenSlots(l);
            |taken| <= 1024 && (|taken| == 1024 <==> forall s :: 0 <= s < 1024 ==> s in taken)
  {
    SlotCount(TakenSlots(l));
  }

  // The ports are of different slots, none of which was taken.
  ghost predicate AllNew(tried: seq<nat>, taken: set<nat>)
  {
    && (forall i, j :: 0 <= i < j < |tried| ==> SlotOf(tried[i]) != SlotOf(tried[j]))
    && (forall i :: 0 <= i < |tried| ==> SlotOf(tried[i]) !in taken)
  }

  // ... and by now they all are.
  ghost predicate TriedSoFar(tried: seq<nat>, taken: set<nat>, now: set<nat>)
  {
    AllNew(tried, taken) && taken <= now && forall i :: 0 <= i < |tried| ==> SlotOf(tried[i]) in now
  }

  lemma TriedMore(tried: seq<nat>, taken: set<nat>, now: set<nat>, port: nat)
    requires TriedSoFar(tried, taken, now) && SlotOf(port) !in now
    ensures TriedSoFar(tried + [port], taken, now + {SlotOf(port)})
  {
    hide SlotOf;
  }

  // The retry loop.  Slots whose port turned out to be in use stay set aside
  // until it ends, so that none is tried twice; then they are all given back.
  method BindRetries(l: Library, sk: NlSock, kern: Kernel, seed: nat -> nat)
    returns (bound: bool, failed: bool, n: nat, ghost tried: seq<nat>)
    requires Conserved(l, l.socks) && sk in l.socks && sk.pid == 0
    requires forall i :: seed(i) < 0x1_0000
    modifies l.ports`idxState, l.ports.words, l`parked, sk`pid, sk`ownPort
    ensures Conserved(l, l.socks) && l.parked == old(l.parked)
    ensures n == |tried| <= 6 && (forall i :: 0 <= i < n - 1 ==> kern.bind(i) == InUse)
    ensures AllNew(tried, old(TakenSlots(l))) && (bound || failed ==> n > 0 && sk.pid == tried[n - 1])
    ensures var limit := TryLimit(old(TakenSlots(l)));
            var j := Counted(kern.bind, limit);
            && n == (if j < limit then j + 1 else limit)
            && (bound <==> j < limit && kern.bind(j) == Bound) && (failed <==> j < limit && kern.bind(j) == BindFails)
    ensures bound ==> n > 0 && kern.bind(n - 1) == Bound && !sk.ownPort
    ensures failed ==> n > 0 && kern.bind(n - 1) == BindFails && !sk.ownPort && !bound
    ensures !bound && !failed ==> sk.ownPort && sk.pid == 0 && (n > 0 ==> kern.bind(n - 1) == InUse)
  {
    hide Conserved; hide Taken; hide TakenSlots; hide SlotOf; hide AllNew; hide TryLimit; hide Counted;
    PortsValid(l, l.socks);
    Unspecified(l, sk);
    LeftOut(l, sk);
    var used := new Word[32](_ => 0);
    NoneTaken(used);
    var t;
    ghost var parked := l.parked;
    t, n, tried := Retries(l, sk, kern, seed, used, parked);
    bound, failed := t == Took, t == Gave;
    ReleaseParked(l, used, parked);
  }

  method Retries(l: Library, sk: NlSock, kern: Kernel, seed: nat -> nat, used: array<Word>, ghost parked: set<nat>)
    returns (t: Try, n: nat, ghost tried: seq<nat>)
    requires Conserved(l, l.socks - {sk}) && sk in l.socks && forall i :: seed(i) < 0x1_0000
    requires used.Length == 32 && used != l.ports.words && l.parked == parked + Taken(used[..]) && parked !! Taken(used[..])
    modifies l.ports`idxState, l.ports.words, l`parked, sk`pid, sk`ownPort, used
    ensures Conserved(l, l.socks) && l.parked == parked + Taken(used[..]) && parked !! Taken(used[..])
    ensures n == |tried| <= 6 && (forall i :: 0 <= i < n - 1 ==> kern.bind(i) == InUse)
    ensures AllNew(tried, old(TakenSlots(l)))
    ensures var limit := TryLimit(old(TakenSlots(l)));
            var j := Counted(kern.bind, limit);
            && n == (if j < limit then j + 1 else limit)
            && (t == Took <==> j < limit && kern.bind(j) == Bound) && (t == Gave <==> j < limit && kern.bind(j) == BindFails)
    ensures if t == Took || t == Gave then
              n > 0 && sk.pid == tried[n - 1] && !sk.ownPort && kern.bind(n - 1) == if t == Took then Bound else BindFails
            else sk.ownPort && sk.pid == 0 && (n > 0 ==> kern.bind(n - 1) == InUse)
  {
    hide Conserved; hide Taken; hide TakenSlots; hide SlotOf; hide AllNew; hide TriedSoFar; hide TryLimit; hide Counted;
    PortsValid(l, l.socks - {sk});
    ghost var before := TakenSlots(l);
    TakenCount(l);
    ghost var limit := TryLimit(before);
    NoneNew(before);
    tried := [];
    var ntries := 0;
    t, n := Again, 0;
    while true
      invariant 0 <= n == ntries == |tried| <= 6 && t == Again
      invariant Conserved(l, l.socks - {sk}) && l.ports.Valid()
      invariant l.parked == parked + Taken(used[..]) && parked !! Taken(used[..])
      invariant forall i :: 0 <= i < n ==> kern.bind(i) == InUse
      invariant TriedSoFar(tried, before, TakenSlots(l)) && |TakenSlots(l)| == |before| + n
      decreases 6 - ntries
    {
      TakenCount(l);
      CountEnds(kern.bind, limit, n);
      TriedNew(tried, before, TakenSlots(l));
      ntries := ntries + 1;
      if ntries > 6 {
        var none := SetLocalPortNoRelease(l, sk, false, 0);
        break;
      }
      ghost var now := TakenSlots(l);
      t := TryPort(l, sk, kern.bind(n), seed(n), used, parked);
      if t == NoPort {
        break;
      }
      TriedMore(tried, before, now, sk.pid);
      TriedNew(tried + [sk.pid], before, now + {SlotOf(sk.pid)});
      tried := tried + [sk.pid];
      n := n + 1;
      if t != Again {
        break;
      }
      PortsValid(l, l.socks - {sk});
    }
  }

  // When every bind so far found its port in use
  lemma CountEnds(bind: nat -> BindResult, limit: nat, n: nat)
    requires forall i :: 0 <= i < n ==> bind(i) == InUse
    ensures n == limit ==> Counted(bind, limit) == limit
    ensures n < limit && bind(n) != InUse ==> Counted(bind, limit) == n
  {
    if n == limit || (n < limit && bind(n) != InUse) { CountedIs(bind, limit, n); }
  }

  lemma PortsValid(l: Library, ks: set<NlSock>)
    requires Conserved(l, ks)
    ensures l.ports.Valid()
  {}

  lemma TriedNew(tried: seq<nat>, taken: set<nat>, now: set<nat>)
    requires TriedSoFar(tried, taken, now)
    ensures AllNew(tried, taken)
  {}

  lemma NoneNew(taken: set<nat>)
    ensures TriedSoFar([], taken, taken)
  {}

  lemma NoneTaken(used: array<Word>)
    requires used.Length == 32 && forall i :: 0 <= i < 32 ==> used[i] == 0
    ensures Taken(used[..]) == {}
  {
    forall s: nat | s < 1024 ensures !Used(used[..], s) { ZeroBits(s % 32); }
  }

  // The port in use moves from the socket to the set aside.
  method Park(l: Library, sk: NlSock, used: array<Word>, ghost parked: set<nat>)
    requires Conserved(l, l.socks) && sk in l.socks && !sk.ownPort && used.Length == 32 && used != l.ports.words
    requires l.parked == parked + Taken(used[..]) && parked !! Taken(used[..])
    modifies used, l`parked
    ensures Conserved(l, l.socks - {sk})
    ensures l.parked == parked + Taken(used[..]) && parked !! Taken(used[..])
  {
    ghost var rest := l.socks - {sk};
    assert l.socks == rest + {sk};
    OwnedWith(rest, sk);
    OwnedApart(l, sk);
    UsedPortsSet(used, sk.pid);
    l.parked := l.parked + {SlotOf(sk.pid)};
  }

  // _nl_socket_used_ports_release_all at the end of the loop
  method ReleaseParked(l: Library, used: array<Word>, ghost parked: set<nat>)
    requires Conserved(l, l.socks) && used.Length == 32 && used != l.ports.words
    requires l.parked == parked + Taken(used[..]) && parked !! Taken(used[..])
    modifies l.ports.words, l`parked
    ensures Conserved(l, l.socks) && l.parked == parked
  {
    UsedPortsReleaseAll(l.ports, used);
    l.parked := parked;
  }

  // nl_connect.  Whatever the kernel answers, no slot is lost and none is given
  // back twice; the socket may keep a generated port when it fails.
  method Connect(l: Library, sk: NlSock, protocol: nat, kern: Kernel, seed: nat -> nat) returns (st: ConnectStatus)
    requires Conserved(l, l.socks) && sk in l.socks
    requires (forall i :: seed(i) < 0x1_0000) && kern.fd >= -1 && (kern.name.Named? ==> kern.name.pid < LIMIT)
    modifies l.ports`idxState, l.ports.words, l`parked, sk
    ensures Conserved(l, l.socks) && l.parked == old(l.parked)
    ensures var limit := if old(sk.pid) != 0 then 0 else TryLimit(old(TakenSlots(l)));
            st == if old(sk.fd) != -1 then BadSocket
                  else if kern.fd < 0 then NoSocket
                  else if !kern.buffers then NoBuffers
                  else if kern.bind(Counted(kern.bind, limit)) != Bound then NotBound
                  else match kern.name
                       case NameFails => NoName
                       case NameBadSize => NoAddr
                       case NameBadFamily => AfNotSupported
                       case Named(_) => Connected
    ensures st == BadSocket ==> unchanged(sk)
    ensures st == Connected ==> sk.fd == kern.fd >= 0 && sk.proto == protocol && kern.name == Named(sk.pid)
    ensures st != Connected && st != BadSocket ==> sk.fd == -1 && sk.proto == old(sk.proto)
    ensures old(sk.pid) != 0 && (st == Connected ==> sk.pid == old(sk.pid)) ==>
      sk.pid == old(sk.pid) && sk.ownPort == old(sk.ownPort)
    ensures st == Connected && sk.pid != old(sk.pid) && old(sk.pid) != 0 ==> sk.ownPort
  {
    hide Conserved; hide TryLimit; hide Counted; hide TakenSlots;
    PortsValid(l, l.socks);
    if sk.fd != -1 {
      return BadSocket;
    }
    sk.fd := kern.fd;
    if sk.fd < 0 {
      return NoSocket;
    }
    if !kern.buffers {
      sk.fd := -1;
      return NoBuffers;
    }
    var ok := BindSocket(l, sk, kern, seed);
    if !ok {
      sk.fd := -1;
      return NotBound;
    }
    st := NameSocket(l, sk, protocol, kern.name);
  }

  // The part from getsockname() on
  method NameSocket(l: Library, sk: NlSock, protocol: nat, name: Name) returns (st: ConnectStatus)
    requires Conserved(l, l.socks) && sk in l.socks && sk.fd != -1 && (name.Named? ==> name.pid < LIMIT)
    modifies l.ports.words, sk
    ensures Conserved(l, l.socks)
    ensures st == match name
                  case NameFails => NoName
                  case NameBadSize => NoAddr
                  case NameBadFamily => AfNotSupported
                  case Named(_) => Connected
    ensures st == Connected ==> sk.fd == old(sk.fd) && sk.proto == protocol && name == Named(sk.pid)
    ensures st != Connected ==> sk.fd == -1 && sk.proto == old(sk.proto)
    ensures st != Connected || sk.pid == old(sk.pid) ==> sk.pid == old(sk.pid) && sk.ownPort == old(sk.ownPort)
    ensures sk.pid != old(sk.pid) ==> sk.ownPort
  {
    hide Conserved;
    match name {
      case NameFails => sk.fd := -1; return NoName;
      case NameBadSize => sk.fd := -1; return NoAddr;
      case NameBadFamily => sk.fd := -1; return AfNotSupported;
      case Named(pid) =>
        if sk.pid != pid {
          SetLocalPort(l, sk, pid);
        }
        sk.proto := protocol;
        return Connected;
    }
  }

  // The part of nl_connect between socket() and getsockname()
  method BindSocket(l: Library, sk: NlSock, kern: Kernel, seed: nat -> nat) returns (ok: bool)
    requires Conserved(l, l.socks) && sk in l.socks
    requires forall i :: seed(i) < 0x1_0000
    modifies l.ports`idxState, l.ports.words, l`parked, sk`pid, sk`ownPort
    ensures Conserved(l, l.socks) && l.parked == old(l.parked)
    ensures old(sk.pid) != 0 ==> sk.pid == old(sk.pid) && sk.ownPort == old(sk.ownPort)
    ensures var limit := if old(sk.pid) != 0 then 0 else TryLimit(old(TakenSlots(l)));
            ok <==> kern.bind(Counted(kern.bind, limit)) == Bound
  {
    PortsValid(l, l.socks);
    TakenCount(l);
    hide Conserved; hide TryLimit; hide Counted; hide TakenSlots; hide AllNew;
    var tryBind, n := true, 0;
    if sk.pid == 0 {
      var bound, failed;
      ghost var tried;
      bound, failed, n, tried := BindRetries(l, sk, kern, seed);
      if failed {
        return false;
      }
      tryBind := !bound;
    }
    return !tryBind || kern.bind(n) == Bound;
  }

  // ---------- runs ----------

  datatype Op =
    | OpAlloc
    | OpFree(h: nat)
    | OpGetPort(h: nat, seed: nat)
    | OpSetPort(h: nat, port: nat)
    | OpConnect(h: nat, protocol: nat, kern: Kernel, seeds: nat -> nat)

  // What the types of the C arguments say
  ghost predicate Proper(op: Op)
  {
    match op
    case OpGetPort(_, seed) => seed < 0x1_0000
    case OpSetPort(_, port) => port < LIMIT
    case OpConnect(_, _, kern, seed) =>
      (forall i :: seed(i) < 0x1_0000) && kern.fd >= -1 && (kern.name.Named? ==> kern.name.pid < LIMIT)
    case _ => true
  }

  // What is seen of the sockets: those in use, and the fields of each.
  datatype Sock = Sock(pid: nat, ownPort: bool, fd: int, proto: nat)
  datatype Picture = Picture(socks: seq<NlSock>, state: map<NlSock, Sock>)

  ghost function Seen(l: Library, socks: seq<NlSock>): Picture
    reads l`socks, l.socks
  {
    Picture(socks, map k | k in l.socks :: Sock(k.pid, k.ownPort, k.fd, k.proto))
  }

  // The slots that are taken, when some are set aside
  function TakenIn(state: map<NlSock, Sock>, parked: set<nat>): set<nat>
  {
    parked + set k | k in state && !state[k].ownPort :: SlotOf(state[k].pid)
  }

  // What nl_connect makes of a socket
  ghost predicate ConnectLeads(protocol: nat, kern: Kernel, taken: set<nat>, x: Sock, y: Sock)
  {
    if x.fd != -1 then y == x
    else
      var limit := if x.pid != 0 then 0 else TryLimit(taken);
      if kern.fd >= 0 && kern.buffers && kern.bind(Counted(kern.bind, limit)) == Bound && kern.name.Named? then
        && y.fd == kern.fd && y.proto == protocol && y.pid == kern.name.pid
        && (x.pid != 0 ==> y.ownPort == (if y.pid == x.pid then x.ownPort else true))
      else y.fd == -1 && y.proto == x.proto && (x.pid != 0 ==> y == x)
  }

  // What a request makes of a socket that stays
  ghost predicate SockLeads(op: Op, taken: set<nat>, x: Sock, y: Sock)
  {
    match op
    case OpGetPort(_, _) =>
      if x.pid != 0 then y == x
      else if forall s :: 0 <= s < 1024 ==> s in taken then y == x.(pid := 0xFFFFFFFF, ownPort := true)
      else y == x.(pid := y.pid, ownPort := false) && y.pid != 0
    case OpSetPort(_, port) => y == x.(pid := port, ownPort := true)
    case OpConnect(_, protocol, kern, _) => ConnectLeads(protocol, kern, taken, x, y)
    case _ => y == x
  }

  // What one request makes of all of them
  ghost predicate Leads(op: Op, parked: set<nat>, s: Picture, t: Picture)
  {
    if op.OpAlloc? then
      |t.socks| > |s.socks|
      && var k := t.socks[|s.socks|];
         k !in s.state && t == Picture(s.socks + [k], s.state[k := Sock(0, true, -1, 0)])
    else if op.h >= |s.socks| then t == s
    else
      var k := s.socks[op.h];
      && k in s.state
      && if op.OpFree? then t == Picture(Others(s.socks, k), s.state - {k})
         else && k in t.state && t == Picture(s.socks, s.state[k := t.state[k]])
              && SockLeads(op, TakenIn(s.state, parked), s.state[k], t.state[k])
  }

  // A run's pictures, one before each request and one at the end
  ghost predicate Traced(ops: seq<Op>, parked: set<nat>, trace: seq<Picture>)
  {
    && |trace| == |ops| + 1
    && forall i :: 0 <= i < |ops| ==> Leads(ops[i], parked, trace[i], trace[i + 1])
  }

  lemma TracedMore(ops: seq<Op>, parked: set<nat>, i: nat, trace: seq<Picture>, p: Picture)
    requires i < |ops| && Traced(ops[..i], parked, trace) && Leads(ops[i], parked, trace[i], p)
    ensures Traced(ops[..i + 1], parked, trace + [p])
  {
    hide Leads;
  }

  // Any run over any number of sockets keeps the slots accounted for, and each
  // request does to its socket what it is for and nothing to the others.
  method Run(l: Library, ops: seq<Op>) returns (socks: seq<NlSock>, ghost trace: seq<Picture>)
    requires Conserved(l, l.socks) && l.socks == {} && forall op :: op in ops ==> Proper(op)
    modifies l, l.ports, l.ports.words
    ensures Conserved(l, l.socks) && l.parked == old(l.parked)
    ensures Traced(ops, l.parked, trace) && trace[0] == Picture([], map[]) && trace[|ops|] == Seen(l, socks)
  {
    hide Conserved; hide Leads;
    socks := [];
    assert Seen(l, socks) == Picture([], map[]);
    trace := [Seen(l, socks)];
    var i := 0;
    while i < |ops|
      invariant 0 <= i <= |ops| && fresh(l.socks)
      invariant Conserved(l, l.socks) && l.parked == old(l.parked)
      invariant forall k :: k in socks ==> k in l.socks
      invariant Traced(ops[..i], l.parked, trace) && trace[0] == Picture([], map[]) && trace[i] == Seen(l, socks)
    {
      assert Proper(ops[i]);
      socks := Step(l, ops[i], socks);
      TracedMore(ops, l.parked, i, trace, Seen(l, socks));
      trace := trace + [Seen(l, socks)];
      i := i + 1;
    }
    assert ops[..i] == ops;
  }

  method Step(l: Library, op: Op, socks: seq<NlSock>) returns (socks': seq<NlSock>)
    requires Conserved(l, l.socks) && Proper(op) && forall k :: k in socks ==> k in l.socks
    modifies l`socks, l`parked, l.ports`idxState, l.ports.words, l.socks
    ensures Conserved(l, l.socks) && l.parked == old(l.parked) && fresh(l.socks - old(l.socks))
    ensures forall k :: k in socks' ==> k in l.socks
    ensures Leads(op, l.parked, old(Seen(l, socks)), Seen(l, socks'))
  {
    hide Conserved; hide SockLeads; hide TakenIn;
    ghost var s := Seen(l, socks);
    socks' := socks;
    if op.OpAlloc? {
      var sk := AllocSocket(l);
      socks' := socks + [sk];
      assert Seen(l, socks').state == s.state[sk := Sock(0, true, -1, 0)];
    } else if op.h < |socks| {
      var sk := socks[op.h];
      assert sk in l.socks;
      if op.OpFree? {
        FreeSocket(l, sk);
        socks' := Others(socks, sk);
        assert Seen(l, socks').state == s.state - {sk};
      } else {
        assert Seen(l, []).state == s.state;
        StepSocket(l, op, sk);
        assert Seen(l, []).state == Seen(l, socks).state == s.state[sk := Seen(l, socks).state[sk]];
      }
    }
  }

  method StepSocket(l: Library, op: Op, sk: NlSock)
    requires Conserved(l, l.socks) && Proper(op) && sk in l.socks && !op.OpAlloc? && !op.OpFree?
    modifies l`parked, l.ports`idxState, l.ports.words, sk
    ensures Conserved(l, l.socks) && l.parked == old(l.parked)
    ensures SockLeads(op, TakenIn(old(Seen(l, [])).state, l.parked), old(Seen(l, [])).state[sk], Seen(l, []).state[sk])
  {
    TakenSeen(l);
    hide Conserved; hide TakenIn; hide TryLimit; hide Counted; hide TakenSlots;
    PortsValid(l, l.socks);
    match op {
      case OpGetPort(_, seed) =>
        var p := GetLocalPort(l, sk, seed);
      case OpSetPort(_, port) => SetLocalPort(l, sk, port);
      case OpConnect(_, protocol, kern, seed) =>
        var st := Connect(l, sk, protocol, kern, seed);
    }
  }

  lemma TakenSeen(l: Library)
    requires Conserved(l, l.socks)
    ensures l.ports.Valid() && TakenSlots(l) == TakenIn(Seen(l, []).state, l.parked)
  {
    var state := Seen(l, []).state;
    var all := set k | k in state && !state[k].ownPort :: SlotOf(state[k].pid);
    forall k | k in l.socks && !k.ownPort ensures SlotOf(k.pid) in all { assert k in state && !state[k].ownPort; }
    forall k | k in state && !state[k].ownPort ensures SlotOf(state[k].pid) in Owned(l.socks) { assert k in l.socks; }
    assert all == Owned(l.socks);
  }

  // A freed socket is not used again.
  function Others(socks: seq<NlSock>, sk: NlSock): (r: seq<NlSock>)
    ensures (forall k :: k in r ==> k in socks && k != sk) && (forall k :: k in socks && k != sk ==> k in r)
  {
    if socks == [] then []
    else if socks[0] == sk then Others(socks[1..], sk)
    else [socks[0]] + Others(socks[1..], sk)
  }
}
