/** The connection registry of the connection manager: which connection is stored for a peer,
    with which write mutex, under every interleaving of its locked operations. */
module Registry {
  import opened Base
  import opened PeerIds

  /** Connections and mutexes are known by identity alone. */
  type Conn = nat
  type Mutex = nat

  /** `open` holds the registered connections not yet closed; `mutexOf` records the mutex that
      was created when a connection was registered. */
  datatype State = State(
    connections: map<PeerId, Conn>, writeMus: map<PeerId, Mutex>, lastSeen: map<PeerId, int>,
    open: set<Conn>, running: bool, mutexOf: map<Conn, Mutex>)

  /** A new manager does not run until its server is started. */
  const Fresh := State(map[], map[], map[], {}, false, map[])

  datatype Event =
    | Start
    | Register(peer: PeerId, conn: Conn, mutex: Mutex, now: int)
    | Touch(peer: PeerId, now: int)
    | Close(peer: PeerId)
    | ReaderExit(peer: PeerId, conn: Conn)
    | Stop

  function Forget(s: State, p: PeerId): State
    requires p in s.connections
  {
    s.(connections := s.connections - {p}, writeMus := s.writeMus - {p}, lastSeen := s.lastSeen - {p},
       open := s.open - {s.connections[p]})
  }

  /** A connection and its mutex are new when they are registered. */
  predicate Possible(s: State, e: Event)
  {
    e.Register? ==> e.conn !in s.mutexOf && e.mutex !in s.mutexOf.Values
  }

  function Apply(s: State, e: Event): State
  {
    match e
    case Start => s.(running := true)
    case Register(p, c, mu, now) =>
      var open := if p in s.connections then s.open - {s.connections[p]} else s.open;
      s.(connections := s.connections[p := c], writeMus := s.writeMus[p := mu], lastSeen := s.lastSeen[p := now],
         open := open + {c}, mutexOf := s.mutexOf[c := mu])
    case Touch(p, now) => s.(lastSeen := s.lastSeen[p := now])
    case Close(p) => if p in s.connections then Forget(s, p) else s
    case ReaderExit(p, c) => if p in s.connections && s.connections[p] == c then Forget(s, p) else s
    case Stop =>
      if !s.running then s
      else s.(running := false, open := s.open - s.connections.Values, connections := map[])
  }

  ghost predicate Run(s: State, events: seq<Event>, s': State)
  {
    if events == [] then s' == s
    else
      var last := |events| - 1;
      exists m :: Run(s, events[..last], m) && Possible(m, events[last]) && s' == Apply(m, events[last])
  }

  ghost predicate OpenIsStored(s: State)
  {
    && (forall c :: c in s.open <==> exists p | p in s.connections :: s.connections[p] == c)
    && (forall p, q | p in s.connections && q in s.connections && s.connections[p] == s.connections[q] :: p == q)
  }

  ghost predicate Inv(s: State)
  {
    && OpenIsStored(s)
    && (forall p | p in s.connections ::
          && p in s.lastSeen && p in s.writeMus
          && s.connections[p] in s.mutexOf && s.writeMus[p] == s.mutexOf[s.connections[p]])
    && (forall c, d | c in s.mutexOf && d in s.mutexOf && s.mutexOf[c] == s.mutexOf[d] :: c == d)
  }

  lemma ClosingKeepsOpenStored(s: State, p: PeerId)
    requires OpenIsStored(s) && p in s.connections
    ensures OpenIsStored(s.(open := s.open - {s.connections[p]}, connections := s.connections - {p}))
  {
    var s' := s.(open := s.open - {s.connections[p]}, connections := s.connections - {p});
    forall c ensures c in s'.open <==> exists q | q in s'.connections :: s'.connections[q] == c {
      if c in s'.open {
        var q :| q in s.connections && s.connections[q] == c;
        assert q in s'.connections;
      }
    }
  }

  lemma ForgetKeepsInv(s: State, p: PeerId)
    requires Inv(s) && p in s.connections
    ensures Inv(Forget(s, p))
  {
    ClosingKeepsOpenStored(s, p);
  }

  lemma RegisterKeepsInv(s: State, p: PeerId, c: Conn, mu: Mutex, now: int)
    requires Inv(s) && Possible(s, Register(p, c, mu, now))
    ensures Inv(Apply(s, Register(p, c, mu, now)))
  {
    var s' := Apply(s, Register(p, c, mu, now));
    forall x ensures x in s'.open <==> exists q | q in s'.connections :: s'.connections[q] == x {
      if x == c {
        assert s'.connections[p] == c;
      } else if x in s'.open {
        var q :| q in s.connections && s.connections[q] == x;
        assert q in s'.connections && s'.connections[q] == x;
      }
    }
    forall a, b | a in s'.mutexOf && b in s'.mutexOf && s'.mutexOf[a] == s'.mutexOf[b] ensures a == b {
      if a in s.mutexOf { assert s.mutexOf[a] in s.mutexOf.Values; }
      if b in s.mutexOf { assert s.mutexOf[b] in s.mutexOf.Values; }
    }
  }

  lemma StepKeepsInv(s: State, e: Event)
    requires Inv(s) && Possible(s, e)
    ensures Inv(Apply(s, e))
  {
    match e {
      case Start =>
      case Register(p, c, mu, now) => RegisterKeepsInv(s, p, c, mu, now);
      case Touch(p, now) =>
      case Close(p) => if p in s.connections { ForgetKeepsInv(s, p); }
      case ReaderExit(p, c) => if p in s.connections { ForgetKeepsInv(s, p); }
      case Stop =>
    }
  }

  ghost predicate MutexesKept(s: State, s': State)
  {
    forall c | c in s.mutexOf :: c in s'.mutexOf && s'.mutexOf[c] == s.mutexOf[c]
  }

  /** In every interleaving: the connections still open are exactly those stored, each stored
      one has its own mutex and a last-seen time, and a connection never changes mutex. */
  lemma {:induction false} EveryRunIsConsistent(s: State, events: seq<Event>, s': State)
    requires Inv(s) && Run(s, events, s')
    ensures Inv(s') && MutexesKept(s, s')
  {
    if events != [] {
      var last := |events| - 1;
      var m :| Run(s, events[..last], m) && Possible(m, events[last]) && s' == Apply(m, events[last]);
      EveryRunIsConsistent(s, events[..last], m);
      StepKeepsInv(m, events[last]);
      StepKeepsMutexes(m, events[last]);
      MutexesKeptTransitively(s, m, s');
    }
  }

  lemma StepKeepsMutexes(s: State, e: Event)
    requires Possible(s, e)
    ensures MutexesKept(s, Apply(s, e))
  {
  }

  lemma MutexesKeptTransitively(a: State, b: State, c: State)
    requires MutexesKept(a, b) && MutexesKept(b, c)
    ensures MutexesKept(a, c)
  {
  }

  /** So two writers that obtained the same connection, at whatever times, obtained the same
      mutex, and writers of different connections different ones. */
  lemma WritersOfAConnectionShareItsMutex(s: State, events: seq<Event>, s': State, p: PeerId, q: PeerId)
    requires Inv(s) && Run(s, events, s') && p in s.connections && q in s'.connections
    ensures p in s.writeMus && q in s'.writeMus
    ensures s.writeMus[p] == s'.writeMus[q] <==> s.connections[p] == s'.connections[q]
  {
    EveryRunIsConsistent(s, events, s');
  }

  lemma FreshIsConsistent()
    ensures Inv(Fresh)
  {
  }

  /** From a new manager on. */
  lemma EveryManagerIsConsistent(events: seq<Event>, s: State)
    requires Run(Fresh, events, s)
    ensures Inv(s)
  {
    FreshIsConsistent();
    EveryRunIsConsistent(Fresh, events, s);
  }

  /** The events that may end connection `c` of peer `p`. */
  predicate Ends(e: Event, p: PeerId, c: Conn)
  {
    e.Stop? || (e.Close? && e.peer == p) || (e.Register? && e.peer == p) || e == ReaderExit(p, c)
  }

  /** Nothing else does: in particular no exit of a reader of an older connection. */
  lemma StoredUntilItsOwnEnd(s: State, events: seq<Event>, s': State, p: PeerId, c: Conn)
    requires Inv(s) && Run(s, events, s') && p in s.connections && s.connections[p] == c
    requires forall e | e in events :: !Ends(e, p, c)
    ensures p in s'.connections && s'.connections[p] == c && c in s'.open
  {
    EveryRunIsConsistent(s, events, s');
    StoredAlong(s, events, s', p, c);
  }

  lemma StepKeepsStored(s: State, e: Event, p: PeerId, c: Conn)
    requires p in s.connections && s.connections[p] == c && (!Ends(e, p, c) || (e.Stop? && !s.running))
    ensures p in Apply(s, e).connections && Apply(s, e).connections[p] == c
    ensures !e.Start? && !s.running ==> !Apply(s, e).running
  {
  }

  lemma {:induction false} StoredAlong(s: State, events: seq<Event>, s': State, p: PeerId, c: Conn)
    requires Run(s, events, s') && p in s.connections && s.connections[p] == c
    requires forall e | e in events :: !Ends(e, p, c)
    ensures p in s'.connections && s'.connections[p] == c
  {
    if events != [] {
      var last := |events| - 1;
      var m :| Run(s, events[..last], m) && Possible(m, events[last]) && s' == Apply(m, events[last]);
      assert events[last] in events && forall e | e in events[..last] :: e in events;
      StoredAlong(s, events[..last], m, p, c);
      StepKeepsStored(m, events[last], p, c);
    }
  }

  lemma OnlyRegisteringReplaces(s: State, e: Event, p: PeerId)
    requires !(e.Register? && e.peer == p)
    ensures p in Apply(s, e).connections ==> p in s.connections && Apply(s, e).connections[p] == s.connections[p]
  {
  }

  lemma {:induction false} ReplacedOnlyByRegistering(s: State, events: seq<Event>, s': State, p: PeerId, c: Conn)
    requires Run(s, events, s') && p in s.connections && s.connections[p] == c
    requires forall e | e in events :: !(e.Register? && e.peer == p)
    ensures p in s'.connections ==> s'.connections[p] == c
  {
    if events != [] {
      var last := |events| - 1;
      var m :| Run(s, events[..last], m) && Possible(m, events[last]) && s' == Apply(m, events[last]);
      assert events[last] in events && forall e | e in events[..last] :: e in events;
      ReplacedOnlyByRegistering(s, events[..last], m, p, c);
      OnlyRegisteringReplaces(m, events[last], p);
    }
  }

  /** A sender fetches the connection of `p`, its write fails some time later, and it closes by
      peer, not by connection.  Of the connections open by then this closes no other than the one
      it used exactly when `p` has no other stored; so it does when `p` was not registered again. */
  lemma FailedSendClosesItsConnectionIff(s: State, events: seq<Event>, s': State, p: PeerId)
    requires Inv(s) && p in s.connections && Run(s, events, s')
    ensures var used := s.connections[p];
            && (s'.open - {used} == Apply(s', Close(p)).open <==> (p in s'.connections ==> s'.connections[p] == used))
            && used !in Apply(s', Close(p)).open
            && ((forall e | e in events :: !(e.Register? && e.peer == p)) ==>
                  s'.open - {used} == Apply(s', Close(p)).open)
  {
    var used := s.connections[p];
    EveryRunIsConsistent(s, events, s');
    if forall e | e in events :: !(e.Register? && e.peer == p) {
      ReplacedOnlyByRegistering(s, events, s', p, used);
    }
    StaysWithItsPeer(s, events, s', p);
  }

  /** An old connection is not stored for a peer that did not have it. */
  lemma StoredBefore(s: State, e: Event, q: PeerId, c: Conn)
    requires Possible(s, e) && c in s.mutexOf && q in Apply(s, e).connections && Apply(s, e).connections[q] == c
    ensures q in s.connections && s.connections[q] == c
  {
    if !(e.Register? && e.peer == q) {
      OnlyRegisteringReplaces(s, e, q);
    }
  }

  /** A connection never moves to another peer. */
  lemma {:induction false} StaysWithItsPeer(s: State, events: seq<Event>, s': State, p: PeerId)
    requires Inv(s) && p in s.connections && Run(s, events, s')
    ensures forall q | q in s'.connections && s'.connections[q] == s.connections[p] :: q == p
  {
    if events != [] {
      var last := |events| - 1;
      var m :| Run(s, events[..last], m) && Possible(m, events[last]) && s' == Apply(m, events[last]);
      StaysWithItsPeer(s, events[..last], m, p);
      EveryRunIsConsistent(s, events[..last], m);
      assert s.connections[p] in s.mutexOf;
      forall q | q in s'.connections && s'.connections[q] == s.connections[p] ensures q == p {
        StoredBefore(m, events[last], q, s.connections[p]);
      }
    }
  }

  /** And when it was: the peer reconnects between the fetch and the failed write, and the sender
      closes the new connection. */
  lemma ReconnectedPeerIsCutOff(p: PeerId, c: Conn, c': Conn, mu: Mutex, mu': Mutex, now: int)
    requires c != c' && mu != mu'
    ensures var s := Apply(Fresh, Register(p, c, mu, now));
            var s' := Apply(s, Register(p, c', mu', now));
            && Run(Fresh, [Register(p, c, mu, now)], s) && Run(s, [Register(p, c', mu', now)], s')
            && s.connections[p] == c && s'.open == {c'} && Apply(s', Close(p)).open == {}
  {
    var s := Apply(Fresh, Register(p, c, mu, now));
    RunOne(Fresh, Register(p, c, mu, now));
    assert s.mutexOf == map[c := mu] && s.mutexOf.Values == {mu};
    RunOne(s, Register(p, c', mu', now));
    assert s.open == {c};
  }

  lemma RunOne(s: State, e: Event)
    requires Possible(s, e)
    ensures Run(s, [e], Apply(s, e))
  {
    assert [e][..0] == [];
    assert Run(s, [e][..0], s);
  }

  lemma StopClosesAll(s: State)
    requires Inv(s) && s.running
    ensures Apply(s, Stop).open == {}
  {
    forall x | x in s.open ensures x in s.connections.Values {
      var q :| q in s.connections && s.connections[q] == x;
    }
  }

  /** Stop leaves no registered connection open exactly when it finds the manager running or
      nothing stored. */
  lemma StopClosesAllIff(s: State)
    requires Inv(s)
    ensures Apply(s, Stop).open == {} <==> (s.running || s.connections == map[])
  {
    if s.running {
      StopClosesAll(s);
    } else if s.connections != map[] {
      var q :| q in s.connections;
      assert s.connections[q] in s.open;
    }
  }

  /** A connection registered before the server was started or after it was stopped survives
      whatever follows, every later stop included, until it is closed, replaced or its own reader
      exits, or the server is started. */
  lemma LateConnectionSurvivesEveryStop(s: State, p: PeerId, c: Conn, mu: Mutex, now: int,
                                        events: seq<Event>, s': State)
    requires Inv(s) && !s.running && Possible(s, Register(p, c, mu, now))
    requires Run(Apply(s, Register(p, c, mu, now)), events, s')
    requires forall e | e in events :: !e.Start? && (e.Stop? || !Ends(e, p, c))
    ensures p in s'.connections && s'.connections[p] == c && c in s'.open
  {
    var m := Apply(s, Register(p, c, mu, now));
    RegisterKeepsInv(s, p, c, mu, now);
    EveryRunIsConsistent(m, events, s');
    LateAlong(m, events, s', p, c);
  }

  lemma {:induction false} LateAlong(s: State, events: seq<Event>, s': State, p: PeerId, c: Conn)
    requires Run(s, events, s') && p in s.connections && s.connections[p] == c && !s.running
    requires forall e | e in events :: !e.Start? && (e.Stop? || !Ends(e, p, c))
    ensures p in s'.connections && s'.connections[p] == c && !s'.running
  {
    if events != [] {
      var last := |events| - 1;
      var m :| Run(s, events[..last], m) && Possible(m, events[last]) && s' == Apply(m, events[last]);
      assert events[last] in events && forall e | e in events[..last] :: e in events;
      LateAlong(s, events[..last], m, p, c);
      StepKeepsStored(m, events[last], p, c);
    }
  }

  class ConnectionManager {
    var connections: map<PeerId, Conn>
    var writeMus: map<PeerId, Mutex>
    var lastSeen: map<PeerId, int>
    var open: set<Conn>
    var running: bool
    ghost var mutexOf: map<Conn, Mutex>

    ghost function View(): State
      reads this
    {
      State(connections, writeMus, lastSeen, open, running, mutexOf)
    }

    constructor ()
      ensures View() == Fresh
    {
      connections, writeMus, lastSeen, open, running, mutexOf := map[], map[], map[], {}, false, map[];
    }

    method StartServer()
      modifies this`running
      ensures View() == Apply(old(View()), Start)
    {
      running := true;
    }

    method RegisterConnection(peer: PeerId, conn: Conn, mutex: Mutex, now: int)
      requires Inv(View()) && Possible(View(), Register(peer, conn, mutex, now))
      modifies this
      ensures Inv(View()) && View() == Apply(old(View()), Register(peer, conn, mutex, now))
      ensures connections == old(connections)[peer := conn] && writeMus == old(writeMus)[peer := mutex]
      ensures lastSeen == old(lastSeen)[peer := now] && running == old(running) && conn in open
      ensures peer in old(connections) ==> old(connections)[peer] !in open
    {
      RegisterKeepsInv(View(), peer, conn, mutex, now);
      if peer in connections {
        open := open - {connections[peer]};
      }
      open := open + {conn};
      connections := connections[peer := conn];
      writeMus := writeMus[peer := mutex];
      lastSeen := lastSeen[peer := now];
      mutexOf := mutexOf[conn := mutex];
    }

    method CloseConnection(peer: PeerId) returns (closed: bool)
      requires Inv(View())
      modifies this
      ensures Inv(View()) && View() == Apply(old(View()), Close(peer)) && (closed <==> peer in old(connections))
      ensures closed ==>
                && connections == old(connections) - {peer} && writeMus == old(writeMus) - {peer}
                && lastSeen == old(lastSeen) - {peer} && open == old(open) - {old(connections)[peer]}
      ensures !closed ==> View() == old(View())
    {
      closed := peer in connections;
      if closed {
        ForgetKeepsInv(View(), peer);
        open := open - {connections[peer]};
        connections := connections - {peer};
        writeMus := writeMus - {peer};
        lastSeen := lastSeen - {peer};
      }
    }

    method CloseConnectionIfMatch(peer: PeerId, conn: Conn)
      requires Inv(View())
      modifies this
      ensures Inv(View()) && View() == Apply(old(View()), ReaderExit(peer, conn))
      ensures peer in old(connections) && old(connections)[peer] != conn ==> View() == old(View())
      ensures peer in old(connections) && old(connections)[peer] == conn ==> peer !in connections && conn !in open
    {
      if peer in connections && connections[peer] == conn {
        var _ := CloseConnection(peer);
      }
    }

    /** The connection to write to, with the mutex that serialises its writers. */
    method ConnectionForSend(peer: PeerId) returns (r: Option<(Conn, Mutex)>)
      requires Inv(View())
      ensures r.Some? <==> peer in connections
      ensures r.Some? ==> r.value.0 == connections[peer] && r.value.0 in open
                          && r.value.0 in mutexOf && r.value.1 == mutexOf[r.value.0]
    {
      if peer in connections && peer in writeMus {
        r := Some((connections[peer], writeMus[peer]));
      } else {
        r := None;
      }
    }

    method StopAll()
      requires Inv(View())
      modifies this
      ensures Inv(View()) && View() == Apply(old(View()), Stop) && !running
      ensures connections == (if old(running) then map[] else old(connections))
      ensures writeMus == old(writeMus) && lastSeen == old(lastSeen)
      ensures open == if old(running) then {} else old(open)
    {
      StepKeepsInv(View(), Stop);
      if !running {
        return;
      }
      running := false;
      while connections != map[]
        invariant OpenIsStored(View())
        invariant writeMus == old(writeMus) && lastSeen == old(lastSeen) && mutexOf == old(mutexOf) && !running
        decreases connections.Keys
      {
        var id :| id in connections;
        ClosingKeepsOpenStored(View(), id);
        open := open - {connections[id]};
        connections := connections - {id};
      }
      assert open == {};
      StopClosesAll(old(View()));
    }
  }
}
