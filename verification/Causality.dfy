/** Vector clocks across the system: nobody knows more of a peer than the peer itself, until a
    restart makes the peer forget. */
module Causality {
  import opened Base
  import opened PeerIds
  import opened Conflict
  import opened Clocks
  import opened Replication

  /** How many events `q` itself counts. */
  ghost function Own(s: System, q: PeerId): nat
  {
    if q in s.peers then At(s.peers[q].clock, q) else 0
  }

  ghost predicate Known(s: System, c: Clock)
  {
    forall q: PeerId :: At(c, q) <= Own(s, q)
  }

  ghost predicate Causal(s: System)
  {
    && (forall p | p in s.peers :: Known(s, s.peers[p].clock))
    && (forall p, k | p in s.peers && k in s.peers[p].rows :: Known(s, s.peers[p].rows[k].clock))
    && (forall m | m in s.net :: Known(s, m.clock))
  }

  ghost predicate ClocksComeFrom(p: Peer, me: PeerId, a: Call, e: Effect)
  {
    && (|| e.peer.clock == p.clock
        || e.peer.clock == Ticked(p.clock, me)
        || (a.Receive? && e.peer.clock == Merged(p.clock, a.msg.clock)))
    && (forall m | m in e.out :: m.clock == e.peer.clock)
    && (forall k | k in e.peer.rows ::
          || e.peer.rows[k].clock == map[]
          || e.peer.rows[k].clock == e.peer.clock
          || (k in p.rows && e.peer.rows[k].clock == p.rows[k].clock))
  }

  /** The same for calls that only count and store. */
  ghost predicate CountsAtMost(p: Peer, me: PeerId, e: Effect)
  {
    && (e.peer.clock == p.clock || e.peer.clock == Ticked(p.clock, me))
    && (forall m | m in e.out :: m.clock == e.peer.clock)
    && (forall k | k in e.peer.rows ::
          || e.peer.rows[k].clock == map[]
          || e.peer.rows[k].clock == e.peer.clock
          || (k in p.rows && e.peer.rows[k].clock == p.rows[k].clock))
  }

  lemma LocalClocks(p: Peer, me: PeerId, k: Key, c: Change, to: set<PeerId>, now: int)
    ensures CountsAtMost(p, me, HandleLocal(p, me, k, c, to, now))
  {
  }

  lemma ScanFileClocks(p: Peer, me: PeerId, k: Key, f: DiskFile, to: set<PeerId>, now: int)
    ensures CountsAtMost(p, me, HandleScanFile(p, me, k, f, to, now))
  {
    var e := HandleScanFile(p, me, k, f, to, now);
    if !IsTemp(k.path) && k.repo in p.tracked && !(k in p.rows && UpToDate(p.rows[k], f)) {
      assert k in e.peer.rows && e.peer.rows[k].clock == map[];
      assert forall x | x in e.peer.rows && x != k :: x in p.rows && e.peer.rows[x] == p.rows[x];
    }
  }

  lemma ScanMissingClocks(p: Peer, me: PeerId, k: Key, start: int, to: set<PeerId>, now: int)
    ensures CountsAtMost(p, me, HandleScanMissing(p, me, k, start, to, now))
  {
  }

  lemma UpdateClocks(p: Peer, me: PeerId, a: Call)
    requires a.Receive? && Enabled(p, me, a)
    ensures ClocksComeFrom(p, me, a, Handle(p, me, a))
  {
    UpdateRows(p, me, a.msg, a.missing, a.now);
    UpdateReplies(p, me, a.msg, a.missing, a.now);
  }

  /** A response never touches the clock, and stores rows without one. */
  lemma RespondRows(p: Peer, path: Path, hash: Hash, outcome: Outcome, now: int)
    ensures var e := HandleRespond(p, path, hash, outcome, now);
            && e.out == {} && e.peer.clock == p.clock
            && forall k | k in e.peer.rows ::
                 e.peer.rows[k].clock == map[] || (k in p.rows && e.peer.rows[k] == p.rows[k])
  {
  }

  lemma HandlerClocks(p: Peer, me: PeerId, a: Call)
    requires Enabled(p, me, a) && !a.Restart?
    ensures ClocksComeFrom(p, me, a, Handle(p, me, a))
  {
    match a {
      case Local(k, c, to, now) => LocalClocks(p, me, k, c, to, now);
      case ScanFile(k, f, to, now) => ScanFileClocks(p, me, k, f, to, now);
      case ScanMissing(k, start, to, now) => ScanMissingClocks(p, me, k, start, to, now);
      case Receive(_, _, _) => UpdateClocks(p, me, a);
      case Respond(path, hash, outcome, now) => RespondRows(p, path, hash, outcome, now);
      case Take(t) => TakeTouchesNoRow(p, t);
      case Execute(t, sending) => ExecuteTouchesNoRow(p, t, sending);
      case _ =>
    }
  }

  lemma KnownStaysKnown(s: System, s': System, c: Clock)
    requires Known(s, c) && forall q :: Own(s, q) <= Own(s', q)
    ensures Known(s', c)
  {
    forall q ensures At(c, q) <= Own(s', q) {
      assert At(c, q) <= Own(s, q);
    }
  }

  lemma NewClockIsKnown(s: System, who: PeerId, a: Call, clock: Clock, s': System)
    requires Causal(s) && who in s.peers && (a.Receive? ==> a.msg in s.net)
    requires || clock == s.peers[who].clock
             || clock == Ticked(s.peers[who].clock, who)
             || (a.Receive? && clock == Merged(s.peers[who].clock, a.msg.clock))
    requires s'.peers.Keys == s.peers.Keys && s'.peers[who].clock == clock
    requires forall q | q in s.peers && q != who :: s'.peers[q] == s.peers[q]
    ensures Known(s', clock) && forall q :: Own(s, q) <= Own(s', q)
  {
    var mine := s.peers[who].clock;
    assert Known(s, mine);
    forall q ensures At(clock, q) <= Own(s', q) && Own(s, q) <= Own(s', q) {
      assert At(mine, q) <= Own(s, q);
      if a.Receive? {
        assert Known(s, a.msg.clock);
        assert At(a.msg.clock, q) <= Own(s, q);
        MergedAt(mine, a.msg.clock, q);
      }
    }
  }

  lemma CallKeepsCausality(s: System, who: PeerId, a: Call)
    requires Causal(s) && CanStep(s, Act(who, a)) && !a.Restart?
    ensures Causal(Apply(s, Act(who, a)))
  {
    var s' := Apply(s, Act(who, a));
    var e := Handle(s.peers[who], who, a);
    HandlerClocks(s.peers[who], who, a);
    NewClockIsKnown(s, who, a, e.peer.clock, s');
    assert Known(s', map[]);
    forall p | p in s'.peers ensures Known(s', s'.peers[p].clock) {
      if p != who { KnownStaysKnown(s, s', s.peers[p].clock); }
    }
    forall p, k | p in s'.peers && k in s'.peers[p].rows ensures Known(s', s'.peers[p].rows[k].clock) {
      if k in s.peers[p].rows { KnownStaysKnown(s, s', s.peers[p].rows[k].clock); }
    }
    forall m | m in s'.net ensures Known(s', m.clock) {
      if m in s.net { KnownStaysKnown(s, s', m.clock); } else { assert m in e.out; }
    }
  }

  lemma StepKeepsCausality(s: System, step: Step)
    requires Causal(s) && CanStep(s, step) && !(step.Act? && step.call.Restart?)
    ensures Causal(Apply(s, step))
  {
    if step.Act? {
      CallKeepsCausality(s, step.who, step.call);
    } else {
      var s' := Apply(s, step);
      assert s'.peers == s.peers && forall m | m in s'.net :: m in s.net;
      assert forall c | Known(s, c) :: Known(s', c);
    }
  }

  /** In every restart-free run, a peer's entry for `q`, and that of every message in flight,
      is at most `q`'s own. */
  lemma {:induction false} RunsAreCausal(init: System, steps: seq<Step>, s: System)
    requires Causal(init) && Run(init, steps, s)
    requires forall st | st in steps && st.Act? :: !st.call.Restart?
    ensures Causal(s)
  {
    if steps != [] {
      var last := |steps| - 1;
      var m :| Run(init, steps[..last], m) && CanStep(m, steps[last]) && s == Apply(m, steps[last]);
      assert forall st | st in steps[..last] :: st in steps;
      RunsAreCausal(init, steps[..last], m);
      assert steps[last] in steps;
      StepKeepsCausality(m, steps[last]);
    }
  }

  lemma InitialIsCausal(s: System)
    requires Initial(s)
    ensures Causal(s)
  {
    assert forall p | p in s.peers :: s.peers[p] == NewPeer;
  }

  /** From new peers on. */
  lemma EveryRunIsCausal(init: System, steps: seq<Step>, s: System)
    requires Initial(init) && Run(init, steps, s)
    requires forall st | st in steps && st.Act? :: !st.call.Restart?
    ensures Causal(s)
  {
    InitialIsCausal(init);
    RunsAreCausal(init, steps, s);
  }

  // ----- Restarts -----

  lemma {:induction false} LoadedEntry(clocks: seq<Clock>, q: PeerId)
    ensures forall c | c in clocks :: At(c, q) <= At(MergeAll(map[], clocks), q)
    ensures At(MergeAll(map[], clocks), q) == 0 || exists c | c in clocks :: At(c, q) == At(MergeAll(map[], clocks), q)
  {
    if clocks != [] {
      var init, last := clocks[..|clocks| - 1], clocks[|clocks| - 1];
      assert clocks == init + [last];
      LoadedEntry(init, q);
      MergedAt(MergeAll(map[], init), last, q);
      assert last in clocks && forall c | c in init :: c in clocks;
    }
  }

  /** A restart keeps a peer's own count exactly when some stored row still carries it. */
  lemma RestartKeepsOwnCountIff(p: Peer, me: PeerId, order: seq<Key>)
    requires forall k :: k in order <==> k in p.rows
    requires forall k | k in p.rows :: At(p.rows[k].clock, me) <= At(p.clock, me)
    ensures At(HandleRestart(p, order).peer.clock, me) == At(p.clock, me)
            <==> (At(p.clock, me) == 0 || exists k | k in p.rows :: At(p.rows[k].clock, me) == At(p.clock, me))
  {
    var clocks := StoredClocks(p.rows, order);
    LoadedEntry(clocks, me);
    forall c | c in clocks ensures exists k :: k in p.rows && p.rows[k].clock == c {
      var i :| 0 <= i < |clocks| && clocks[i] == c;
      assert order[i] in order;
    }
    forall k | k in p.rows ensures p.rows[k].clock in clocks {
      var i :| 0 <= i < |order| && order[i] == k;
      assert clocks[i] == p.rows[k].clock;
    }
  }

  lemma LoadedBelow(p: Peer, order: seq<Key>, q: PeerId, bound: nat)
    requires forall k :: k in order <==> k in p.rows
    requires forall k | k in p.rows :: At(p.rows[k].clock, q) <= bound
    ensures At(HandleRestart(p, order).peer.clock, q) <= bound
  {
    var clocks := StoredClocks(p.rows, order);
    LoadedEntry(clocks, q);
    forall c | c in clocks ensures At(c, q) <= bound {
      var i :| 0 <= i < |clocks| && clocks[i] == c;
      assert order[i] in order;
    }
  }

  /** Nobody and nothing but `p` itself knows more than `back` of `p`'s events. */
  ghost predicate KnownUpTo(s: System, p: PeerId, back: nat)
  {
    && (forall q | q in s.peers && q != p :: At(s.peers[q].clock, p) <= back)
    && (forall q, k | q in s.peers && k in s.peers[q].rows :: At(s.peers[q].rows[k].clock, p) <= back)
    && (forall m | m in s.net :: At(m.clock, p) <= back)
  }

  lemma StillKnown(s: System, s': System, p: PeerId, c: Clock)
    requires Known(s, c) && At(c, p) <= Own(s', p) && forall q | q != p :: Own(s', q) == Own(s, q)
    ensures Known(s', c)
  {
    forall q ensures At(c, q) <= Own(s', q) {
      assert At(c, q) <= Own(s, q);
    }
  }

  lemma RestoredIsKnown(s: System, p: PeerId, order: seq<Key>)
    requires Causal(s) && CanStep(s, Act(p, Restart(order)))
    ensures var s' := Apply(s, Act(p, Restart(order)));
            Known(s', s'.peers[p].clock) && forall q | q != p :: Own(s', q) == Own(s, q)
  {
    var s' := Apply(s, Act(p, Restart(order)));
    forall q | q != p ensures At(s'.peers[p].clock, q) <= Own(s', q) {
      forall k | k in s.peers[p].rows ensures At(s.peers[p].rows[k].clock, q) <= Own(s, q) {
        assert Known(s, s.peers[p].rows[k].clock);
      }
      LoadedBelow(s.peers[p], order, q, Own(s, q));
    }
  }

  lemma KnownUpToKeepsCausality(s: System, p: PeerId, order: seq<Key>)
    requires Causal(s) && CanStep(s, Act(p, Restart(order)))
    requires KnownUpTo(s, p, At(HandleRestart(s.peers[p], order).peer.clock, p))
    ensures Causal(Apply(s, Act(p, Restart(order))))
  {
    var s' := Apply(s, Act(p, Restart(order)));
    RestoredIsKnown(s, p, order);
    forall q | q in s'.peers ensures Known(s', s'.peers[q].clock) {
      if q != p { StillKnown(s, s', p, s.peers[q].clock); }
    }
    forall q, k | q in s'.peers && k in s'.peers[q].rows ensures Known(s', s'.peers[q].rows[k].clock) {
      StillKnown(s, s', p, s.peers[q].rows[k].clock);
    }
    forall m | m in s'.net ensures Known(s', m.clock) { StillKnown(s, s', p, m.clock); }
  }

  /** A restart of `p` keeps the system causal exactly when no other peer, no row and no message
      knows more of `p` than the entry that `p` gets back from its rows. */
  lemma RestartIsCausalIff(s: System, p: PeerId, order: seq<Key>)
    requires Causal(s) && CanStep(s, Act(p, Restart(order)))
    ensures Causal(Apply(s, Act(p, Restart(order))))
            <==> KnownUpTo(s, p, At(HandleRestart(s.peers[p], order).peer.clock, p))
  {
    var s' := Apply(s, Act(p, Restart(order)));
    if KnownUpTo(s, p, Own(s', p)) {
      KnownUpToKeepsCausality(s, p, order);
    }
    if Causal(s') {
      forall q | q in s.peers && q != p ensures At(s.peers[q].clock, p) <= Own(s', p) {
        assert Known(s', s'.peers[q].clock);
      }
      forall q, k | q in s.peers && k in s.peers[q].rows ensures At(s.peers[q].rows[k].clock, p) <= Own(s', p) {
        assert Known(s', s'.peers[q].rows[k].clock);
      }
      forall m | m in s.net ensures At(m.clock, p) <= Own(s', p) {
        assert m in s'.net && Known(s', m.clock);
      }
    }
  }

  /** Beside a peer that is up to date with `p`, that is when `p` had counted nothing or some
      stored row still carries its latest count. */
  lemma RestartBesideAnUpToDatePeerIff(s: System, p: PeerId, q: PeerId, order: seq<Key>)
    requires Causal(s) && p in s.peers && q in s.peers && p != q
    requires CanStep(s, Act(p, Restart(order))) && At(s.peers[q].clock, p) == Own(s, p)
    ensures Causal(Apply(s, Act(p, Restart(order))))
            <==> (Own(s, p) == 0 || exists k | k in s.peers[p].rows :: At(s.peers[p].rows[k].clock, p) == Own(s, p))
  {
    var peer, back := s.peers[p], At(HandleRestart(s.peers[p], order).peer.clock, p);
    forall k | k in peer.rows ensures At(peer.rows[k].clock, p) <= At(peer.clock, p) {
      assert Known(s, peer.rows[k].clock);
      assert At(peer.rows[k].clock, p) <= Own(s, p);
    }
    RestartKeepsOwnCountIff(peer, p, order);
    LoadedBelow(peer, order, p, At(peer.clock, p));
    RestartIsCausalIff(s, p, order);
    if back == Own(s, p) {
      OwnCountCoversAll(s, p);
    }
  }

  lemma OwnCountCoversAll(s: System, p: PeerId)
    requires Causal(s)
    ensures KnownUpTo(s, p, Own(s, p))
  {
    assert forall c | Known(s, c) :: At(c, p) <= Own(s, p);
  }
}
