/** Rows that tie in version and time: peers then compare identifiers, each with its own, and a
    network of peers need not agree.  When it can, exactly. */
module Ties {
  import opened Base
  import opened PeerIds
  import opened Conflict
  import opened Clocks
  import opened TaskQueue
  import opened Replication
  import opened Convergence
  import opened Downloads
  import opened Gossip

  predicate Linked(edges: Edges, x: PeerId, y: PeerId) { (x, y) in edges || (y, x) in edges }

  /** No neighbour has a greater identifier. */
  ghost predicate LocalMaximum(edges: Edges, q: PeerId)
  {
    forall r | Linked(edges, r, q) :: Less(r, q)
  }

  predicate AlongLinks(edges: Edges, step: Step)
  {
    && Gossiping(step)
    && (step.Act? && (step.call.SyncAll? || step.call.KeepMine?) ==> Linked(edges, step.who, step.call.peer))
  }

  /** A download ends without dating a row above `top` and without touching a local maximum. */
  ghost predicate Tame(s: System, edges: Edges, step: Step, k: Key, top: Stamp)
  {
    step.Act? && step.call.Respond? && step.who in s.peers ==>
      var p, a := s.peers[step.who], step.call;
      && (Completes(p, a, k) ==>
            !LocalMaximum(edges, step.who) && !Below(top, Stamp(VersionKept(p, k), a.now / 1000)))
      && (GivesUp(p, a, k) ==> !LocalMaximum(edges, step.who))
  }

  ghost predicate TieStep(s: System, edges: Edges, step: Step, k: Key, top: Stamp, s': System)
  {
    CanStep(s, step) && AlongLinks(edges, step) && Tame(s, edges, step, k, top) && s' == Apply(s, step)
  }

  /** A run of gossip along links, downloads included. */
  ghost predicate TieRun(s: System, edges: Edges, steps: seq<Step>, k: Key, top: Stamp, s': System)
  {
    if steps == [] then s' == s
    else
      var last := |steps| - 1;
      exists m :: TieRun(s, edges, steps[..last], k, top, m) && TieStep(m, edges, steps[last], k, top, s')
  }

  /** Nothing about the file in the system is above `top`, and messages follow links. */
  ghost predicate Capped(s: System, edges: Edges, k: Key, top: Stamp)
  {
    && (forall q | q in s.peers && k in s.peers[q].rows :: !Below(top, StampAt(s, q, k)))
    && (forall m | m in s.net && m.key == k :: !Below(top, StampOf(m)) && Linked(edges, m.src, m.dst))
  }

  lemma LocalMaximumRefuses(s: System, edges: Edges, step: Step, q: PeerId, k: Key, top: Stamp)
    requires Capped(s, edges, k, top) && CanStep(s, step) && q in s.peers
    requires LocalMaximum(edges, q) && k in s.peers[q].rows && StampAt(s, q, k) == top
    ensures !(Accepting(s, step, k) && step.who == q)
  {
    if Accepting(s, step, k) && step.who == q {
      var m := step.call.msg;
      ResolveIsLastWriteWins(LocalVersion(s.peers[q], q, k), RemoteVersion(m));
      assert Less(m.src, q);
      Trichotomy(m.src, q);
    }
  }

  lemma CappedRespond(s: System, edges: Edges, step: Step, k: Key, top: Stamp)
    requires Capped(s, edges, k, top) && CanStep(s, step) && Tame(s, edges, step, k, top)
    requires step.Act? && step.call.Respond?
    ensures Capped(Apply(s, step), edges, k, top)
  {
    RespondSeenFrom(s.peers[step.who], step.call, k);
    assert forall m | m in Apply(s, step).net :: m in s.net;
  }

  lemma CappedStep(s: System, edges: Edges, step: Step, k: Key, top: Stamp)
    requires Capped(s, edges, k, top) && CanStep(s, step) && AlongLinks(edges, step) && Tame(s, edges, step, k, top)
    ensures Capped(Apply(s, step), edges, k, top)
  {
    if Offering(step) {
      CappedOffering(s, edges, step, k, top);
    } else {
      CappedRespond(s, edges, step, k, top);
    }
  }

  lemma CappedOffering(s: System, edges: Edges, step: Step, k: Key, top: Stamp)
    requires Capped(s, edges, k, top) && CanStep(s, step) && AlongLinks(edges, step) && Offering(step)
    ensures Capped(Apply(s, step), edges, k, top)
  {
    var s' := Apply(s, step);
    OfferingSeenFrom(s, step, k);
    forall q | q in s'.peers && k in s'.peers[q].rows ensures !Below(top, StampAt(s', q, k)) {
      if Accepting(s, step, k) && step.who == q {
        UpdateRows(s.peers[q], q, step.call.msg, step.call.missing, step.call.now);
      } else {
        assert RowAt(s', q, k) == RowAt(s, q, k);
      }
    }
    forall m | m in s'.net && m.key == k ensures !Below(top, StampOf(m)) && Linked(edges, m.src, m.dst) {
      if m !in s.net {
        assert StampOf(m) == StampAt(s, step.who, k);
        NewMessageFollowsLink(s, edges, step, m);
      }
    }
  }

  lemma NewMessageFollowsLink(s: System, edges: Edges, step: Step, m: Msg)
    requires CanStep(s, step) && AlongLinks(edges, step) && Offering(step) && m in Apply(s, step).net && m !in s.net
    requires step.Act? && step.call.Receive? && step.call.msg.key == m.key ==>
               Linked(edges, step.call.msg.src, step.who)
    ensures Linked(edges, m.src, m.dst)
  {
    if step.call.Receive? {
      UpdateReplies(s.peers[step.who], step.who, step.call.msg, step.call.missing, step.call.now);
    } else if Dispatches(step.call) {
      DispatchTouchesNoRow(s.peers[step.who], step.who, step.call);
    }
  }

  lemma LocalMaximumKeepsRow(s: System, edges: Edges, step: Step, q: PeerId, k: Key, top: Stamp)
    requires Capped(s, edges, k, top) && CanStep(s, step) && AlongLinks(edges, step) && Tame(s, edges, step, k, top)
    requires q in s.peers && LocalMaximum(edges, q) && k in s.peers[q].rows && StampAt(s, q, k) == top
    ensures q in Apply(s, step).peers && RowAt(Apply(s, step), q, k) == RowAt(s, q, k)
  {
    LocalMaximumRefuses(s, edges, step, q, k, top);
    if Offering(step) {
      OfferingKeepsRow(s, step, q, k);
    } else if step.who == q {
      RespondSeenFrom(s.peers[q], step.call, k);
    }
  }

  /** In every run of gossip along links, with downloads that touch no local maximum and date no
      row above `top`, a local maximum that holds a top row keeps it. */
  lemma {:induction false} LocalMaximumNeverMoves(s: System, edges: Edges, steps: seq<Step>, s': System,
                                                  q: PeerId, k: Key, top: Stamp)
    requires TieRun(s, edges, steps, k, top, s') && Capped(s, edges, k, top) && q in s.peers
    requires LocalMaximum(edges, q) && k in s.peers[q].rows && StampAt(s, q, k) == top
    ensures Capped(s', edges, k, top) && q in s'.peers && RowAt(s', q, k) == RowAt(s, q, k)
  {
    if steps != [] {
      var last := |steps| - 1;
      var m :| TieRun(s, edges, steps[..last], k, top, m) && TieStep(m, edges, steps[last], k, top, s');
      LocalMaximumNeverMoves(s, edges, steps[..last], m, q, k, top);
      CappedStep(m, edges, steps[last], k, top);
      LocalMaximumKeepsRow(m, edges, steps[last], q, k, top);
    }
  }

  // ----- Full ties -----

  /** Every peer holds a row for the file, all of the same version and time. */
  ghost predicate FullTie(s: System, edges: Edges, k: Key, top: Stamp)
  {
    && Capped(s, edges, k, top) && !Refused(k.path)
    && (forall q | q in s.peers :: k.repo in s.peers[q].tracked && k in s.peers[q].rows && StampAt(s, q, k) == top)
    && (forall x, y | Linked(edges, x, y) :: x in s.peers && y in s.peers && x != y)
  }

  ghost predicate OneHash(s: System, k: Key)
  {
    forall a, b | a in s.peers && b in s.peers :: HashAt(s, a, k) == HashAt(s, b, k)
  }

  ghost predicate MaximaAgree(s: System, edges: Edges, k: Key)
  {
    forall a, b | a in s.peers && b in s.peers && LocalMaximum(edges, a) && LocalMaximum(edges, b) ::
      HashAt(s, a, k) == HashAt(s, b, k)
  }

  lemma OfferInTie(s: System, edges: Edges, x: PeerId, p: PeerId, k: Key, top: Stamp)
    requires FullTie(s, edges, k, top) && Linked(edges, x, p)
    ensures var offer := Act(x, KeepMine(k, p));
            && AlongLinks(edges, offer) && CanStep(s, offer) && !Accepting(s, offer, k)
            && var s1 := Apply(s, offer);
               FullTie(s1, edges, k, top) && s1.peers == s.peers && OfferOf(s, x, p, k) in s1.net
  {
    var offer := Act(x, KeepMine(k, p));
    assert s.peers[x := s.peers[x]] == s.peers;
    CappedStep(s, edges, offer, k, top);
    assert OfferOf(s, x, p, k) in Handle(s.peers[x], x, KeepMine(k, p)).out;
    assert Apply(s, offer).peers == s.peers;
  }

  /** The smaller peer cannot tell the rows apart by version or time, and takes the greater's. */
  lemma TieBreaksForGreater(s: System, edges: Edges, x: PeerId, p: PeerId, k: Key, top: Stamp)
    requires FullTie(s, edges, k, top) && Linked(edges, x, p) && Less(p, x)
    ensures var m, me := OfferOf(s, x, p, k), s.peers[p];
            && (Accepts(me, p, m) <==> HashAt(s, p, k) != HashAt(s, x, k))
            && var me' := HandleUpdate(me, p, m, false, 0).peer;
               && me'.tracked == me.tracked && k in me'.rows
               && LocalVersion(me', p, k).hash == HashAt(s, x, k)
               && Stamp(LocalVersion(me', p, k).version, LocalVersion(me', p, k).timestamp) == top
  {
    var m := OfferOf(s, x, p, k);
    assert StampAt(s, x, k) == top && StampAt(s, p, k) == top;
    ResolveIsLastWriteWins(LocalVersion(s.peers[p], p, k), RemoteVersion(m));
    UpdateRows(s.peers[p], p, m, false, 0);
  }

  /** A tie stays one if a single row changes to another of the same version and time. */
  lemma TieStays(s: System, s': System, edges: Edges, p: PeerId, p': Peer, k: Key, top: Stamp)
    requires FullTie(s, edges, k, top) && p in s.peers && s'.peers == s.peers[p := p'] && Capped(s', edges, k, top)
    requires k.repo in p'.tracked && k in p'.rows && Stamp(p'.rows[k].version, p'.rows[k].modified) == top
    ensures FullTie(s', edges, k, top) && s'.peers.Keys == s.peers.Keys
    ensures forall q | q in s.peers && q != p :: s'.peers[q] == s.peers[q]
  {
  }

  lemma DeliveredInTie(s: System, edges: Edges, x: PeerId, p: PeerId, k: Key, top: Stamp, p': Peer)
    requires FullTie(s, edges, k, top) && Linked(edges, x, p) && Less(p, x) && OfferOf(s, x, p, k) in s.net
    requires p' == HandleUpdate(s.peers[p], p, OfferOf(s, x, p, k), false, 0).peer
    ensures var delivery := Act(p, Receive(OfferOf(s, x, p, k), false, 0));
            && AlongLinks(edges, delivery) && CanStep(s, delivery) && Apply(s, delivery).peers == s.peers[p := p']
            && Capped(Apply(s, delivery), edges, k, top)
            && (Accepting(s, delivery, k) <==> Accepts(s.peers[p], p, OfferOf(s, x, p, k)))
  {
    CappedStep(s, edges, Act(p, Receive(OfferOf(s, x, p, k), false, 0)), k, top);
  }

  lemma DeliveryInTie(s: System, edges: Edges, x: PeerId, p: PeerId, k: Key, top: Stamp)
    requires FullTie(s, edges, k, top) && Linked(edges, x, p) && Less(p, x) && OfferOf(s, x, p, k) in s.net
    ensures var delivery := Act(p, Receive(OfferOf(s, x, p, k), false, 0));
            && AlongLinks(edges, delivery) && CanStep(s, delivery)
            && (Accepting(s, delivery, k) <==> HashAt(s, p, k) != HashAt(s, x, k))
            && var s2 := Apply(s, delivery);
               && FullTie(s2, edges, k, top) && s2.peers.Keys == s.peers.Keys
               && HashAt(s2, p, k) == HashAt(s, x, k)
               && forall q | q in s.peers && q != p :: s2.peers[q] == s.peers[q]
  {
    var p' := HandleUpdate(s.peers[p], p, OfferOf(s, x, p, k), false, 0).peer;
    TieBreaksForGreater(s, edges, x, p, k, top);
    DeliveredInTie(s, edges, x, p, k, top, p');
    TieStays(s, Apply(s, Act(p, Receive(OfferOf(s, x, p, k), false, 0))), edges, p, p', k, top);
  }

  /** A greater neighbour offers, and the smaller peer ends with the neighbour's hash. */
  lemma GreaterNeighbourTeaches(s: System, edges: Edges, x: PeerId, p: PeerId, k: Key, top: Stamp)
      returns (offer: Step, delivery: Step, s1: System, s2: System)
    requires FullTie(s, edges, k, top) && Linked(edges, x, p) && Less(p, x)
    ensures TieStep(s, edges, offer, k, top, s1) && TieStep(s1, edges, delivery, k, top, s2)
    ensures FullTie(s2, edges, k, top) && s2.peers.Keys == s.peers.Keys && HashAt(s2, p, k) == HashAt(s, x, k)
    ensures forall q | q in s.peers && q != p :: RowAt(s2, q, k) == RowAt(s, q, k)
    ensures !Accepting(s, offer, k) && (Accepting(s1, delivery, k) <==> HashAt(s, p, k) != HashAt(s, x, k))
  {
    OfferInTie(s, edges, x, p, k, top);
    offer, delivery := Act(x, KeepMine(k, p)), Act(p, Receive(OfferOf(s, x, p, k), false, 0));
    s1 := Apply(s, offer);
    DeliveryInTie(s1, edges, x, p, k, top);
    s2 := Apply(s1, delivery);
  }

  lemma {:induction false} GreatestOf(ids: set<PeerId>) returns (p: PeerId)
    requires ids != {}
    ensures p in ids && forall x | x in ids :: x == p || Less(x, p)
  {
    var first :| first in ids;
    var rest := ids - {first};
    assert forall x | x in ids :: x == first || x in rest;
    if rest == {} {
      return first;
    }
    var q := GreatestOf(rest);
    Trichotomy(first, q);
    p := if Less(first, q) then q else first;
    forall x | x in ids ensures x == p || Less(x, p) {
      if x != first && x != q && p == first {
        Transitive(x, q, p);
      }
    }
  }

  lemma TieSnoc(s: System, edges: Edges, steps: seq<Step>, k: Key, top: Stamp, m: System, step: Step, s': System)
    requires TieRun(s, edges, steps, k, top, m) && TieStep(m, edges, step, k, top, s')
    ensures TieRun(s, edges, steps + [step], k, top, s')
  {
    var all := steps + [step];
    var last := |all| - 1;
    assert all[..last] == steps && all[last] == step;
    assert TieRun(s, edges, all[..last], k, top, m);
  }

  ghost predicate SpreadTo(s: System, edges: Edges, k: Key, todo: set<PeerId>, h: Hash)
  {
    forall q | q in s.peers && (q !in todo || LocalMaximum(edges, q)) :: HashAt(s, q, k) == h
  }

  lemma TeachAfter(s0: System, edges: Edges, steps0: seq<Step>, s: System, x: PeerId, p: PeerId, k: Key, top: Stamp)
      returns (steps: seq<Step>, s': System)
    requires TieRun(s0, edges, steps0, k, top, s) && FullTie(s, edges, k, top) && Linked(edges, x, p) && Less(p, x)
    ensures TieRun(s0, edges, steps, k, top, s') && FullTie(s', edges, k, top)
    ensures s'.peers.Keys == s.peers.Keys && HashAt(s', p, k) == HashAt(s, x, k)
    ensures forall q | q in s.peers && q != p :: RowAt(s', q, k) == RowAt(s, q, k)
  {
    var offer, delivery, s1, s2 := GreaterNeighbourTeaches(s, edges, x, p, k, top);
    TieSnoc(s0, edges, steps0, k, top, s, offer, s1);
    TieSnoc(s0, edges, steps0 + [offer], k, top, s1, delivery, s2);
    steps, s' := steps0 + [offer] + [delivery], s2;
  }

  lemma SpreadOneMore(s: System, s': System, edges: Edges, k: Key, todo: set<PeerId>, p: PeerId, h: Hash)
    requires SpreadTo(s, edges, k, todo, h) && s'.peers.Keys == s.peers.Keys
    requires p in s.peers && HashAt(s', p, k) == h
    requires forall q | q in s.peers && q != p :: RowAt(s', q, k) == RowAt(s, q, k)
    ensures SpreadTo(s', edges, k, todo - {p}, h)
  {
    forall q | q in s'.peers && (q !in todo - {p} || LocalMaximum(edges, q)) ensures HashAt(s', q, k) == h {
      if q != p { assert RowAt(s', q, k) == RowAt(s, q, k); }
    }
  }

  lemma TeachGreatest(s0: System, edges: Edges, steps0: seq<Step>, s: System,
                      k: Key, top: Stamp, todo: set<PeerId>, p: PeerId, h: Hash)
      returns (steps: seq<Step>, s': System)
    requires TieRun(s0, edges, steps0, k, top, s) && FullTie(s, edges, k, top) && SpreadTo(s, edges, k, todo, h)
    requires p in todo && p in s.peers && (forall x | x in todo :: x == p || Less(x, p))
    requires !LocalMaximum(edges, p)
    ensures TieRun(s0, edges, steps, k, top, s') && FullTie(s', edges, k, top)
    ensures s'.peers.Keys == s.peers.Keys && SpreadTo(s', edges, k, todo - {p}, h)
  {
    var x :| Linked(edges, x, p) && !Less(x, p);
    Trichotomy(x, p);
    assert x in s.peers && x !in todo && HashAt(s, x, k) == h;
    steps, s' := TeachAfter(s0, edges, steps0, s, x, p, k, top);
    SpreadOneMore(s, s', edges, k, todo, p, h);
  }

  /** From the greatest peer down, each takes over the common hash from a greater neighbour. */
  lemma {:induction false} SpreadDown(s0: System, edges: Edges, steps0: seq<Step>, s: System,
                                      k: Key, top: Stamp, todo: set<PeerId>, h: Hash)
      returns (steps: seq<Step>, s': System)
    requires TieRun(s0, edges, steps0, k, top, s) && FullTie(s, edges, k, top) && todo <= s.peers.Keys
    requires SpreadTo(s, edges, k, todo, h)
    ensures TieRun(s0, edges, steps, k, top, s') && forall q | q in s'.peers :: HashAt(s', q, k) == h
    decreases todo
  {
    if todo == {} {
      return steps0, s;
    }
    var p := GreatestOf(todo);
    var steps1, s1 := steps0, s;
    if !LocalMaximum(edges, p) {
      steps1, s1 := TeachGreatest(s0, edges, steps0, s, k, top, todo, p, h);
    }
    steps, s' := SpreadDown(s0, edges, steps1, s1, k, top, todo - {p}, h);
  }

  ghost predicate CanSettle(s: System, edges: Edges, k: Key, top: Stamp)
  {
    exists steps, s' :: TieRun(s, edges, steps, k, top, s') && OneHash(s', k)
  }

  lemma SettledMeansMaximaAgree(s: System, edges: Edges, steps: seq<Step>, k: Key, top: Stamp, s': System)
    requires FullTie(s, edges, k, top) && TieRun(s, edges, steps, k, top, s') && OneHash(s', k)
    ensures MaximaAgree(s, edges, k)
  {
    forall a, b | a in s.peers && b in s.peers && LocalMaximum(edges, a) && LocalMaximum(edges, b)
      ensures HashAt(s, a, k) == HashAt(s, b, k)
    {
      LocalMaximumNeverMoves(s, edges, steps, s', a, k, top);
      LocalMaximumNeverMoves(s, edges, steps, s', b, k, top);
      assert HashAt(s', a, k) == HashAt(s', b, k);
    }
  }

  lemma MaximaSettle(s: System, edges: Edges, k: Key, top: Stamp) returns (steps: seq<Step>, s': System)
    requires FullTie(s, edges, k, top) && MaximaAgree(s, edges, k)
    ensures TieRun(s, edges, steps, k, top, s') && OneHash(s', k)
  {
    if s.peers.Keys == {} {
      return [], s;
    }
    var g := GreatestOf(s.peers.Keys);
    assert LocalMaximum(edges, g);
    steps, s' := SpreadDown(s, edges, [], s, k, top, s.peers.Keys, HashAt(s, g, k));
  }

  /** From a full tie, some run of gossip along links, with downloads that touch no local maximum
      and date no row above the tie, reaches one hash exactly when the peers without a greater
      neighbour already agree. */
  lemma AgreementReachableIff(s: System, edges: Edges, k: Key, top: Stamp)
    requires FullTie(s, edges, k, top)
    ensures CanSettle(s, edges, k, top) <==> MaximaAgree(s, edges, k)
  {
    if CanSettle(s, edges, k, top) {
      var steps, s' :| TieRun(s, edges, steps, k, top, s') && OneHash(s', k);
      SettledMeansMaximaAgree(s, edges, steps, k, top, s');
    }
    if MaximaAgree(s, edges, k) {
      var steps, s' := MaximaSettle(s, edges, k, top);
    }
  }

  /** Rows alone, without any download: between two greater neighbours that disagree, a peer
      changes its row as often as one likes. */
  lemma {:induction false} TiesFlipForever(s: System, edges: Edges, p: PeerId, x: PeerId, y: PeerId,
                                           k: Key, top: Stamp, n: nat)
      returns (steps: seq<Step>, s': System)
    requires FullTie(s, edges, k, top) && Linked(edges, x, p) && Linked(edges, y, p) && Less(p, x) && Less(p, y)
    requires HashAt(s, x, k) != HashAt(s, y, k)
    ensures GossipRun(s, steps, k, n, s') && FullTie(s', edges, k, top) && s'.peers.Keys == s.peers.Keys
    ensures RowAt(s', x, k) == RowAt(s, x, k) && RowAt(s', y, k) == RowAt(s, y, k)
  {
    if n == 0 {
      return [], s;
    }
    var before, m := TiesFlipForever(s, edges, p, x, y, k, top, n - 1);
    Trichotomy(p, p);
    var z := if HashAt(m, p, k) == HashAt(m, x, k) then y else x;
    var offer, delivery, m1, m2 := GreaterNeighbourTeaches(m, edges, z, p, k, top);
    s' := m2;
    steps := before + [offer] + [delivery];
    ExtendGossip(s, before, k, n - 1, m, offer);
    ExtendGossip(s, before + [offer], k, n - 1, m1, delivery);
  }
}
