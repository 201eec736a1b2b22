/** Metadata traffic drains: without new edits, connects or user decisions, only finitely many
    messages are ever delivered. */
module Drain {
  import opened Base
  import opened PeerIds
  import opened Conflict
  import opened Clocks
  import opened Replication

  /** Every version in the system is at most `bound`. */
  ghost predicate Bounded(s: System, bound: nat)
  {
    && bound >= 1
    && (forall q, k | q in s.peers && k in s.peers[q].rows :: s.peers[q].rows[k].version <= bound)
    && (forall m | m in s.net :: m.version <= bound)
  }

  /** What a message may still cause: one delivery for each version it could be answered with. */
  ghost function Weight(net: multiset<Msg>, bound: nat): nat
    requires forall m | m in net :: m.version <= bound
  {
    if net == multiset{} then 0
    else var m :| m in net; bound - m.version + 1 + Weight(net - multiset{m}, bound)
  }

  lemma RemovalsCommute(net: multiset<Msg>, x: Msg, y: Msg)
    requires x in net && y in net && x != y
    ensures x in net - multiset{y} && y in net - multiset{x}
    ensures net - multiset{x} - multiset{y} == net - multiset{y} - multiset{x}
    ensures |net - multiset{x}| < |net| && |net - multiset{y}| < |net|
  {
  }

  lemma {:induction false} WeightWithout(net: multiset<Msg>, m: Msg, bound: nat)
    requires m in net && forall x | x in net :: x.version <= bound
    ensures Weight(net, bound) == bound - m.version + 1 + Weight(net - multiset{m}, bound)
    decreases |net|
  {
    var x :| x in net && Weight(net, bound) == bound - x.version + 1 + Weight(net - multiset{x}, bound);
    if x != m {
      RemovalsCommute(net, x, m);
      WeightWithout(net - multiset{x}, m, bound);
      WeightWithout(net - multiset{m}, x, bound);
    }
  }

  lemma WeightWith(net: multiset<Msg>, m: Msg, bound: nat)
    requires m.version <= bound && forall x | x in net :: x.version <= bound
    ensures Weight(net + multiset{m}, bound) == bound - m.version + 1 + Weight(net, bound)
  {
    WeightWithout(net + multiset{m}, m, bound);
    assert net + multiset{m} - multiset{m} == net;
  }

  /** Calls that start no new metadata traffic of their own. */
  predicate Quiet(step: Step)
  {
    step.Lose? || step.call.Receive? || step.call.Take? || step.call.Execute? || step.call.Respond?
    || step.call.AddRepo? || step.call.RemoveRepo? || step.call.Restart?
  }

  predicate TakesMessage(step: Step) { step.Lose? || step.call.Receive? }

  /** A delivery is answered by at most one message, about the same file, back to its sender,
      and of a strictly newer version. */
  lemma ReplyIsNewer(p: Peer, me: PeerId, m: Msg, missing: bool, now: int)
    ensures var out := HandleUpdate(p, me, m, missing, now).out;
            |out| <= 1 && forall r | r in out ::
              r.key == m.key && r.src == me && r.dst == m.src && r.version > m.version
              && m.key in p.rows && r.version == p.rows[m.key].version
  {
    UpdateReplies(p, me, m, missing, now);
  }

  lemma RespondStaysBounded(p: Peer, path: Path, hash: Hash, outcome: Outcome, now: int, bound: nat)
    requires bound >= 1 && forall k | k in p.rows :: p.rows[k].version <= bound
    ensures var p' := HandleRespond(p, path, hash, outcome, now).peer;
            forall k | k in p'.rows :: p'.rows[k].version <= bound
  {
  }

  lemma QuietRowsStayBounded(p: Peer, me: PeerId, a: Call, bound: nat)
    requires Enabled(p, me, a) && Quiet(Act(me, a)) && bound >= 1
    requires a.Receive? ==> a.msg.version <= bound
    requires forall k | k in p.rows :: p.rows[k].version <= bound
    ensures forall k | k in Handle(p, me, a).peer.rows :: Handle(p, me, a).peer.rows[k].version <= bound
  {
    match a {
      case Receive(m, missing, now) => UpdateRows(p, me, m, missing, now);
      case Take(t) => TakeTouchesNoRow(p, t);
      case Execute(t, sending) => ExecuteTouchesNoRow(p, t, sending);
      case Respond(path, hash, outcome, now) => RespondStaysBounded(p, path, hash, outcome, now, bound);
      case _ =>
    }
  }

  lemma DeliveryShrinksWeight(net: multiset<Msg>, m: Msg, out: set<Msg>, bound: nat)
    requires m in net && forall x | x in net :: x.version <= bound
    requires |out| <= 1 && forall r | r in out :: m.version < r.version <= bound
    ensures forall x | x in net - multiset{m} + multiset(out) :: x.version <= bound
    ensures Weight(net - multiset{m} + multiset(out), bound) < Weight(net, bound)
  {
    WeightWithout(net, m, bound);
    if out == {} {
      assert net - multiset{m} + multiset(out) == net - multiset{m};
    } else {
      var r :| r in out;
      assert |out - {r}| == 0 && out == {r};
      WeightWith(net - multiset{m}, r, bound);
      assert multiset(out) == multiset{r};
    }
  }

  lemma QuietCallDrains(s: System, who: PeerId, a: Call, bound: nat)
    requires Bounded(s, bound) && CanStep(s, Act(who, a)) && Quiet(Act(who, a))
    ensures var net := Apply(s, Act(who, a)).net;
            && (forall m | m in net :: m.version <= bound)
            && Weight(net, bound) + (if a.Receive? then 1 else 0) <= Weight(s.net, bound)
  {
    var p := s.peers[who];
    var out := Handle(p, who, a).out;
    if a.Receive? {
      ReplyIsNewer(p, who, a.msg, a.missing, a.now);
      DeliveryShrinksWeight(s.net, a.msg, out, bound);
    } else {
      assert out == {};
      assert s.net + multiset(out) == s.net;
    }
  }

  lemma QuietStepBounded(s: System, step: Step, bound: nat)
    requires Bounded(s, bound) && CanStep(s, step) && Quiet(step)
    ensures var s' := Apply(s, step);
            forall q, k | q in s'.peers && k in s'.peers[q].rows :: s'.peers[q].rows[k].version <= bound
  {
    if step.Act? {
      QuietRowsStayBounded(s.peers[step.who], step.who, step.call, bound);
    }
  }

  /** The bound never rises, and each delivery or loss uses up weight. */
  lemma QuietStepDrains(s: System, step: Step, bound: nat)
    requires Bounded(s, bound) && CanStep(s, step) && Quiet(step)
    ensures var s' := Apply(s, step);
            && Bounded(s', bound)
            && Weight(s'.net, bound) + (if TakesMessage(step) then 1 else 0) <= Weight(s.net, bound)
  {
    QuietStepBounded(s, step, bound);
    if step.Lose? {
      WeightWithout(s.net, step.msg, bound);
    } else {
      QuietCallDrains(s, step.who, step.call, bound);
    }
  }

  function MessagesTaken(steps: seq<Step>): nat
  {
    if steps == [] then 0
    else MessagesTaken(steps[..|steps| - 1]) + if TakesMessage(steps[|steps| - 1]) then 1 else 0
  }

  /** So in any quiet run the number of deliveries is bounded by the weight at its start. */
  lemma {:induction false} TrafficDrains(s: System, steps: seq<Step>, s': System, bound: nat)
    requires Bounded(s, bound) && Run(s, steps, s')
    requires forall st | st in steps :: Quiet(st)
    ensures Bounded(s', bound)
    ensures MessagesTaken(steps) + Weight(s'.net, bound) <= Weight(s.net, bound)
  {
    if steps != [] {
      var last := |steps| - 1;
      var m :| Run(s, steps[..last], m) && CanStep(m, steps[last]) && s' == Apply(m, steps[last]);
      assert steps[last] in steps && forall st | st in steps[..last] :: st in steps;
      TrafficDrains(s, steps[..last], m, bound);
      QuietStepDrains(m, steps[last], bound);
    }
  }
}
