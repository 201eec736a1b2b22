/** Two peers that exchange their rows for a file end up agreeing, whatever the order. */
module Convergence {
  import opened Base
  import opened PeerIds
  import opened Conflict
  import opened Clocks
  import opened TaskQueue
  import opened Replication

  function HashAt(s: System, q: PeerId, k: Key): Hash
    requires q in s.peers
  {
    LocalVersion(s.peers[q], q, k).hash
  }

  function RowAt(s: System, q: PeerId, k: Key): Option<Row>
    requires q in s.peers
  {
    if k in s.peers[q].rows then Some(s.peers[q].rows[k]) else None
  }

  /** Equal in everything that is replicated. */
  predicate SameContent(a: Row, b: Row)
  {
    && a.hash == b.hash && a.size == b.size && a.version == b.version
    && a.modified == b.modified && a.deleted == b.deleted && a.mode == b.mode
  }

  predicate Carries(m: Msg, src: PeerId, dst: PeerId, k: Key, row: Row)
  {
    && m.src == src && m.dst == dst && m.key == k
    && m.hash == row.hash && m.size == row.size && m.version == row.version
    && m.modified == row.modified && m.deleted == row.deleted && m.mode == row.mode
  }

  /** Deliveries of metadata, and the dispatcher's work. */
  predicate Delivering(step: Step) { step.Act? && (step.call.Receive? || Dispatches(step.call)) }

  predicate Dispatches(a: Call) { a.Take? || a.Execute? }

  lemma DispatchTouchesNoRow(p: Peer, me: PeerId, a: Call)
    requires Dispatches(a) && Enabled(p, me, a)
    ensures var e := Handle(p, me, a);
            e.peer.rows == p.rows && e.peer.tracked == p.tracked && e.out == {}
  {
    match a {
      case Take(t) => TakeTouchesNoRow(p, t);
      case Execute(t, sending) => ExecuteTouchesNoRow(p, t, sending);
    }
  }

  /** What the acting peer of a delivering step does to its rows, and what it sends. */
  lemma DeliveringCall(p: Peer, me: PeerId, a: Call)
    requires Enabled(p, me, a) && Delivering(Act(me, a))
    ensures var e := Handle(p, me, a);
            && e.peer.tracked == p.tracked
            && (forall k | !(a.Receive? && a.msg.key == k) ::
                  (k in e.peer.rows <==> k in p.rows) && (k in p.rows ==> e.peer.rows[k] == p.rows[k]))
            && (forall m | m in e.out ::
                  && a.Receive? && Answers(p, a.msg) && m.key == a.msg.key
                  && Carries(m, me, a.msg.src, m.key, p.rows[m.key]))
  {
    if a.Receive? {
      UpdateRows(p, me, a.msg, a.missing, a.now);
      UpdateReplies(p, me, a.msg, a.missing, a.now);
    } else {
      DispatchTouchesNoRow(p, me, a);
    }
  }

  /** What one delivering step does, seen from one file. */
  lemma DeliverySeenFrom(s: System, step: Step, q: PeerId, k: Key)
    requires CanStep(s, step) && Delivering(step) && q in s.peers
    ensures var s' := Apply(s, step);
            && s'.peers.Keys == s.peers.Keys
            && s'.peers[q].tracked == s.peers[q].tracked
            && (!(step.call.Receive? && step.who == q && step.call.msg.key == k) ==> RowAt(s', q, k) == RowAt(s, q, k))
            && (forall m | m in s.net && m.key == k && !(step.call.Receive? && m == step.call.msg) :: m in s'.net)
            && (forall m | m in s'.net && m !in s.net ::
                  step.call.Receive? && Answers(s.peers[step.who], step.call.msg)
                  && m.key == step.call.msg.key
                  && Carries(m, step.who, step.call.msg.src, m.key, s.peers[step.who].rows[m.key]))
  {
    var p, s' := s.peers[step.who], Apply(s, step);
    DeliveringCall(p, step.who, step.call);
    forall m | m in s'.net && m !in s.net ensures m in Handle(p, step.who, step.call).out {
    }
  }

  // ----- The duel: winner `a`, loser `b` -----

  /** `a`'s row beats what `b` holds, present or not. */
  predicate Beats(a: PeerId, b: PeerId, ra: Row, rb: Option<Row>)
  {
    var loser := if rb.Some? then FileVersion(rb.value.hash, rb.value.version, rb.value.modified, b)
                 else FileVersion(NoHash, 0, 0, b);
    ra.hash != loser.hash && Outranks(FileVersion(ra.hash, ra.version, ra.modified, a), loser)
  }

  ghost predicate Duel(s: System, a: PeerId, b: PeerId, k: Key, ra: Row, rb: Option<Row>)
  {
    && a in s.peers && b in s.peers && a != b && !Refused(k.path)
    && k.repo in s.peers[a].tracked && k.repo in s.peers[b].tracked
    && Beats(a, b, ra, rb)
    && RowAt(s, a, k) == Some(ra)
    && (RowAt(s, b, k) == rb || Adopted(s, b, k, ra))
    && (forall m | m in s.net && m.key == k ::
          Carries(m, a, b, k, ra) || (rb.Some? && Carries(m, b, a, k, rb.value)))
    && (Adopted(s, b, k, ra) || exists m | m in s.net :: Carries(m, a, b, k, ra))
  }

  predicate Adopted(s: System, b: PeerId, k: Key, ra: Row)
    requires b in s.peers
  {
    RowAt(s, b, k).Some? && SameContent(RowAt(s, b, k).value, ra)
  }

  lemma LoserAdopts(s: System, m: Msg, missing: bool, now: int, b: PeerId, k: Key, ra: Row, rb: Option<Row>)
    requires b in s.peers && k.repo in s.peers[b].tracked && !Refused(k.path)
    requires Carries(m, m.src, b, k, ra) && Beats(m.src, b, ra, rb) && RowAt(s, b, k) == rb
    ensures var p' := HandleUpdate(s.peers[b], b, m, missing, now).peer;
            k in p'.rows && SameContent(p'.rows[k], ra)
    ensures !Answers(s.peers[b], m)
  {
    ResolveIsLastWriteWins(LocalVersion(s.peers[b], b, k), RemoteVersion(m));
    UpdateRows(s.peers[b], b, m, missing, now);
  }

  lemma WinnerKeeps(s: System, m: Msg, missing: bool, now: int, a: PeerId, k: Key, ra: Row, rb: Row)
    requires a in s.peers && RowAt(s, a, k) == Some(ra)
    requires Carries(m, m.src, a, k, rb) && Beats(a, m.src, ra, Some(rb))
    ensures HandleUpdate(s.peers[a], a, m, missing, now).peer.rows == s.peers[a].rows
  {
    var mine, theirs := LocalVersion(s.peers[a], a, k), RemoteVersion(m);
    ResolveIsLastWriteWins(mine, theirs);
    RankIsTotal(mine, theirs);
    UpdateRows(s.peers[a], a, m, missing, now);
  }

  lemma EqualHashChangesNothing(p: Peer, me: PeerId, m: Msg, missing: bool, now: int)
    requires LocalVersion(p, me, m.key).hash == m.hash
    ensures HandleUpdate(p, me, m, missing, now).peer.rows == p.rows && !Answers(p, m)
  {
    UpdateRows(p, me, m, missing, now);
  }

  lemma DuelStep(s: System, step: Step, a: PeerId, b: PeerId, k: Key, ra: Row, rb: Option<Row>)
    requires Duel(s, a, b, k, ra, rb) && CanStep(s, step) && Delivering(step)
    ensures Duel(Apply(s, step), a, b, k, ra, rb)
  {
    var s' := Apply(s, step);
    DeliverySeenFrom(s, step, a, k);
    DeliverySeenFrom(s, step, b, k);
    if step.call.Receive? && step.call.msg.key == k {
      var m := step.call.msg;
      if Carries(m, a, b, k, ra) {
        if RowAt(s, b, k) == rb {
          LoserAdopts(s, m, step.call.missing, step.call.now, b, k, ra, rb);
        } else {
          EqualHashChangesNothing(s.peers[b], b, m, step.call.missing, step.call.now);
        }
        assert Adopted(s', b, k, ra);
      } else {
        WinnerKeeps(s, m, step.call.missing, step.call.now, a, k, ra, rb.value);
        if !Adopted(s, b, k, ra) {
          var w :| w in s.net && Carries(w, a, b, k, ra);
          assert w in s'.net;
        }
      }
    } else if !Adopted(s, b, k, ra) {
      var w :| w in s.net && Carries(w, a, b, k, ra);
      assert w in s'.net;
    }
    forall m | m in s'.net && m.key == k
      ensures Carries(m, a, b, k, ra) || (rb.Some? && Carries(m, b, a, k, rb.value))
    {
      assert m in s.net || step.call.Receive?;
    }
  }

  ghost predicate DeliveryRun(s: System, steps: seq<Step>, s': System)
  {
    Run(s, steps, s') && forall st | st in steps :: Delivering(st)
  }

  lemma LastDelivery(s: System, steps: seq<Step>, s': System) returns (m: System)
    requires DeliveryRun(s, steps, s') && steps != []
    ensures DeliveryRun(s, steps[..|steps| - 1], m)
    ensures CanStep(m, steps[|steps| - 1]) && Delivering(steps[|steps| - 1]) && s' == Apply(m, steps[|steps| - 1])
  {
    var last := |steps| - 1;
    m :| Run(s, steps[..last], m) && CanStep(m, steps[last]) && s' == Apply(m, steps[last]);
    assert steps[last] in steps && forall st | st in steps[..last] :: st in steps;
  }

  lemma {:induction false} DuelRun(s: System, steps: seq<Step>, s': System,
                                   a: PeerId, b: PeerId, k: Key, ra: Row, rb: Option<Row>)
    requires Duel(s, a, b, k, ra, rb) && DeliveryRun(s, steps, s')
    ensures Duel(s', a, b, k, ra, rb)
  {
    if steps != [] {
      var m := LastDelivery(s, steps, s');
      DuelRun(s, steps[..|steps| - 1], m, a, b, k, ra, rb);
      DuelStep(m, steps[|steps| - 1], a, b, k, ra, rb);
    }
  }

  // ----- The theorem -----

  ghost predicate HasOffered(s: System, x: PeerId, y: PeerId, k: Key)
    requires x in s.peers
  {
    RowAt(s, x, k).Some? ==>
      && RowAt(s, x, k).value.version >= 1
      && exists m | m in s.net :: Carries(m, x, y, k, RowAt(s, x, k).value)
  }

  /** Each of `p` and `q` has offered its current row, if it has one, to the other; nothing
      else about the file is in flight. */
  ghost predicate Exchanging(s: System, p: PeerId, q: PeerId, k: Key)
  {
    && p in s.peers && q in s.peers && p != q
    && k.repo in s.peers[p].tracked && k.repo in s.peers[q].tracked
    && HasOffered(s, p, q, k) && HasOffered(s, q, p, k)
    && (forall m | m in s.net && m.key == k ::
          || (RowAt(s, p, k).Some? && Carries(m, p, q, k, RowAt(s, p, k).value))
          || (RowAt(s, q, k).Some? && Carries(m, q, p, k, RowAt(s, q, k).value)))
  }

  ghost predicate Drained(s: System, k: Key)
  {
    forall m | m in s.net :: m.key != k
  }

  lemma OneSideWins(s: System, p: PeerId, q: PeerId, k: Key) returns (a: PeerId, b: PeerId)
    requires Exchanging(s, p, q, k) && HashAt(s, p, k) != HashAt(s, q, k) && !Refused(k.path)
    ensures (a == p && b == q) || (a == q && b == p)
    ensures RowAt(s, a, k).Some? && Duel(s, a, b, k, RowAt(s, a, k).value, RowAt(s, b, k))
  {
    var vp, vq := LocalVersion(s.peers[p], p, k), LocalVersion(s.peers[q], q, k);
    RankIsTotal(vp, vq);
    if Outranks(vp, vq) {
      a, b := p, q;
    } else {
      a, b := q, p;
    }
  }

  /** Equal hashes are never disturbed. */
  lemma {:induction false} AgreementStays(s: System, steps: seq<Step>, s': System, p: PeerId, q: PeerId, k: Key)
    requires Exchanging(s, p, q, k) && HashAt(s, p, k) == HashAt(s, q, k) && DeliveryRun(s, steps, s')
    ensures s'.peers.Keys == s.peers.Keys
    ensures RowAt(s', p, k) == RowAt(s, p, k) && RowAt(s', q, k) == RowAt(s, q, k)
    ensures forall m | m in s'.net && m.key == k :: m in s.net
  {
    if steps != [] {
      var m := LastDelivery(s, steps, s');
      AgreementStays(s, steps[..|steps| - 1], m, p, q, k);
      var step := steps[|steps| - 1];
      DeliverySeenFrom(m, step, p, k);
      DeliverySeenFrom(m, step, q, k);
      if step.call.Receive? && step.call.msg.key == k {
        EqualHashChangesNothing(m.peers[step.who], step.who, step.call.msg, step.call.missing, step.call.now);
      }
    }
  }

  /** A file whose name peers refuse stays wherever it is, in every run of deliveries. */
  lemma {:induction false} RefusedPathNeverReplicates(s: System, steps: seq<Step>, s': System, q: PeerId, k: Key)
    requires DeliveryRun(s, steps, s') && q in s.peers && Refused(k.path)
    ensures q in s'.peers && RowAt(s', q, k) == RowAt(s, q, k)
  {
    if steps != [] {
      var m := LastDelivery(s, steps, s');
      RefusedPathNeverReplicates(s, steps[..|steps| - 1], m, q, k);
      var step := steps[|steps| - 1];
      DeliverySeenFrom(m, step, q, k);
      if step.call.Receive? && step.call.msg.key == k && step.who == q {
        UpdateRows(m.peers[q], q, step.call.msg, step.call.missing, step.call.now);
      }
    }
  }

  /** While no download ends: after two peers exchanged their rows, in any order and with all
      replies delivered, they agree, exactly when they agreed before or the path is one that peers
      accept; and what they then both hold is the winner's row in full. */
  lemma ExchangeTakesTheWinner(s: System, steps: seq<Step>, s': System, p: PeerId, q: PeerId, k: Key)
    requires Exchanging(s, p, q, k) && DeliveryRun(s, steps, s') && Drained(s', k)
    ensures p in s'.peers && q in s'.peers
    ensures HashAt(s', p, k) == HashAt(s', q, k)
            <==> (HashAt(s, p, k) == HashAt(s, q, k) || !Refused(k.path))
    ensures HashAt(s, p, k) != HashAt(s, q, k) && !Refused(k.path) ==>
              && RowAt(s', p, k).Some? && RowAt(s', q, k).Some?
              && SameContent(RowAt(s', p, k).value, RowAt(s', q, k).value)
              && (RowAt(s', p, k) == RowAt(s, p, k) || RowAt(s', q, k) == RowAt(s, q, k))
  {
    if HashAt(s, p, k) == HashAt(s, q, k) {
      AgreementStays(s, steps, s', p, q, k);
    } else if Refused(k.path) {
      RefusedPathNeverReplicates(s, steps, s', p, k);
      RefusedPathNeverReplicates(s, steps, s', q, k);
    } else {
      var a, b := OneSideWins(s, p, q, k);
      DuelRun(s, steps, s', a, b, k, RowAt(s, a, k).value, RowAt(s, b, k));
    }
  }

  // ----- "Accept remote" and offline deletions -----

  /** The user's "remote" decision: the probe is answered exactly when the other peer stores
      content under an acceptable path, and then the asker takes over that row and, unless it is
      a deletion, has its content on the way. */
  lemma TakeTheirsWorksIff(asker: Peer, p: PeerId, other: Peer, q: PeerId, k: Key,
                           later: Peer, missing: bool, now: int)
    requires k in other.rows ==> other.rows[k].version >= 1
    requires k !in later.rows && k.repo in later.tracked
    ensures var probe := Probe(p, q, k, asker.clock);
            var answer := HandleUpdate(other, q, probe, missing, now);
            && HandleTakeTheirs(asker, p, k, q).out == {probe}
            && answer.peer.rows == other.rows
            && (answer.out != {} <==> k in other.rows && other.rows[k].hash != NoHash && !Refused(k.path))
            && forall r | r in answer.out ::
                 var p' := HandleUpdate(later, p, r, missing, now).peer;
                 && k in p'.rows && SameContent(p'.rows[k], other.rows[k])
                 && (p'.rows[k].deleted || Fetching(p', k, p'.rows[k].hash))
  {
    var probe := Probe(p, q, k, asker.clock);
    UpdateRows(other, q, probe, missing, now);
    UpdateReplies(other, q, probe, missing, now);
    forall r | r in HandleUpdate(other, q, probe, missing, now).out
      ensures var p' := HandleUpdate(later, p, r, missing, now).peer;
              && k in p'.rows && SameContent(p'.rows[k], other.rows[k])
              && (p'.rows[k].deleted || Fetching(p', k, p'.rows[k].hash))
    {
      UpdateRows(later, p, r, missing, now);
      AdoptFetches(later.(clock := Merged(later.clock, r.clock)), r, now);
    }
  }

  lemma AdoptFetches(p: Peer, m: Msg, now: int)
    ensures m.deleted || Fetching(Adopt(p, m, now), m.key, m.hash)
  {
    if !m.deleted && !Fetching(p, m.key, m.hash) {
      assert DownloadOf(m) in TasksIn(Adopt(p, m, now).queued, m.key.repo);
    }
  }

  /** A deletion found by the start-up scan keeps the file's hash, so it reaches a peer exactly
      when that peer holds other content that it outranks, never a peer that was in sync. */
  lemma OfflineDeletionSpreadsIff(p: Peer, me: PeerId, k: Key, scanStart: int, to: set<PeerId>, now: int,
                                  other: Peer, q: PeerId, missing: bool)
    requires q in to && k in p.rows && !p.rows[k].deleted && k.repo in p.tracked && p.rows[k].updatedAt < scanStart
    requires k in other.rows && !other.rows[k].deleted && k.repo in other.tracked
    ensures var e := HandleScanMissing(p, me, k, scanStart, to, now);
            && e.peer.rows[k].deleted
            && exists m | m in e.out ::
                 && m.dst == q && m.deleted
                 && (HandleUpdate(other, q, m, missing, now).peer.rows[k].deleted
                     <==> && other.rows[k].hash != p.rows[k].hash && !Refused(k.path)
                          && Outranks(FileVersion(p.rows[k].hash, p.rows[k].version + 1, p.rows[k].modified, me),
                                      LocalVersion(other, q, k)))
  {
    var e := HandleScanMissing(p, me, k, scanStart, to, now);
    var m := Offer(me, q, k, e.peer.rows[k], e.peer.clock);
    assert Offer(me, me, k, e.peer.rows[k], e.peer.clock).(dst := q) == m;
    assert m in e.out;
    ResolveIsLastWriteWins(LocalVersion(other, q, k), RemoteVersion(m));
    UpdateRows(other, q, m, missing, now);
  }
}
