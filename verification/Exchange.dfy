/** Two peers exchange their rows while downloads end: when every order of events leads to
    agreement. */
module Exchange {
  import opened Base
  import opened PeerIds
  import opened Conflict
  import opened Clocks
  import opened TaskQueue
  import opened Replication
  import opened Drain
  import opened Convergence
  import opened Downloads
  import opened Fetches

  // ----- Calls and runs -----

  /** Deliveries of metadata, the dispatcher's work, and responses, under plain hashes. */
  predicate Proceeding(a: Call)
  {
    a.Receive? || a.Take? || (a.Execute? && Plain(a.task.hash)) || (a.Respond? && Plain(a.hash))
  }

  ghost predicate ExchangeStep(s: System, step: Step, k: Key, s': System)
  {
    && CanStep(s, step) && step.Act? && Proceeding(step.call) && !GivesUp(s.peers[step.who], step.call, k)
    && s' == Apply(s, step)
  }

  /** Any such run in which no download of the file is given up. */
  ghost predicate ExchangeRun(s: System, steps: seq<Step>, k: Key, s': System)
  {
    if steps == [] then s' == s
    else
      var last := |steps| - 1;
      exists m :: ExchangeRun(s, steps[..last], k, m) && ExchangeStep(m, steps[last], k, s')
  }

  lemma ExchangeSnoc(s: System, steps: seq<Step>, k: Key, m: System, step: Step, s': System)
    requires ExchangeRun(s, steps, k, m) && ExchangeStep(m, step, k, s')
    ensures ExchangeRun(s, steps + [step], k, s')
  {
    var all := steps + [step];
    var last := |all| - 1;
    assert all[..last] == steps && all[last] == step;
    assert ExchangeRun(s, all[..last], k, m);
  }

  // ----- One call, seen from one file -----

  /** A call that is not about the file. */
  lemma CallElsewhere(p: Peer, me: PeerId, a: Call, k: Key)
    requires Enabled(p, me, a) && Proceeding(a) && !(a.Receive? && a.msg.key == k)
    ensures var e := Handle(p, me, a);
            && e.peer.tracked == p.tracked && (forall m | m in e.out :: m.key != k)
            && (!Completes(p, a, k) && !GivesUp(p, a, k) ==> SameRow(p, e.peer, k))
  {
    match a {
      case Receive(m, missing, now) =>
        UpdateRows(p, me, m, missing, now);
        UpdateReplies(p, me, m, missing, now);
      case Take(t) => TakeTouchesNoRow(p, t);
      case Execute(t, sending) => ExecuteTouchesNoRow(p, t, sending);
      case Respond(_, _, _, _) => RespondSeenFrom(p, a, k);
    }
  }

  /** No call but a delivery of `h` makes a peer busy with `h`. */
  lemma CallBusy(p: Peer, me: PeerId, a: Call, k: Key, h: Hash)
    requires Enabled(p, me, a) && Proceeding(a)
    ensures Busy(Handle(p, me, a).peer, k, h) ==>
              || Busy(p, k, h)
              || (a.Receive? && a.msg.key == k && a.msg.hash == h
                  && (Accepts(p, me, a.msg) || LocalVersion(p, me, k).hash == h))
  {
    match a {
      case Receive(m, missing, now) => ReceiveBusy(p, me, m, missing, now, k, h);
      case Take(t) => TakeBusy(p, t, k, h);
      case Execute(t, sending) => ExecuteBusy(p, t, sending, k, h);
      case Respond(path, hash, outcome, now) => RespondBusy(p, path, hash, outcome, now, k, h);
    }
  }

  ghost predicate OnlyBusy(p: Peer, k: Key, h: Hash) { forall g | Busy(p, k, g) :: g == h }

  ghost predicate Free(p: Peer, k: Key) { forall g :: !Busy(p, k, g) }

  lemma CallOnlyBusy(p: Peer, me: PeerId, a: Call, k: Key, h: Hash)
    requires Enabled(p, me, a) && Proceeding(a) && OnlyBusy(p, k, h)
    requires a.Receive? && a.msg.key == k ==> a.msg.hash == h
    ensures OnlyBusy(Handle(p, me, a).peer, k, h)
  {
    forall g | Busy(Handle(p, me, a).peer, k, g) ensures g == h {
      CallBusy(p, me, a, k, g);
    }
  }

  lemma CompletedWasBusy(p: Peer, a: Call, k: Key)
    requires a.Respond? && Proceeding(a) && Completes(p, a, k)
    ensures Busy(p, k, a.hash)
  {
  }

  // ----- Equal hashes -----

  /** No download can put other content than `h` under the path. */
  ghost predicate Undisturbed(p: Peer, k: Key, h: Hash) { Storable(k.path) ==> OnlyBusy(p, k, h) }

  lemma CallUndisturbed(p: Peer, me: PeerId, a: Call, k: Key, h: Hash)
    requires Enabled(p, me, a) && Proceeding(a) && Undisturbed(p, k, h) && !GivesUp(p, a, k)
    requires LocalVersion(p, me, k).hash == h && (a.Receive? && a.msg.key == k ==> a.msg.hash == h)
    ensures var e := Handle(p, me, a);
            Undisturbed(e.peer, k, h) && LocalVersion(e.peer, me, k).hash == h && forall m | m in e.out :: m.key != k
  {
    if OnlyBusy(p, k, h) {
      CallOnlyBusy(p, me, a, k, h);
    }
    if a.Receive? && a.msg.key == k {
      UpdateReplies(p, me, a.msg, a.missing, a.now);
      EqualHashChangesNothing(p, me, a.msg, a.missing, a.now);
    } else {
      CallElsewhere(p, me, a, k);
      if Completes(p, a, k) {
        CompletedWasBusy(p, a, k);
        RespondSeenFrom(p, a, k);
      }
    }
  }

  /** Both hold `h`, nothing else is on its way. */
  ghost predicate Settled(s: System, p: PeerId, q: PeerId, k: Key, h: Hash)
  {
    && p in s.peers && q in s.peers && HashAt(s, p, k) == h && HashAt(s, q, k) == h
    && Undisturbed(s.peers[p], k, h) && Undisturbed(s.peers[q], k, h)
    && forall m | m in s.net && m.key == k :: m.hash == h && m.dst in {p, q}
  }

  lemma SettledStep(s: System, step: Step, p: PeerId, q: PeerId, k: Key, h: Hash, s': System)
    requires Settled(s, p, q, k, h) && ExchangeStep(s, step, k, s')
    ensures Settled(s', p, q, k, h)
  {
    var e := Handle(s.peers[step.who], step.who, step.call);
    assert s'.peers == s.peers[step.who := e.peer];
    assert forall m | m in s'.net :: m in s.net || m in e.out;
    if step.who in {p, q} {
      CallUndisturbed(s.peers[step.who], step.who, step.call, k, h);
    } else {
      CallElsewhere(s.peers[step.who], step.who, step.call, k);
    }
  }

  lemma {:induction false} SettledRun(s: System, steps: seq<Step>, p: PeerId, q: PeerId, k: Key, h: Hash, s': System)
    requires Settled(s, p, q, k, h) && ExchangeRun(s, steps, k, s')
    ensures Settled(s', p, q, k, h)
  {
    if steps != [] {
      var last := |steps| - 1;
      var m :| ExchangeRun(s, steps[..last], k, m) && ExchangeStep(m, steps[last], k, s');
      SettledRun(s, steps[..last], p, q, k, h, m);
      SettledStep(m, steps[last], p, q, k, h, s');
    }
  }

  // ----- Different hashes: winner `a`, loser `b` -----

  function LoserVersion(rb: Option<Row>): nat { if rb.Some? then rb.value.version else 0 }

  /** The versions are equal, so that times decide. */
  predicate Even(ra: Row, rb: Option<Row>) { LoserVersion(rb) == ra.version }

  predicate WinnerHolds(p: Peer, k: Key, ra: Row, rb: Option<Row>)
  {
    && k in p.rows && p.rows[k].hash == ra.hash && p.rows[k].version == ra.version
    && (Even(ra, rb) ==> p.rows[k].modified == ra.modified)
  }

  predicate FromWinner(m: Msg, a: PeerId, b: PeerId, k: Key, ra: Row, rb: Option<Row>)
  {
    && m.src == a && m.dst == b && m.key == k && m.hash == ra.hash && m.version == ra.version
    && (Even(ra, rb) ==> m.modified == ra.modified)
  }

  predicate FromLoser(m: Msg, a: PeerId, b: PeerId, k: Key, rb: Option<Row>)
  {
    rb.Some? && Carries(m, b, a, k, rb.value)
  }

  /** Downloads of the winner's own content are harmless, unless they make it lose a tie. */
  ghost predicate WinnerSafe(p: Peer, k: Key, ra: Row, rb: Option<Row>)
  {
    OnlyBusy(p, k, ra.hash) && (Even(ra, rb) ==> Free(p, k))
  }

  ghost predicate LoserHolds(p: Peer, k: Key, ra: Row, rb: Option<Row>)
  {
    || (k in p.rows && p.rows[k].hash == ra.hash)
    || (rb.Some? && k in p.rows && p.rows[k] == rb.value)
    || (rb.None? && k !in p.rows)
  }

  ghost predicate Converted(p: Peer, k: Key, ra: Row) { k in p.rows && p.rows[k].hash == ra.hash }

  lemma WinnerRefuses(p: Peer, a: PeerId, b: PeerId, m: Msg, k: Key, ra: Row, rb: Option<Row>)
    requires WinnerHolds(p, k, ra, rb) && Beats(a, b, ra, rb) && FromLoser(m, a, b, k, rb)
    ensures !Accepts(p, a, m) && LocalVersion(p, a, k).hash != m.hash
    ensures Answers(p, m) ==> !Even(ra, rb)
  {
    ResolveIsLastWriteWins(LocalVersion(p, a, k), RemoteVersion(m));
    RankIsTotal(LocalVersion(p, a, k), RemoteVersion(m));
  }

  lemma WinnerDelivery(p: Peer, a: PeerId, b: PeerId, c: Call, k: Key, ra: Row, rb: Option<Row>)
    requires WinnerHolds(p, k, ra, rb) && WinnerSafe(p, k, ra, rb) && Beats(a, b, ra, rb)
    requires c.Receive? && Enabled(p, a, c) && FromLoser(c.msg, a, b, k, rb)
    ensures var e := Handle(p, a, c);
            && WinnerHolds(e.peer, k, ra, rb) && WinnerSafe(e.peer, k, ra, rb) && e.peer.tracked == p.tracked
            && forall m | m in e.out && m.key == k :: FromWinner(m, a, b, k, ra, rb)
  {
    WinnerRefuses(p, a, b, c.msg, k, ra, rb);
    UpdateRows(p, a, c.msg, c.missing, c.now);
    UpdateReplies(p, a, c.msg, c.missing, c.now);
    forall g | Busy(Handle(p, a, c).peer, k, g) ensures Busy(p, k, g) {
      CallBusy(p, a, c, k, g);
    }
  }

  lemma WinnerElsewhere(p: Peer, a: PeerId, c: Call, k: Key, ra: Row, rb: Option<Row>)
    requires WinnerHolds(p, k, ra, rb) && WinnerSafe(p, k, ra, rb) && !GivesUp(p, c, k)
    requires Enabled(p, a, c) && Proceeding(c) && !(c.Receive? && c.msg.key == k)
    ensures var e := Handle(p, a, c);
            && WinnerHolds(e.peer, k, ra, rb) && WinnerSafe(e.peer, k, ra, rb) && e.peer.tracked == p.tracked
            && forall m | m in e.out :: m.key != k
  {
    CallElsewhere(p, a, c, k);
    if Completes(p, c, k) {
      CompletedWasBusy(p, c, k);
      RespondSeenFrom(p, c, k);
    }
    forall g | Busy(Handle(p, a, c).peer, k, g) ensures Busy(p, k, g) {
      CallBusy(p, a, c, k, g);
    }
  }

  lemma LoserDelivery(p: Peer, a: PeerId, b: PeerId, c: Call, k: Key, ra: Row, rb: Option<Row>)
    requires LoserHolds(p, k, ra, rb) && OnlyBusy(p, k, ra.hash) && Beats(a, b, ra, rb)
    requires k.repo in p.tracked && !Refused(k.path)
    requires c.Receive? && Enabled(p, b, c) && FromWinner(c.msg, a, b, k, ra, rb)
    ensures var e := Handle(p, b, c);
            && Converted(e.peer, k, ra) && OnlyBusy(e.peer, k, ra.hash) && e.peer.tracked == p.tracked && e.out == {}
  {
    CallOnlyBusy(p, b, c, k, ra.hash);
    ResolveIsLastWriteWins(LocalVersion(p, b, k), RemoteVersion(c.msg));
    UpdateRows(p, b, c.msg, c.missing, c.now);
    UpdateReplies(p, b, c.msg, c.missing, c.now);
  }

  lemma LoserElsewhere(p: Peer, b: PeerId, c: Call, k: Key, ra: Row, rb: Option<Row>)
    requires LoserHolds(p, k, ra, rb) && OnlyBusy(p, k, ra.hash) && !GivesUp(p, c, k)
    requires Enabled(p, b, c) && Proceeding(c) && !(c.Receive? && c.msg.key == k)
    ensures var e := Handle(p, b, c);
            && LoserHolds(e.peer, k, ra, rb) && OnlyBusy(e.peer, k, ra.hash) && e.peer.tracked == p.tracked
            && (Converted(p, k, ra) ==> Converted(e.peer, k, ra)) && forall m | m in e.out :: m.key != k
  {
    CallElsewhere(p, b, c, k);
    CallOnlyBusy(p, b, c, k, ra.hash);
    if Completes(p, c, k) {
      CompletedWasBusy(p, c, k);
      RespondSeenFrom(p, c, k);
    }
  }

  ghost predicate Contest(s: System, a: PeerId, b: PeerId, k: Key, ra: Row, rb: Option<Row>)
  {
    && a in s.peers && b in s.peers && a != b && !Refused(k.path) && Beats(a, b, ra, rb)
    && k.repo in s.peers[b].tracked
    && WinnerHolds(s.peers[a], k, ra, rb) && WinnerSafe(s.peers[a], k, ra, rb)
    && LoserHolds(s.peers[b], k, ra, rb) && OnlyBusy(s.peers[b], k, ra.hash)
    && (forall m | m in s.net && m.key == k :: FromWinner(m, a, b, k, ra, rb) || FromLoser(m, a, b, k, rb))
    && (Converted(s.peers[b], k, ra) || exists m | m in s.net :: FromWinner(m, a, b, k, ra, rb))
  }

  /** The message that the loser is waiting for stays until it is delivered. */
  lemma StillWaiting(s: System, step: Step, s': System, a: PeerId, b: PeerId, k: Key, ra: Row, rb: Option<Row>)
    requires CanStep(s, step) && step.Act? && s' == Apply(s, step)
    requires exists m | m in s.net :: FromWinner(m, a, b, k, ra, rb)
    requires !(step.call.Receive? && FromWinner(step.call.msg, a, b, k, ra, rb))
    ensures exists m | m in s'.net :: FromWinner(m, a, b, k, ra, rb)
  {
    var m :| m in s.net && FromWinner(m, a, b, k, ra, rb);
    assert m in s'.net;
  }

  lemma NetAfter(s: System, step: Step, s': System)
    requires CanStep(s, step) && step.Act? && s' == Apply(s, step)
    ensures s'.peers == s.peers[step.who := Handle(s.peers[step.who], step.who, step.call).peer]
    ensures forall m | m in s'.net :: m in s.net || m in Handle(s.peers[step.who], step.who, step.call).out
  {
  }

  lemma WinnerActs(s: System, step: Step, a: PeerId, b: PeerId, k: Key, ra: Row, rb: Option<Row>, s': System)
    requires Contest(s, a, b, k, ra, rb) && ExchangeStep(s, step, k, s') && step.who == a
    ensures Contest(s', a, b, k, ra, rb)
  {
    NetAfter(s, step, s');
    if step.call.Receive? && step.call.msg.key == k {
      WinnerDelivery(s.peers[a], a, b, step.call, k, ra, rb);
    } else {
      WinnerElsewhere(s.peers[a], a, step.call, k, ra, rb);
    }
    if !Converted(s.peers[b], k, ra) {
      StillWaiting(s, step, s', a, b, k, ra, rb);
    }
  }

  lemma LoserActs(s: System, step: Step, a: PeerId, b: PeerId, k: Key, ra: Row, rb: Option<Row>, s': System)
    requires Contest(s, a, b, k, ra, rb) && ExchangeStep(s, step, k, s') && step.who == b
    ensures Contest(s', a, b, k, ra, rb)
  {
    NetAfter(s, step, s');
    if step.call.Receive? && step.call.msg.key == k {
      LoserDelivery(s.peers[b], a, b, step.call, k, ra, rb);
    } else {
      LoserElsewhere(s.peers[b], b, step.call, k, ra, rb);
      if !Converted(s.peers[b], k, ra) {
        StillWaiting(s, step, s', a, b, k, ra, rb);
      }
    }
  }

  lemma OtherActs(s: System, step: Step, a: PeerId, b: PeerId, k: Key, ra: Row, rb: Option<Row>, s': System)
    requires Contest(s, a, b, k, ra, rb) && ExchangeStep(s, step, k, s') && step.who != a && step.who != b
    ensures Contest(s', a, b, k, ra, rb)
  {
    NetAfter(s, step, s');
    CallElsewhere(s.peers[step.who], step.who, step.call, k);
    if !Converted(s.peers[b], k, ra) {
      StillWaiting(s, step, s', a, b, k, ra, rb);
    }
  }

  lemma {:induction false} ContestRun(s: System, steps: seq<Step>, a: PeerId, b: PeerId, k: Key,
                                      ra: Row, rb: Option<Row>, s': System)
    requires Contest(s, a, b, k, ra, rb) && ExchangeRun(s, steps, k, s')
    ensures Contest(s', a, b, k, ra, rb)
  {
    if steps != [] {
      var last := |steps| - 1;
      var m :| ExchangeRun(s, steps[..last], k, m) && ExchangeStep(m, steps[last], k, s');
      ContestRun(s, steps[..last], a, b, k, ra, rb, m);
      if steps[last].who == a {
        WinnerActs(m, steps[last], a, b, k, ra, rb, s');
      } else if steps[last].who == b {
        LoserActs(m, steps[last], a, b, k, ra, rb, s');
      } else {
        OtherActs(m, steps[last], a, b, k, ra, rb, s');
      }
    }
  }

  // ----- The condition -----

  /** No download can spoil the exchange that `a`'s row wins. */
  ghost predicate SafeToExchange(s: System, a: PeerId, b: PeerId, k: Key)
    requires a in s.peers && b in s.peers && k in s.peers[a].rows
  {
    && !Refused(k.path) && OnlyBusy(s.peers[b], k, s.peers[a].rows[k].hash)
    && WinnerSafe(s.peers[a], k, s.peers[a].rows[k], RowAt(s, b, k))
  }

  ghost predicate Converges(s: System, p: PeerId, q: PeerId, k: Key)
    requires p in s.peers && q in s.peers
  {
    var h := HashAt(s, p, k);
    if h == HashAt(s, q, k) then Undisturbed(s.peers[p], k, h) && Undisturbed(s.peers[q], k, h)
    else if Outranks(LocalVersion(s.peers[p], p, k), LocalVersion(s.peers[q], q, k))
    then k in s.peers[p].rows && SafeToExchange(s, p, q, k)
    else k in s.peers[q].rows && SafeToExchange(s, q, p, k)
  }

  ghost predicate Agree(s: System, p: PeerId, q: PeerId, k: Key)
  {
    p in s.peers && q in s.peers && HashAt(s, p, k) == HashAt(s, q, k)
  }

  lemma WinnerOf(s: System, p: PeerId, q: PeerId, k: Key) returns (a: PeerId, b: PeerId)
    requires Exchanging(s, p, q, k) && HashAt(s, p, k) != HashAt(s, q, k)
    ensures (a == p && b == q) || (a == q && b == p)
    ensures k in s.peers[a].rows && Beats(a, b, s.peers[a].rows[k], RowAt(s, b, k))
    ensures Converges(s, p, q, k) <==> SafeToExchange(s, a, b, k)
    ensures exists m | m in s.net :: Carries(m, a, b, k, s.peers[a].rows[k])
    ensures forall m | m in s.net && m.key == k ::
              Carries(m, a, b, k, s.peers[a].rows[k]) || FromLoser(m, a, b, k, RowAt(s, b, k))
  {
    var vp, vq := LocalVersion(s.peers[p], p, k), LocalVersion(s.peers[q], q, k);
    RankIsTotal(vp, vq);
    if Outranks(vp, vq) {
      a, b := p, q;
    } else {
      a, b := q, p;
    }
  }

  lemma ContestBegins(s: System, a: PeerId, b: PeerId, k: Key)
    requires a in s.peers && b in s.peers && a != b && k in s.peers[a].rows && k.repo in s.peers[b].tracked
    requires Beats(a, b, s.peers[a].rows[k], RowAt(s, b, k)) && SafeToExchange(s, a, b, k)
    requires exists m | m in s.net :: Carries(m, a, b, k, s.peers[a].rows[k])
    requires forall m | m in s.net && m.key == k ::
               Carries(m, a, b, k, s.peers[a].rows[k]) || FromLoser(m, a, b, k, RowAt(s, b, k))
    ensures Contest(s, a, b, k, s.peers[a].rows[k], RowAt(s, b, k))
  {
    var m :| m in s.net && Carries(m, a, b, k, s.peers[a].rows[k]);
    assert FromWinner(m, a, b, k, s.peers[a].rows[k], RowAt(s, b, k));
  }

  lemma ContestEnds(s: System, a: PeerId, b: PeerId, k: Key, ra: Row, rb: Option<Row>)
    requires Contest(s, a, b, k, ra, rb) && Drained(s, k)
    ensures Agree(s, a, b, k) && Agree(s, b, a, k)
  {
  }

  lemma SettledBegins(s: System, p: PeerId, q: PeerId, k: Key)
    requires Exchanging(s, p, q, k) && Converges(s, p, q, k) && HashAt(s, p, k) == HashAt(s, q, k)
    ensures Settled(s, p, q, k, HashAt(s, p, k))
  {
  }

  lemma SafeExchangeAgrees(s: System, steps: seq<Step>, p: PeerId, q: PeerId, k: Key, s': System)
    requires Exchanging(s, p, q, k) && Converges(s, p, q, k) && ExchangeRun(s, steps, k, s') && Drained(s', k)
    ensures Agree(s', p, q, k)
  {
    if HashAt(s, p, k) == HashAt(s, q, k) {
      SettledBegins(s, p, q, k);
      SettledRun(s, steps, p, q, k, HashAt(s, p, k), s');
    } else {
      var a, b := WinnerOf(s, p, q, k);
      ContestBegins(s, a, b, k);
      ContestRun(s, steps, a, b, k, s.peers[a].rows[k], RowAt(s, b, k), s');
      ContestEnds(s', a, b, k, s.peers[a].rows[k], RowAt(s, b, k));
    }
  }

  // ----- Runs that drain the exchange -----

  function RowVersions(s: System): set<nat>
  {
    set q, k | q in s.peers && k in s.peers[q].rows :: s.peers[q].rows[k].version
  }

  function NetVersions(s: System): set<nat> { set m | m in s.net :: m.version }

  lemma {:induction false} BoundOf(ns: set<nat>) returns (bound: nat)
    ensures bound >= 1 && forall n | n in ns :: n <= bound
  {
    bound := 1;
    if x :| x in ns {
      var rest := BoundOf(ns - {x});
      bound := if x < rest then rest else x;
      assert forall n | n in ns :: n == x || n in ns - {x};
    }
  }

  lemma BoundExists(s: System) returns (bound: nat)
    ensures Bounded(s, bound)
  {
    bound := BoundOf(RowVersions(s) + NetVersions(s));
    forall q, k | q in s.peers && k in s.peers[q].rows ensures s.peers[q].rows[k].version <= bound {
      assert s.peers[q].rows[k].version in RowVersions(s);
    }
    forall m | m in s.net ensures m.version <= bound {
      assert m.version in NetVersions(s);
    }
  }

  /** Messages about the file run between peers of the system. */
  ghost predicate Deliverable(s: System, k: Key)
  {
    forall m | m in s.net && m.key == k :: m.src in s.peers && m.dst in s.peers
  }

  lemma DeliveryStep(s: System, m: Msg, k: Key, bound: nat) returns (s': System)
    requires m in s.net && m.key == k && Deliverable(s, k) && Bounded(s, bound)
    ensures ExchangeStep(s, Act(m.dst, Receive(m, false, 0)), k, s') && Deliverable(s', k)
    ensures Bounded(s', bound) && Weight(s'.net, bound) < Weight(s.net, bound)
  {
    var step := Act(m.dst, Receive(m, false, 0));
    s' := Apply(s, step);
    QuietStepDrains(s, step, bound);
    NetAfter(s, step, s');
    ReplyIsNewer(s.peers[m.dst], m.dst, m, false, 0);
  }

  ghost predicate DeliveriesOnly(steps: seq<Step>, k: Key)
  {
    forall st | st in steps :: st.Act? && st.call.Receive? && st.call.msg.key == k
  }

  lemma DeliveriesSnoc(steps: seq<Step>, m: Msg, k: Key)
    requires DeliveriesOnly(steps, k) && m.key == k
    ensures DeliveriesOnly(steps + [Act(m.dst, Receive(m, false, 0))], k)
  {
  }

  /** Delivering all that is in flight, and all that is answered, comes to an end. */
  lemma {:induction false} DrainFrom(s0: System, steps0: seq<Step>, s: System, k: Key, bound: nat)
      returns (steps: seq<Step>, s': System)
    requires ExchangeRun(s0, steps0, k, s) && DeliveriesOnly(steps0, k) && Deliverable(s, k) && Bounded(s, bound)
    ensures ExchangeRun(s0, steps, k, s') && DeliveriesOnly(steps, k) && Drained(s', k)
    decreases Weight(s.net, bound)
  {
    if Drained(s, k) {
      return steps0, s;
    }
    var m :| m in s.net && m.key == k;
    var s1 := DeliveryStep(s, m, k, bound);
    ExchangeSnoc(s0, steps0, k, s, Act(m.dst, Receive(m, false, 0)), s1);
    DeliveriesSnoc(steps0, m, k);
    steps, s' := DrainFrom(s0, steps0 + [Act(m.dst, Receive(m, false, 0))], s1, k, bound);
  }

  lemma {:induction false} DeliveriesAreARun(s: System, steps: seq<Step>, k: Key, s': System)
    requires ExchangeRun(s, steps, k, s') && DeliveriesOnly(steps, k)
    ensures DeliveryRun(s, steps, s')
  {
    if steps != [] {
      var last := |steps| - 1;
      var m :| ExchangeRun(s, steps[..last], k, m) && ExchangeStep(m, steps[last], k, s');
      assert steps[last] in steps && forall st | st in steps[..last] :: st in steps;
      DeliveriesAreARun(s, steps[..last], k, m);
      assert Run(s, steps[..last], m) && CanStep(m, steps[last]);
    }
  }

  lemma DrainExchange(s: System, k: Key) returns (steps: seq<Step>, s': System)
    requires Deliverable(s, k)
    ensures ExchangeRun(s, steps, k, s') && DeliveryRun(s, steps, s') && DeliveriesOnly(steps, k) && Drained(s', k)
  {
    var bound := BoundExists(s);
    steps, s' := DrainFrom(s, [], s, k, bound);
    DeliveriesAreARun(s, steps, k, s');
  }

  // ----- Runs that complete a download -----

  /** `x` completed a download of `h` for `k`; nothing else happened. */
  ghost predicate CompletedAt(s: System, s': System, x: PeerId, k: Key, h: Hash, now: int)
  {
    && x in s.peers && x in s'.peers && s'.net == s.net && s'.peers == s.peers[x := s'.peers[x]]
    && s'.peers[x].tracked == s.peers[x].tracked && k in s'.peers[x].rows
    && s'.peers[x].rows[k].hash == h && s'.peers[x].rows[k].modified == now / 1000
    && s'.peers[x].rows[k].version == VersionKept(s.peers[x], k)
  }

  lemma LocalStep(s: System, x: PeerId, a: Call, k: Key) returns (s': System)
    requires x in s.peers && Enabled(s.peers[x], x, a) && Proceeding(a) && !a.Receive? && !GivesUp(s.peers[x], a, k)
    ensures ExchangeStep(s, Act(x, a), k, s')
    ensures s'.net == s.net && s'.peers == s.peers[x := Handle(s.peers[x], x, a).peer]
  {
    s' := Apply(s, Act(x, a));
    match a {
      case Take(t) => TakeTouchesNoRow(s.peers[x], t);
      case Execute(t, sending) => ExecuteTouchesNoRow(s.peers[x], t, sending);
      case Respond(_, _, _, _) => RespondSeenFrom(s.peers[x], a, k);
    }
    assert Handle(s.peers[x], x, a).out == {};
    assert s.net + multiset({}) == s.net;
  }

  lemma RequestCompletes(s: System, x: PeerId, k: Key, h: Hash, now: int) returns (step: Step, s': System)
    requires x in s.peers && k.repo in s.peers[x].tracked && Storable(k.path)
    requires Plain(h) && h != NoHash && Requested(s.peers[x], k, h)
    ensures ExchangeStep(s, step, k, s') && CompletedAt(s, s', x, k, h, now)
  {
    var a := Respond(k.path, h, Inline(true, 1), now);
    step := Act(x, a);
    s' := LocalStep(s, x, a, k);
    RespondSeenFrom(s.peers[x], a, k);
  }

  /** A step of `x` that leaves its rows alone. */
  ghost predicate Prepared(s: System, s': System, x: PeerId)
  {
    && x in s.peers && x in s'.peers && s'.net == s.net && s'.peers == s.peers[x := s'.peers[x]]
    && s'.peers[x].rows == s.peers[x].rows && s'.peers[x].tracked == s.peers[x].tracked
  }

  lemma TaskIsRequested(s: System, x: PeerId, k: Key, h: Hash) returns (step: Step, s': System)
    requires x in s.peers && Plain(h) && InHand(s.peers[x], k, h)
    ensures ExchangeStep(s, step, k, s') && Prepared(s, s', x) && Requested(s'.peers[x], k, h)
  {
    var t :| t in s.peers[x].taken && WorkFor(t, k, h);
    step := Act(x, Execute(t, Sent));
    s' := LocalStep(s, x, Execute(t, Sent), k);
    ExecuteTouchesNoRow(s.peers[x], t, Sent);
  }

  lemma TaskIsTaken(s: System, x: PeerId, k: Key, h: Hash) returns (step: Step, s': System)
    requires x in s.peers && InQueue(s.peers[x], k, h)
    ensures ExchangeStep(s, step, k, s') && Prepared(s, s', x) && InHand(s'.peers[x], k, h)
  {
    var t :| t in TasksIn(s.peers[x].queued, k.repo) && WorkFor(t, k, h);
    step := Act(x, Take(t));
    s' := LocalStep(s, x, Take(t), k);
    TakeTouchesNoRow(s.peers[x], t);
    assert t in s'.peers[x].taken;
  }

  lemma CompletedAfter(s: System, m: System, s': System, x: PeerId, k: Key, h: Hash, now: int)
    requires Prepared(s, m, x) && CompletedAt(m, s', x, k, h, now)
    ensures CompletedAt(s, s', x, k, h, now)
  {
  }

  lemma HandCompletes(s0: System, steps0: seq<Step>, s: System, x: PeerId, k: Key, h: Hash, now: int)
      returns (steps: seq<Step>, s': System)
    requires ExchangeRun(s0, steps0, k, s) && x in s.peers && k.repo in s.peers[x].tracked && Storable(k.path)
    requires Plain(h) && h != NoHash && InHand(s.peers[x], k, h)
    ensures ExchangeRun(s0, steps, k, s') && CompletedAt(s, s', x, k, h, now)
  {
    var step1, m := TaskIsRequested(s, x, k, h);
    ExchangeSnoc(s0, steps0, k, s, step1, m);
    var step2;
    step2, s' := RequestCompletes(m, x, k, h, now);
    ExchangeSnoc(s0, steps0 + [step1], k, m, step2, s');
    CompletedAfter(s, m, s', x, k, h, now);
    steps := steps0 + [step1] + [step2];
  }

  /** Whatever a peer is busy with can complete. */
  lemma BusyCompletes(s0: System, steps0: seq<Step>, s: System, x: PeerId, k: Key, h: Hash, now: int)
      returns (steps: seq<Step>, s': System)
    requires ExchangeRun(s0, steps0, k, s) && x in s.peers && k.repo in s.peers[x].tracked && Storable(k.path)
    requires Busy(s.peers[x], k, h)
    ensures ExchangeRun(s0, steps, k, s') && CompletedAt(s, s', x, k, h, now)
  {
    if Requested(s.peers[x], k, h) {
      var step;
      step, s' := RequestCompletes(s, x, k, h, now);
      ExchangeSnoc(s0, steps0, k, s, step, s');
      steps := steps0 + [step];
    } else if InHand(s.peers[x], k, h) {
      steps, s' := HandCompletes(s0, steps0, s, x, k, h, now);
    } else {
      var step, m := TaskIsTaken(s, x, k, h);
      ExchangeSnoc(s0, steps0, k, s, step, m);
      steps, s' := HandCompletes(s0, steps0 + [step], m, x, k, h, now);
      CompletedAfter(s, m, s', x, k, h, now);
    }
  }

  lemma {:induction false} DeliveriesKeepBusy(s: System, steps: seq<Step>, k: Key, s': System, x: PeerId, h: Hash)
    requires ExchangeRun(s, steps, k, s') && DeliveriesOnly(steps, k) && x in s.peers && Busy(s.peers[x], k, h)
    ensures x in s'.peers && Busy(s'.peers[x], k, h) && s'.peers[x].tracked == s.peers[x].tracked
  {
    if steps != [] {
      var last := |steps| - 1;
      var m :| ExchangeRun(s, steps[..last], k, m) && ExchangeStep(m, steps[last], k, s');
      assert steps[last] in steps && forall st | st in steps[..last] :: st in steps;
      DeliveriesKeepBusy(s, steps[..last], k, m, x, h);
      var c := steps[last].call;
      if steps[last].who == x {
        ReceiveBusy(m.peers[x], x, c.msg, c.missing, c.now, k, h);
        UpdateRows(m.peers[x], x, c.msg, c.missing, c.now);
      }
    }
  }

  // ----- Runs that end in disagreement -----

  /** A download of other content than `y` ends up with, completed at `x` after the exchange. */
  lemma LateDownloadSpoils(s: System, steps0: seq<Step>, s1: System, x: PeerId, y: PeerId, k: Key, g: Hash)
      returns (steps: seq<Step>, s': System)
    requires ExchangeRun(s, steps0, k, s1) && DeliveriesOnly(steps0, k) && Drained(s1, k) && x != y
    requires x in s.peers && k.repo in s.peers[x].tracked && Storable(k.path) && Busy(s.peers[x], k, g)
    requires y in s1.peers && HashAt(s1, y, k) != g
    ensures ExchangeRun(s, steps, k, s') && Drained(s', k) && !Agree(s', x, y, k) && !Agree(s', y, x, k)
  {
    DeliveriesKeepBusy(s, steps0, k, s1, x, g);
    steps, s' := BusyCompletes(s, steps0, s1, x, k, g, 0);
    assert s'.peers[y] == s1.peers[y];
  }

  lemma DisturbedMayDisagree(s: System, p: PeerId, q: PeerId, k: Key) returns (steps: seq<Step>, s': System)
    requires Exchanging(s, p, q, k) && HashAt(s, p, k) == HashAt(s, q, k) && !Converges(s, p, q, k)
    ensures ExchangeRun(s, steps, k, s') && Drained(s', k) && !Agree(s', p, q, k)
  {
    var h := HashAt(s, p, k);
    var x, y := p, q;
    if OnlyBusy(s.peers[p], k, h) {
      x, y := q, p;
    }
    var g :| Busy(s.peers[x], k, g) && g != h;
    var steps1, s1 := DrainExchange(s, k);
    AgreementStays(s, steps1, s1, p, q, k);
    steps, s' := LateDownloadSpoils(s, steps1, s1, x, y, k, g);
  }

  lemma RefusedDisagrees(s: System, p: PeerId, q: PeerId, k: Key) returns (steps: seq<Step>, s': System)
    requires Exchanging(s, p, q, k) && HashAt(s, p, k) != HashAt(s, q, k) && Refused(k.path)
    ensures ExchangeRun(s, steps, k, s') && Drained(s', k) && !Agree(s', p, q, k)
  {
    steps, s' := DrainExchange(s, k);
    RefusedPathNeverReplicates(s, steps, s', p, k);
    RefusedPathNeverReplicates(s, steps, s', q, k);
  }

  lemma DuelEnds(s: System, a: PeerId, b: PeerId, k: Key, ra: Row, rb: Option<Row>)
    requires Duel(s, a, b, k, ra, rb) && Drained(s, k)
    ensures a in s.peers && b in s.peers && HashAt(s, a, k) == ra.hash && HashAt(s, b, k) == ra.hash
  {
  }

  lemma DuelBegins(s: System, a: PeerId, b: PeerId, k: Key)
    requires a in s.peers && b in s.peers && a != b && k in s.peers[a].rows && !Refused(k.path)
    requires k.repo in s.peers[a].tracked && k.repo in s.peers[b].tracked
    requires Beats(a, b, s.peers[a].rows[k], RowAt(s, b, k))
    requires exists m | m in s.net :: Carries(m, a, b, k, s.peers[a].rows[k])
    requires forall m | m in s.net && m.key == k ::
               Carries(m, a, b, k, s.peers[a].rows[k]) || FromLoser(m, a, b, k, RowAt(s, b, k))
    ensures Duel(s, a, b, k, s.peers[a].rows[k], RowAt(s, b, k)) && Deliverable(s, k)
  {
  }

  /** What the peers hold once deliveries alone have drained the exchange that `a` wins. */
  lemma WinnerSpreads(s: System, a: PeerId, b: PeerId, k: Key) returns (steps: seq<Step>, s': System)
    requires a in s.peers && b in s.peers && a != b && k in s.peers[a].rows && !Refused(k.path)
    requires k.repo in s.peers[a].tracked && k.repo in s.peers[b].tracked
    requires Beats(a, b, s.peers[a].rows[k], RowAt(s, b, k))
    requires exists m | m in s.net :: Carries(m, a, b, k, s.peers[a].rows[k])
    requires forall m | m in s.net && m.key == k ::
               Carries(m, a, b, k, s.peers[a].rows[k]) || FromLoser(m, a, b, k, RowAt(s, b, k))
    ensures ExchangeRun(s, steps, k, s') && DeliveriesOnly(steps, k) && Drained(s', k)
    ensures a in s'.peers && b in s'.peers
    ensures HashAt(s', a, k) == s.peers[a].rows[k].hash && HashAt(s', b, k) == s.peers[a].rows[k].hash
  {
    DuelBegins(s, a, b, k);
    steps, s' := DrainExchange(s, k);
    DuelRun(s, steps, s', a, b, k, s.peers[a].rows[k], RowAt(s, b, k));
    DuelEnds(s', a, b, k, s.peers[a].rows[k], RowAt(s, b, k));
  }

  lemma StaleDownloadSpoils(s: System, a: PeerId, b: PeerId, k: Key, x: PeerId, y: PeerId, g: Hash)
      returns (steps: seq<Step>, s': System)
    requires a in s.peers && b in s.peers && a != b && k in s.peers[a].rows && !Refused(k.path)
    requires k.repo in s.peers[a].tracked && k.repo in s.peers[b].tracked
    requires Beats(a, b, s.peers[a].rows[k], RowAt(s, b, k))
    requires exists m | m in s.net :: Carries(m, a, b, k, s.peers[a].rows[k])
    requires forall m | m in s.net && m.key == k ::
               Carries(m, a, b, k, s.peers[a].rows[k]) || FromLoser(m, a, b, k, RowAt(s, b, k))
    requires ((x == a && y == b) || (x == b && y == a)) && Busy(s.peers[x], k, g) && g != s.peers[a].rows[k].hash
    ensures ExchangeRun(s, steps, k, s') && Drained(s', k) && !Agree(s', a, b, k) && !Agree(s', b, a, k)
  {
    var steps1, s1 := WinnerSpreads(s, a, b, k);
    steps, s' := LateDownloadSpoils(s, steps1, s1, x, y, k, g);
  }

  // ----- A tie lost by a download -----

  /** Each holds the other's content, and so does every message on its way to it. */
  ghost predicate Swapped(s: System, a: PeerId, b: PeerId, k: Key, ha: Hash, hb: Hash)
  {
    && a in s.peers && b in s.peers && HashAt(s, a, k) == hb && HashAt(s, b, k) == ha
    && forall m | m in s.net && m.key == k :: (m.dst == a && m.hash == hb) || (m.dst == b && m.hash == ha)
  }

  lemma {:induction false} SwappedRun(s: System, steps: seq<Step>, a: PeerId, b: PeerId, k: Key, ha: Hash, hb: Hash,
                                      s': System)
    requires Swapped(s, a, b, k, ha, hb) && ExchangeRun(s, steps, k, s') && DeliveriesOnly(steps, k)
    ensures Swapped(s', a, b, k, ha, hb)
  {
    if steps != [] {
      var last := |steps| - 1;
      var m :| ExchangeRun(s, steps[..last], k, m) && ExchangeStep(m, steps[last], k, s');
      assert steps[last] in steps && forall st | st in steps[..last] :: st in steps;
      SwappedRun(s, steps[..last], a, b, k, ha, hb, m);
      SwappedStep(m, steps[last], a, b, k, ha, hb, s');
    }
  }

  lemma SwappedStep(s: System, step: Step, a: PeerId, b: PeerId, k: Key, ha: Hash, hb: Hash, s': System)
    requires Swapped(s, a, b, k, ha, hb) && ExchangeStep(s, step, k, s')
    requires step.call.Receive? && step.call.msg.key == k
    ensures Swapped(s', a, b, k, ha, hb)
  {
    var c, p := step.call, s.peers[step.who];
    NetAfter(s, step, s');
    assert LocalVersion(p, step.who, k).hash == c.msg.hash;
    EqualHashChangesNothing(p, step.who, c.msg, c.missing, c.now);
    UpdateReplies(p, step.who, c.msg, c.missing, c.now);
  }

  lemma LastStepApart(steps: seq<Step>, more: seq<Step>)
    requires more != []
    ensures steps + more == steps + more[..|more| - 1] + [more[|more| - 1]]
  {
  }

  lemma {:induction false} ExchangeConcat(s: System, steps: seq<Step>, k: Key, m: System, more: seq<Step>, s': System)
    requires ExchangeRun(s, steps, k, m) && ExchangeRun(m, more, k, s')
    ensures ExchangeRun(s, steps + more, k, s')
  {
    if more == [] {
      assert steps + more == steps;
    } else {
      var last := |more| - 1;
      var x :| ExchangeRun(m, more[..last], k, x) && ExchangeStep(x, more[last], k, s');
      ExchangeConcat(s, steps, k, m, more[..last], x);
      ExchangeSnoc(s, steps + more[..last], k, x, more[last], s');
      LastStepApart(steps, more);
    }
  }

  /** An offer that is accepted: the receiver holds its content and answers nothing. */
  lemma AcceptedStep(s: System, m: Msg, k: Key) returns (s': System)
    requires m in s.net && m.dst in s.peers && m.key == k && k.repo in s.peers[m.dst].tracked
    requires Accepts(s.peers[m.dst], m.dst, m)
    ensures ExchangeStep(s, Act(m.dst, Receive(m, false, 0)), k, s') && s'.net == s.net - multiset{m}
    ensures m.dst in s'.peers && s'.peers == s.peers[m.dst := s'.peers[m.dst]]
    ensures HashAt(s', m.dst, k) == m.hash && s'.peers[m.dst].tracked == s.peers[m.dst].tracked
  {
    s' := Apply(s, Act(m.dst, Receive(m, false, 0)));
    UpdateRows(s.peers[m.dst], m.dst, m, false, 0);
    UpdateReplies(s.peers[m.dst], m.dst, m, false, 0);
    ResolveIsLastWriteWins(LocalVersion(s.peers[m.dst], m.dst, k), RemoteVersion(m));
    assert s.net - multiset{m} + multiset({}) == s.net - multiset{m};
  }

  lemma RedatedAccepts(p: Peer, p1: Peer, a: PeerId, b: PeerId, k: Key, rb: Row, m: Msg)
    requires k in p.rows && k in p1.rows && p1.rows[k].hash == p.rows[k].hash && p1.rows[k].version == p.rows[k].version
    requires p1.rows[k].modified < rb.modified && rb.version == p.rows[k].version && !Refused(k.path)
    requires Beats(a, b, p.rows[k], Some(rb)) && Carries(m, b, a, k, rb)
    ensures Accepts(p1, a, m)
  {
    ResolveIsLastWriteWins(LocalVersion(p1, a, k), RemoteVersion(m));
  }

  lemma BeatenAccepts(p: Peer, a: PeerId, b: PeerId, k: Key, ra: Row, rb: Row, m: Msg)
    requires k in p.rows && p.rows[k] == rb && Beats(a, b, ra, Some(rb)) && Carries(m, a, b, k, ra) && !Refused(k.path)
    ensures Accepts(p, b, m)
  {
    ResolveIsLastWriteWins(LocalVersion(p, b, k), RemoteVersion(m));
  }

  /** The winner, dated back by its own download, takes over the loser's row ... */
  lemma WinnerGivesIn(s: System, s1: System, a: PeerId, b: PeerId, k: Key, rb: Row, wb: Msg) returns (s2: System)
    requires a in s.peers && b in s.peers && a != b && k in s.peers[a].rows && !Refused(k.path)
    requires k.repo in s.peers[a].tracked && wb in s.net && Carries(wb, b, a, k, rb)
    requires Beats(a, b, s.peers[a].rows[k], Some(rb)) && rb.version == s.peers[a].rows[k].version
    requires CompletedAt(s, s1, a, k, s.peers[a].rows[k].hash, 1000 * (rb.modified - 1))
    ensures ExchangeStep(s1, Act(a, Receive(wb, false, 0)), k, s2) && s2.net == s.net - multiset{wb}
    ensures a in s2.peers && b in s2.peers && s2.peers[b] == s.peers[b] && HashAt(s2, a, k) == rb.hash
    ensures s2.peers.Keys == s.peers.Keys
  {
    RedatedAccepts(s.peers[a], s1.peers[a], a, b, k, rb, wb);
    s2 := AcceptedStep(s1, wb, k);
  }

  /** ... and the loser the winner's. */
  lemma TwoHandovers(s: System, s1: System, a: PeerId, b: PeerId, k: Key, rb: Row, wa: Msg, wb: Msg)
      returns (s2: System, s3: System)
    requires a in s.peers && b in s.peers && a != b && k in s.peers[a].rows && !Refused(k.path)
    requires k.repo in s.peers[a].tracked && k.repo in s.peers[b].tracked && RowAt(s, b, k) == Some(rb)
    requires Beats(a, b, s.peers[a].rows[k], Some(rb)) && rb.version == s.peers[a].rows[k].version
    requires CompletedAt(s, s1, a, k, s.peers[a].rows[k].hash, 1000 * (rb.modified - 1))
    requires wa in s.net && wb in s.net && Carries(wa, a, b, k, s.peers[a].rows[k]) && Carries(wb, b, a, k, rb)
    ensures ExchangeStep(s1, Act(a, Receive(wb, false, 0)), k, s2)
    ensures ExchangeStep(s2, Act(b, Receive(wa, false, 0)), k, s3)
    ensures a in s3.peers && b in s3.peers && HashAt(s3, a, k) == rb.hash && HashAt(s3, b, k) == s.peers[a].rows[k].hash
    ensures forall m | m in s3.net :: m in s.net
  {
    s2 := WinnerGivesIn(s, s1, a, b, k, rb, wb);
    assert wa != wb && wa in s2.net;
    BeatenAccepts(s.peers[b], a, b, k, s.peers[a].rows[k], rb, wa);
    s3 := AcceptedStep(s2, wa, k);
    assert s3.peers[a] == s2.peers[a];
  }

  lemma SwappedMayDrain(s: System, steps: seq<Step>, s3: System, a: PeerId, b: PeerId, k: Key, ha: Hash, hb: Hash)
      returns (steps': seq<Step>, s': System)
    requires ExchangeRun(s, steps, k, s3) && Swapped(s3, a, b, k, ha, hb) && ha != hb && Deliverable(s3, k)
    ensures ExchangeRun(s, steps', k, s') && Drained(s', k) && !Agree(s', a, b, k) && !Agree(s', b, a, k)
  {
    var more;
    more, s' := DrainExchange(s3, k);
    SwappedRun(s3, more, a, b, k, ha, hb, s');
    ExchangeConcat(s, steps, k, s3, more, s');
    steps' := steps + more;
  }

  lemma SwappedAfter(s: System, s3: System, a: PeerId, b: PeerId, k: Key, rb: Row)
    requires a in s.peers && b in s.peers && a in s3.peers && b in s3.peers && k in s.peers[a].rows
    requires HashAt(s3, a, k) == rb.hash && HashAt(s3, b, k) == s.peers[a].rows[k].hash
    requires forall m | m in s3.net :: m in s.net
    requires forall m | m in s.net && m.key == k :: Carries(m, a, b, k, s.peers[a].rows[k]) || Carries(m, b, a, k, rb)
    ensures Swapped(s3, a, b, k, s.peers[a].rows[k].hash, rb.hash) && Deliverable(s3, k)
  {
  }

  lemma RedatedWinnerSwaps(s: System, a: PeerId, b: PeerId, k: Key, rb: Row) returns (steps: seq<Step>, s': System)
    requires a in s.peers && b in s.peers && a != b && k in s.peers[a].rows && !Refused(k.path)
    requires k.repo in s.peers[a].tracked && k.repo in s.peers[b].tracked && RowAt(s, b, k) == Some(rb)
    requires Beats(a, b, s.peers[a].rows[k], Some(rb)) && rb.version == s.peers[a].rows[k].version
    requires Busy(s.peers[a], k, s.peers[a].rows[k].hash)
    requires exists m | m in s.net :: Carries(m, a, b, k, s.peers[a].rows[k])
    requires exists m | m in s.net :: Carries(m, b, a, k, rb)
    requires forall m | m in s.net && m.key == k ::
               Carries(m, a, b, k, s.peers[a].rows[k]) || Carries(m, b, a, k, rb)
    ensures ExchangeRun(s, steps, k, s') && Drained(s', k) && !Agree(s', a, b, k) && !Agree(s', b, a, k)
  {
    var ha := s.peers[a].rows[k].hash;
    var wa :| wa in s.net && Carries(wa, a, b, k, s.peers[a].rows[k]);
    var wb :| wb in s.net && Carries(wb, b, a, k, rb);
    var steps1, s1 := BusyCompletes(s, [], s, a, k, ha, 1000 * (rb.modified - 1));
    var s2, s3 := TwoHandovers(s, s1, a, b, k, rb, wa, wb);
    ExchangeSnoc(s, steps1, k, s1, Act(a, Receive(wb, false, 0)), s2);
    var steps2 := steps1 + [Act(a, Receive(wb, false, 0))];
    ExchangeSnoc(s, steps2, k, s2, Act(b, Receive(wa, false, 0)), s3);
    SwappedAfter(s, s3, a, b, k, rb);
    steps, s' := SwappedMayDrain(s, steps2 + [Act(b, Receive(wa, false, 0))], s3, a, b, k, ha, rb.hash);
  }

  // ----- The theorem -----

  lemma UnsafeContestMayDisagree(s: System, p: PeerId, q: PeerId, k: Key) returns (steps: seq<Step>, s': System)
    requires Exchanging(s, p, q, k) && HashAt(s, p, k) != HashAt(s, q, k) && !Refused(k.path)
    requires !Converges(s, p, q, k)
    ensures ExchangeRun(s, steps, k, s') && Drained(s', k) && !Agree(s', p, q, k)
  {
    var a, b := WinnerOf(s, p, q, k);
    var h := s.peers[a].rows[k].hash;
    if !OnlyBusy(s.peers[b], k, h) {
      var g :| Busy(s.peers[b], k, g) && g != h;
      steps, s' := StaleDownloadSpoils(s, a, b, k, b, a, g);
    } else if !OnlyBusy(s.peers[a], k, h) {
      var g :| Busy(s.peers[a], k, g) && g != h;
      steps, s' := StaleDownloadSpoils(s, a, b, k, a, b, g);
    } else {
      assert HasOffered(s, a, b, k) && HasOffered(s, b, a, k);
      assert RowAt(s, a, k) == Some(s.peers[a].rows[k]);
      steps, s' := RedatedWinnerSwaps(s, a, b, k, RowAt(s, b, k).value);
    }
  }

  lemma UnsafeMayDisagree(s: System, p: PeerId, q: PeerId, k: Key) returns (steps: seq<Step>, s': System)
    requires Exchanging(s, p, q, k) && !Converges(s, p, q, k)
    ensures ExchangeRun(s, steps, k, s') && Drained(s', k) && !Agree(s', p, q, k)
  {
    if HashAt(s, p, k) == HashAt(s, q, k) {
      steps, s' := DisturbedMayDisagree(s, p, q, k);
    } else if Refused(k.path) {
      steps, s' := RefusedDisagrees(s, p, q, k);
    } else {
      steps, s' := UnsafeContestMayDisagree(s, p, q, k);
    }
  }

  /** However it goes on, the peers agree once the messages about the file are delivered. */
  ghost predicate AlwaysAgree(s: System, p: PeerId, q: PeerId, k: Key)
  {
    forall steps, s' | ExchangeRun(s, steps, k, s') && Drained(s', k) :: Agree(s', p, q, k)
  }

  /** Two peers have exchanged their rows.  Every further run, with downloads that are dispatched,
      requested, retried and completed in any order, ends in agreement, exactly when no download
      is under way that could bring in other content or make the winner lose a tie, and the path
      is one that peers accept if they have to change anything. */
  lemma TwoPeersConvergeIff(s: System, p: PeerId, q: PeerId, k: Key)
    requires Exchanging(s, p, q, k)
    ensures AlwaysAgree(s, p, q, k) <==> Converges(s, p, q, k)
  {
    if Converges(s, p, q, k) {
      forall steps, s' | ExchangeRun(s, steps, k, s') && Drained(s', k) ensures Agree(s', p, q, k) {
        SafeExchangeAgrees(s, steps, p, q, k, s');
      }
    } else {
      var steps, s' := UnsafeMayDisagree(s, p, q, k);
      assert !AlwaysAgree(s, p, q, k);
    }
  }
}
