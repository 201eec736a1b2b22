/** The states in which the promises fail are not artificial: new peers that each index a file
    reach them in a few steps. */
module Reachable {
  import opened Base
  import opened PeerIds
  import opened Conflict
  import opened Clocks
  import opened TaskQueue
  import opened Replication
  import opened Causality
  import opened Convergence
  import opened Downloads
  import opened Fetches
  import opened Gossip
  import opened Ties
  import opened Redating
  import opened Exchange

  // ----- New peers that index a file -----

  /** A peer that tracks the repository and holds one row of version 1. */
  function Holding(me: PeerId, k: Key, row: Row): Peer
  {
    NewPeer.(tracked := {k.repo}, lamport := 1, clock := map[me := 1], rows := map[k := row])
  }

  /** The row that the start-up scan stores: its time is in milliseconds. */
  function ScanRow(f: DiskFile, now: int): Row
  {
    Row(f.hash, f.size, 1, f.modified, false, now, f.mode, map[])
  }

  /** The row of a change event: its time is in seconds. */
  function EditRow(me: PeerId, c: Change, now: int): Row
  {
    Row(c.hash, c.size, 1, c.modified, false, now, c.mode, map[me := 1])
  }

  /** A call by which a new peer comes to hold the row, before it is connected to anybody. */
  ghost predicate Indexes(me: PeerId, k: Key, a: Call, row: Row)
  {
    var tracked := NewPeer.(tracked := {k.repo});
    !a.Receive? && !a.Restart? && Enabled(tracked, me, a) && Handle(tracked, me, a) == Effect(Holding(me, k, row), {})
  }

  lemma ScanIndexes(me: PeerId, k: Key, f: DiskFile, now: int)
    requires !IsTemp(k.path)
    ensures Indexes(me, k, ScanFile(k, f, {}, now), ScanRow(f, now))
  {
    var e := HandleScanFile(NewPeer.(tracked := {k.repo}), me, k, f, {}, now);
    assert e.peer.clock == map[me := 1];
    assert e.peer.rows == map[k := ScanRow(f, now)];
    assert e.out == {};
  }

  lemma EditIndexes(me: PeerId, k: Key, c: Change, now: int)
    requires !IsTemp(k.path) && c.kind.Add?
    ensures Indexes(me, k, Local(k, c, {}, now), EditRow(me, c, now))
  {
    var e := HandleLocal(NewPeer.(tracked := {k.repo}), me, k, c, {}, now);
    assert e.peer.clock == map[me := 1];
    assert e.peer.rows == map[k := EditRow(me, c, now)];
    assert e.out == {};
  }

  lemma NewPeerTracks(me: PeerId, r: RepoId)
    ensures Handle(NewPeer, me, AddRepo(r)) == Effect(NewPeer.(tracked := {r}), {})
  {
    assert NewPeer.tracked + {r} == {r};
  }

  /** A call that sends nothing, of a peer that differs from `base` alone. */
  lemma SilentStep(base: map<PeerId, Peer>, s: System, q: PeerId, before: Peer, a: Call, after: Peer)
    requires s.peers == base[q := before] && Enabled(before, q, a) && !a.Receive?
    requires Handle(before, q, a) == Effect(after, {})
    ensures CanStep(s, Act(q, a)) && Apply(s, Act(q, a)) == System(base[q := after], s.net)
  {
    assert s.peers[q := after] == base[q := after];
    assert s.net + multiset({}) == s.net;
  }

  lemma SilentCall(s0: System, steps: seq<Step>, base: map<PeerId, Peer>, s: System,
                   q: PeerId, before: Peer, a: Call, after: Peer) returns (s': System)
    requires Run(s0, steps, s) && s.peers == base[q := before] && Enabled(before, q, a) && !a.Receive?
    requires Handle(before, q, a) == Effect(after, {})
    ensures Run(s0, steps + [Act(q, a)], s') && s'.peers == base[q := after] && s'.net == s.net
  {
    SilentStep(base, s, q, before, a, after);
    RunSnoc(s0, steps, s, Act(q, a));
    s' := Apply(s, Act(q, a));
  }

  ghost predicate Restartless(steps: seq<Step>) { forall st | st in steps :: st.Act? && !st.call.Restart? }

  lemma RestartlessSnoc(steps: seq<Step>, q: PeerId, a: Call)
    requires Restartless(steps) && !a.Restart?
    ensures Restartless(steps + [Act(q, a)])
  {
  }

  lemma OneIndexes(s0: System, steps: seq<Step>, s: System, q: PeerId, k: Key, a: Call, row: Row)
      returns (steps': seq<Step>, s': System)
    requires Run(s0, steps, s) && q in s.peers && s.peers[q] == NewPeer && Indexes(q, k, a, row) && Restartless(steps)
    ensures Run(s0, steps', s') && s' == System(s.peers[q := Holding(q, k, row)], s.net) && Restartless(steps')
  {
    var tracked, base := NewPeer.(tracked := {k.repo}), s.peers;
    assert base[q := NewPeer] == base;
    NewPeerTracks(q, k.repo);
    var m := SilentCall(s0, steps, base, s, q, NewPeer, AddRepo(k.repo), tracked);
    var steps1 := steps + [Act(q, AddRepo(k.repo))];
    s' := SilentCall(s0, steps1, base, m, q, tracked, a, Holding(q, k, row));
    steps' := steps1 + [Act(q, a)];
    RestartlessSnoc(steps, q, AddRepo(k.repo));
    RestartlessSnoc(steps1, q, a);
  }

  /** Three peers hold a row for the same path, and nothing is in flight. */
  ghost predicate ThreeHold(s: System, p: PeerId, x: PeerId, y: PeerId, k: Key, rp: Row, rx: Row, ry: Row)
  {
    && s.peers.Keys == {p, x, y} && s.net == multiset{}
    && s.peers[p] == Holding(p, k, rp) && s.peers[x] == Holding(x, k, rx) && s.peers[y] == Holding(y, k, ry)
  }

  lemma ThreeHoldFrom(base: map<PeerId, Peer>, s: System, p: PeerId, x: PeerId, y: PeerId, k: Key,
                      rp: Row, rx: Row, ry: Row)
    requires base.Keys == {p, x, y} && p != x && x != y && y != p && s.net == multiset{}
    requires s.peers == base[p := Holding(p, k, rp)][x := Holding(x, k, rx)][y := Holding(y, k, ry)]
    ensures ThreeHold(s, p, x, y, k, rp, rx, ry)
  {
  }

  lemma ThreeIndex(s0: System, p: PeerId, x: PeerId, y: PeerId, k: Key,
                   ap: Call, ax: Call, ay: Call, rp: Row, rx: Row, ry: Row)
      returns (steps: seq<Step>, s: System)
    requires Initial(s0) && s0.peers.Keys == {p, x, y} && p != x && x != y && y != p
    requires Indexes(p, k, ap, rp) && Indexes(x, k, ax, rx) && Indexes(y, k, ay, ry)
    ensures Run(s0, steps, s) && ThreeHold(s, p, x, y, k, rp, rx, ry) && Restartless(steps)
  {
    assert p in s0.peers && x in s0.peers && y in s0.peers;
    assert s0.peers[p] == NewPeer && s0.peers[x] == NewPeer && s0.peers[y] == NewPeer;
    var steps1, s1 := OneIndexes(s0, [], s0, p, k, ap, rp);
    var steps2, s2 := OneIndexes(s0, steps1, s1, x, k, ax, rx);
    steps, s := OneIndexes(s0, steps2, s2, y, k, ay, ry);
    ThreeHoldFrom(s0.peers, s, p, x, y, k, rp, rx, ry);
  }

  lemma ThreeScan(s0: System, p: PeerId, x: PeerId, y: PeerId, k: Key,
                  fp: DiskFile, fx: DiskFile, fy: DiskFile, now: int)
      returns (steps: seq<Step>, s: System)
    requires Initial(s0) && s0.peers.Keys == {p, x, y} && p != x && x != y && y != p && !IsTemp(k.path)
    ensures Run(s0, steps, s) && Restartless(steps)
    ensures ThreeHold(s, p, x, y, k, ScanRow(fp, now), ScanRow(fx, now), ScanRow(fy, now))
  {
    ScanIndexes(p, k, fp, now);
    ScanIndexes(x, k, fx, now);
    ScanIndexes(y, k, fy, now);
    steps, s := ThreeIndex(s0, p, x, y, k, ScanFile(k, fp, {}, now), ScanFile(k, fx, {}, now), ScanFile(k, fy, {}, now),
                           ScanRow(fp, now), ScanRow(fx, now), ScanRow(fy, now));
  }

  lemma ThreeEdit(s0: System, p: PeerId, x: PeerId, y: PeerId, k: Key, cp: Change, cx: Change, cy: Change, now: int)
      returns (steps: seq<Step>, s: System)
    requires Initial(s0) && s0.peers.Keys == {p, x, y} && p != x && x != y && y != p && !IsTemp(k.path)
    requires cp.kind.Add? && cx.kind.Add? && cy.kind.Add?
    ensures Run(s0, steps, s)
    ensures ThreeHold(s, p, x, y, k, EditRow(p, cp, now), EditRow(x, cx, now), EditRow(y, cy, now))
  {
    EditIndexes(p, k, cp, now);
    EditIndexes(x, k, cx, now);
    EditIndexes(y, k, cy, now);
    steps, s := ThreeIndex(s0, p, x, y, k, Local(k, cp, {}, now), Local(k, cx, {}, now), Local(k, cy, {}, now),
                           EditRow(p, cp, now), EditRow(x, cx, now), EditRow(y, cy, now));
  }

  // ----- Ties -----

  lemma ThreeHoldTie(s: System, p: PeerId, x: PeerId, y: PeerId, k: Key, rp: Row, rx: Row, ry: Row,
                     edges: Edges, t: int)
    requires ThreeHold(s, p, x, y, k, rp, rx, ry) && p != x && p != y && !Refused(k.path)
    requires edges == {(x, p), (y, p)} && forall r | r in {rp, rx, ry} :: r.version == 1 && r.modified == t
    ensures FullTie(s, edges, k, Stamp(1, t))
  {
    assert rp in {rp, rx, ry} && rx in {rp, rx, ry} && ry in {rp, rx, ry};
    forall q | q in s.peers
      ensures k.repo in s.peers[q].tracked && k in s.peers[q].rows && StampAt(s, q, k) == Stamp(1, t)
    {
      assert q in {p, x, y};
    }
    assert p in s.peers && x in s.peers && y in s.peers;
  }

  lemma GreaterEndsAreMaxima(p: PeerId, x: PeerId, y: PeerId, edges: Edges)
    requires edges == {(x, p), (y, p)} && Less(p, x) && Less(p, y) && x != y
    ensures p != x && p != y && LocalMaximum(edges, x) && LocalMaximum(edges, y)
  {
    Trichotomy(p, x);
    Trichotomy(p, y);
  }

  /** `p` stands between `x` and `y`, which changed the same file in the same second. */
  ghost predicate TieBetween(s: System, edges: Edges, p: PeerId, x: PeerId, y: PeerId, k: Key, top: Stamp)
  {
    && FullTie(s, edges, k, top) && s.peers.Keys == {p, x, y} && edges == {(x, p), (y, p)} && Less(p, x) && Less(p, y)
    && HashAt(s, x, k) != HashAt(s, y, k) && Live(s, x, k) && Live(s, y, k)
    && !Fetching(s.peers[p], k, HashAt(s, x, k)) && !Fetching(s.peers[p], k, HashAt(s, y, k))
  }

  /** New peers reach such a tie, which no exchange settles while downloads date no row above it
      and end at no maximum. */
  lemma UnsettledTieIsReachable(s0: System, p: PeerId, x: PeerId, y: PeerId, k: Key,
                                cp: Change, cx: Change, cy: Change, now: int)
      returns (steps: seq<Step>, s: System, edges: Edges)
    requires Initial(s0) && s0.peers.Keys == {p, x, y} && x != y && Less(p, x) && Less(p, y) && !Refused(k.path)
    requires cp.kind.Add? && cx.kind.Add? && cy.kind.Add? && cp.modified == cx.modified == cy.modified
    requires cx.hash != cy.hash && cx.hash != NoHash && cy.hash != NoHash
    ensures Run(s0, steps, s) && TieBetween(s, edges, p, x, y, k, Stamp(1, cp.modified))
    ensures !CanSettle(s, edges, k, Stamp(1, cp.modified))
  {
    edges := {(x, p), (y, p)};
    GreaterEndsAreMaxima(p, x, y, edges);
    steps, s := ThreeEdit(s0, p, x, y, k, cp, cx, cy, now);
    ThreeHoldTie(s, p, x, y, k, EditRow(p, cp, now), EditRow(x, cx, now), EditRow(y, cy, now), edges, cp.modified);
    assert p in s.peers && x in s.peers && y in s.peers;
    assert HashAt(s, x, k) == cx.hash && HashAt(s, y, k) == cy.hash;
    AgreementReachableIff(s, edges, k, Stamp(1, cp.modified));
  }

  /** A download that completes after the tie does settle it. */
  lemma ADownloadSettlesTheTie(s: System, edges: Edges, p: PeerId, x: PeerId, y: PeerId, k: Key, top: Stamp)
      returns (steps: seq<Step>, n: nat, s': System)
    requires TieBetween(s, edges, p, x, y, k, top)
    ensures GossipRun(s, steps, k, n, s') && LinkedSteps(edges, steps) && OneHash(s', k)
  {
    var z := if HashAt(s, x, k) != HashAt(s, p, k) then x else y;
    assert z in s.peers;
    forall q | q in s.peers && q != p ensures Linked(edges, p, q) { assert q in {p, x, y}; }
    steps, n, s' := LateDownloadSettlesTie(s, edges, z, p, k, top);
  }

  // ----- Rows that flip forever -----

  /** A row that flips forever without any tie. */
  lemma SeesawIsReachable(s0: System, p: PeerId, x: PeerId, y: PeerId, k: Key,
                          fp: DiskFile, fx: DiskFile, fy: DiskFile, now: int)
      returns (steps: seq<Step>, s: System)
    requires Initial(s0) && s0.peers.Keys == {p, x, y} && p != x && x != y && y != p && !Refused(k.path)
    requires fp.hash != NoHash && fx.hash != NoHash && fy.hash != NoHash && fx.hash != fy.hash
    requires fp.modified < fx.modified && fp.modified < fy.modified
    requires now / 1000 < fx.modified && now / 1000 < fy.modified
    ensures Run(s0, steps, s) && Seesaw(s, p, x, y, k, now)
  {
    steps, s := ThreeScan(s0, p, x, y, k, fp, fx, fy, now);
    assert p in s.peers && x in s.peers && y in s.peers;
  }

  lemma ThreeHoldCarousel(s: System, p: PeerId, q: PeerId, r: PeerId, k: Key, rp: Row, rq: Row, rr: Row)
    requires ThreeHold(s, p, q, r, k, rp, rq, rr) && p != q && q != r && r != p && !Refused(k.path)
    requires rp.hash == rr.hash && rp.hash != rq.hash && rp.hash != NoHash && rq.hash != NoHash
    requires forall x | x in {rp, rq, rr} :: x.version == 1 && !x.deleted
    requires rp.modified < rq.modified < rr.modified
    ensures Carousel(s, p, q, r, k)
  {
    assert rp in {rp, rq, rr} && rq in {rp, rq, rr} && rr in {rp, rq, rr};
    assert p in s.peers && q in s.peers && r in s.peers;
  }

  /** Three changes of one file in successive seconds, the first and the last alike. */
  lemma CarouselIsReachable(s0: System, p: PeerId, q: PeerId, r: PeerId, k: Key,
                            cp: Change, cq: Change, cr: Change, now: int)
      returns (steps: seq<Step>, s: System)
    requires Initial(s0) && s0.peers.Keys == {p, q, r} && p != q && q != r && r != p && !Refused(k.path)
    requires cp.kind.Add? && cq.kind.Add? && cr.kind.Add?
    requires cp.hash == cr.hash && cp.hash != cq.hash && cp.hash != NoHash && cq.hash != NoHash
    requires cp.modified < cq.modified < cr.modified
    ensures Run(s0, steps, s) && Carousel(s, p, q, r, k)
  {
    steps, s := ThreeEdit(s0, p, q, r, k, cp, cq, cr, now);
    ThreeHoldCarousel(s, p, q, r, k, EditRow(p, cp, now), EditRow(q, cq, now), EditRow(r, cr, now));
  }

  // ----- A restart that forgets -----

  lemma ScannedForgets(me: PeerId, k: Key, f: DiskFile, now: int)
    ensures var p := Holding(me, k, ScanRow(f, now));
            (forall x :: x in [k] <==> x in p.rows) && At(HandleRestart(p, [k]).peer.clock, me) == 0
  {
    var p := Holding(me, k, ScanRow(f, now));
    assert forall x :: x in [k] <==> x in p.rows;
    LoadedBelow(p, [k], me, 0);
  }

  /** `p` indexes a file and tells `q` about it: `q` then knows of `p`'s first event. */
  lemma ToldAbout(s0: System, steps0: seq<Step>, s: System, p: PeerId, q: PeerId, k: Key, f: DiskFile, now: int)
      returns (steps: seq<Step>, s': System)
    requires Run(s0, steps0, s) && p in s.peers && q in s.peers && p != q && !Refused(k.path)
    requires s.peers[p] == Holding(p, k, ScanRow(f, now)) && Restartless(steps0)
    ensures Run(s0, steps, s') && p in s'.peers && q in s'.peers && s'.peers[p] == s.peers[p]
    ensures At(s'.peers[q].clock, p) >= 1
    ensures Restartless(steps)
  {
    var m := OfferOf(s, p, q, k);
    var offer, delivery := Act(p, KeepMine(k, q)), Act(q, Receive(m, false, now));
    var s1 := OfferStep(s, p, q, k);
    RunSnoc(s0, steps0, s, offer);
    RunSnoc(s0, steps0 + [offer], s1, delivery);
    steps, s' := steps0 + [offer] + [delivery], Apply(s1, delivery);
    RestartlessSnoc(steps0, p, KeepMine(k, q));
    RestartlessSnoc(steps0 + [offer], q, Receive(m, false, now));
    UpdateRows(s.peers[q], q, m, false, now);
    MergedAt(s.peers[q].clock, m.clock, p);
  }

  /** A peer that is restarted after announcing its first file makes the system forget: `q` knows
      more of `p` than `p` does. */
  lemma ForgetfulRestartIsReachable(s0: System, p: PeerId, q: PeerId, r: PeerId, k: Key, f: DiskFile, now: int)
      returns (steps: seq<Step>, s: System)
    requires Initial(s0) && s0.peers.Keys == {p, q, r} && p != q && q != r && r != p && !Refused(k.path)
    ensures Run(s0, steps, s) && CanStep(s, Act(p, Restart([k])))
    ensures Causal(s) && !Causal(Apply(s, Act(p, Restart([k]))))
  {
    var steps1, s1 := ThreeScan(s0, p, q, r, k, f, f, f, now);
    assert p in s1.peers && q in s1.peers;
    steps, s := ToldAbout(s0, steps1, s1, p, q, k, f, now);
    EveryRunIsCausal(s0, steps, s);
    ScannedForgets(p, k, f, now);
    RestartIsCausalIff(s, p, [k]);
  }

  // ----- A download that undoes an exchange -----

  /** A peer that only tracks the repository. */
  function Tracking(r: RepoId): Peer { NewPeer.(tracked := {r}) }

  ghost predicate Pair(s: System, p: PeerId, pp: Peer, q: PeerId, qq: Peer)
  {
    p != q && s.peers.Keys == {p, q} && s.peers[p] == pp && s.peers[q] == qq
  }

  /** A silent call of one of two peers. */
  lemma PairCall(s0: System, steps: seq<Step>, s: System, p: PeerId, pp: Peer, q: PeerId, qq: Peer, a: Call, qq': Peer)
      returns (s': System)
    requires Run(s0, steps, s) && Pair(s, p, pp, q, qq) && Enabled(qq, q, a) && !a.Receive?
    requires Handle(qq, q, a) == Effect(qq', {})
    ensures Run(s0, steps + [Act(q, a)], s') && Pair(s', p, pp, q, qq') && s'.net == s.net
  {
    assert s.peers[q := qq] == s.peers;
    s' := SilentCall(s0, steps, s.peers, s, q, qq, a, qq');
  }

  lemma TrackingTakes(p: PeerId, m: Msg)
    requires m.dst == p && !m.deleted && m.hash != NoHash && m.version == 1 && !Refused(m.key.path)
    ensures Takes(Tracking(m.key.repo), p, m)
  {
    ResolveIsLastWriteWins(LocalVersion(Tracking(m.key.repo), p, m.key), RemoteVersion(m));
  }

  /** `q` changed the file and `p` only tracks the repository. */
  lemma OneHoldsOneTracks(s0: System, p: PeerId, q: PeerId, k: Key, c: Change, now: int)
      returns (steps: seq<Step>, s: System)
    requires Initial(s0) && s0.peers.Keys == {p, q} && p != q && !IsTemp(k.path) && c.kind.Add?
    ensures Run(s0, steps, s) && s.net == multiset{}
    ensures Pair(s, p, Tracking(k.repo), q, Holding(q, k, EditRow(q, c, now)))
  {
    assert p in s0.peers && q in s0.peers && s0.peers[p] == NewPeer && s0.peers[q] == NewPeer;
    assert Run(s0, [], s0) && Pair(s0, p, NewPeer, q, NewPeer) && Pair(s0, q, NewPeer, p, NewPeer);
    NewPeerTracks(p, k.repo);
    NewPeerTracks(q, k.repo);
    EditIndexes(q, k, c, now);
    var add, track, edit := AddRepo(k.repo), Tracking(k.repo), Local(k, c, {}, now);
    var s1 := PairCall(s0, [], s0, q, NewPeer, p, NewPeer, add, track);
    var s2 := PairCall(s0, [] + [Act(p, add)], s1, p, track, q, NewPeer, add, track);
    steps := [] + [Act(p, add)] + [Act(q, add)] + [Act(q, edit)];
    s := PairCall(s0, [] + [Act(p, add)] + [Act(q, add)], s2, p, track, q, track,
                  edit, Holding(q, k, EditRow(q, c, now)));
  }

  /** `p` accepts `q`'s row and requests its content. */
  lemma RequestSteps(s0: System, steps0: seq<Step>, s: System, p: PeerId, q: PeerId, k: Key)
      returns (steps: seq<Step>, s': System, p': Peer)
    requires Run(s0, steps0, s) && p in s.peers && q in s.peers && k in s.peers[q].rows && s.net == multiset{}
    requires Takes(s.peers[p], p, OfferOf(s, q, p, k))
    ensures Run(s0, steps, s') && s'.net == multiset{} && s'.peers == s.peers[p := p']
    ensures k in p'.rows && p'.rows[k].hash == s.peers[q].rows[k].hash && p'.tracked == s.peers[p].tracked
    ensures p'.rows[k].version == s.peers[q].rows[k].version && Fetches.Requested(p', k, s.peers[q].rows[k].hash)
  {
    var m := OfferOf(s, q, p, k);
    var p1, p2, p3, p4 := RoundAtTaker(s.peers[p], p, m, 0);
    TakesOver(s.peers[p], p, m, 0);
    var s1 := OfferStep(s, q, p, k);
    var s2 := DeliverStep(s1, m, 0, p1);
    var s3 := CallStep(s.peers, s2, p, p1, Take(DownloadOf(m)), p2, k);
    var s4 := CallStep(s.peers, s3, p, p2, Execute(DownloadOf(m), Sent), p3, k);
    TakenAndRequested(p1, DownloadOf(m));
    RunSnoc(s0, steps0, s, Act(q, KeepMine(k, p)));
    var steps1 := steps0 + [Act(q, KeepMine(k, p))];
    RunSnoc(s0, steps1, s1, Act(p, Receive(m, false, 0)));
    var steps2 := steps1 + [Act(p, Receive(m, false, 0))];
    RunSnoc(s0, steps2, s2, Act(p, Take(DownloadOf(m))));
    var steps3 := steps2 + [Act(p, Take(DownloadOf(m)))];
    RunSnoc(s0, steps3, s3, Act(p, Execute(DownloadOf(m), Sent)));
    steps, s', p' := steps3 + [Act(p, Execute(DownloadOf(m), Sent))], s4, p3;
    assert multiset{} + multiset{m} - multiset{m} == multiset{};
  }

  lemma RequestStarts(s0: System, steps0: seq<Step>, s: System, p: PeerId, q: PeerId, k: Key, row: Row)
      returns (steps: seq<Step>, s': System, p': Peer)
    requires Run(s0, steps0, s) && Pair(s, p, Tracking(k.repo), q, Holding(q, k, row))
    requires s.net == multiset{} && row.version == 1 && !row.deleted && row.hash != NoHash && !Refused(k.path)
    ensures Run(s0, steps, s') && s'.net == multiset{} && Pair(s', p, p', q, Holding(q, k, row))
    ensures k in p'.rows && p'.rows[k].hash == row.hash && p'.rows[k].version == 1 && p'.tracked == {k.repo}
    ensures Fetches.Requested(p', k, row.hash)
  {
    assert p in s.peers && q in s.peers;
    TrackingTakes(p, OfferOf(s, q, p, k));
    steps, s', p' := RequestSteps(s0, steps0, s, p, q, k);
  }

  lemma SecondEdit(q: PeerId, k: Key, row: Row, c: Change, now: int) returns (q': Peer)
    requires !IsTemp(k.path) && c.kind.Modify? && row.version == 1 && row.size > 0 && row.hash != c.hash
    ensures Handle(Holding(q, k, row), q, Local(k, c, {}, now)) == Effect(q', {})
    ensures q'.tracked == {k.repo} && k in q'.rows && q'.rows[k].hash == c.hash && q'.rows[k].version == 2
  {
    q' := HandleLocal(Holding(q, k, row), q, k, c, {}, now).peer;
    assert HandleLocal(Holding(q, k, row), q, k, c, {}, now).out == {};
  }

  /** Both have offered what they hold, and `p` still waits for older content. */
  lemma WaitingForOlder(s: System, p: PeerId, q: PeerId, k: Key, h1: Hash)
    requires s.peers.Keys == {p, q} && p != q && k in s.peers[p].rows && k in s.peers[q].rows && !Refused(k.path)
    requires k.repo in s.peers[p].tracked && k.repo in s.peers[q].tracked
    requires s.net == multiset{OfferOf(s, p, q, k)} + multiset{OfferOf(s, q, p, k)}
    requires s.peers[p].rows[k].hash == h1 && s.peers[p].rows[k].version == 1
    requires s.peers[q].rows[k].hash != h1 && s.peers[q].rows[k].version == 2
    requires Fetches.Requested(s.peers[p], k, h1) && Plain(h1) && h1 != NoHash
    ensures Exchanging(s, p, q, k) && !Converges(s, p, q, k)
  {
    assert OfferOf(s, p, q, k) in s.net && OfferOf(s, q, p, k) in s.net;
    assert Carries(OfferOf(s, p, q, k), p, q, k, s.peers[p].rows[k]);
    assert Carries(OfferOf(s, q, p, k), q, p, k, s.peers[q].rows[k]);
    assert Busy(s.peers[p], k, h1);
    assert !OnlyBusy(s.peers[p], k, s.peers[q].rows[k].hash);
  }

  lemma BothOffer(s0: System, steps0: seq<Step>, s: System, p: PeerId, q: PeerId, k: Key)
      returns (steps: seq<Step>, s': System)
    requires Run(s0, steps0, s) && p in s.peers && q in s.peers && k in s.peers[p].rows && k in s.peers[q].rows
    requires s.net == multiset{}
    ensures Run(s0, steps, s') && s'.peers == s.peers
    ensures s'.net == multiset{OfferOf(s, p, q, k)} + multiset{OfferOf(s, q, p, k)}
  {
    var s1 := OfferStep(s, p, q, k);
    s' := OfferStep(s1, q, p, k);
    RunSnoc(s0, steps0, s, Act(p, KeepMine(k, q)));
    RunSnoc(s0, steps0 + [Act(p, KeepMine(k, q))], s1, Act(q, KeepMine(k, p)));
    steps := steps0 + [Act(p, KeepMine(k, q))] + [Act(q, KeepMine(k, p))];
  }

  /** `q` changes a file, `p` hears of it and requests it, `q` changes it again, and both offer what
      they hold: from there some run ends in disagreement. */
  lemma SpoiltExchangeIsReachable(s0: System, p: PeerId, q: PeerId, k: Key, c: Change, c': Change, now: int)
      returns (steps: seq<Step>, s: System)
    requires Initial(s0) && s0.peers.Keys == {p, q} && p != q && !Refused(k.path) && c.kind.Add? && c'.kind.Modify?
    requires c.size > 0 && c.hash != NoHash && Plain(c.hash) && c'.hash != c.hash
    ensures Run(s0, steps, s) && Exchanging(s, p, q, k) && !AlwaysAgree(s, p, q, k)
  {
    var row := EditRow(q, c, now);
    var steps1, s1 := OneHoldsOneTracks(s0, p, q, k, c, now);
    var steps2, s2, p2 := RequestStarts(s0, steps1, s1, p, q, k, row);
    var q3 := SecondEdit(q, k, row, c', now);
    var s3 := PairCall(s0, steps2, s2, p, p2, q, Holding(q, k, row), Local(k, c', {}, now), q3);
    steps, s := BothOffer(s0, steps2 + [Act(q, Local(k, c', {}, now))], s3, p, q, k);
    WaitingForOlder(s, p, q, k, c.hash);
    TwoPeersConvergeIff(s, p, q, k);
  }
}
