/** Completed downloads give a row the time of the download.  Offers refused before are then
    accepted again, and rows that never tie change hands forever. */
module Redating {
  import opened Base
  import opened PeerIds
  import opened Conflict
  import opened Clocks
  import opened TaskQueue
  import opened Replication
  import opened Convergence
  import opened Downloads
  import opened Gossip
  import opened Ties

  // ----- One round: accept, request, complete -----

  ghost predicate SameTasks(p: Peer, p': Peer)
  {
    p'.pending == p.pending && forall r :: TasksIn(p'.queued, r) == TasksIn(p.queued, r)
  }

  /** `p'` holds content `h` of version `v`, dated by its download, and is otherwise as busy as `p`. */
  ghost predicate Fetched(p: Peer, p': Peer, k: Key, h: Hash, v: nat, now: int)
  {
    && k in p'.rows && p'.rows[k].hash == h && p'.rows[k].version == v && p'.rows[k].modified == now / 1000
    && !p'.rows[k].deleted && p'.tracked == p.tracked && SameTasks(p, p')
  }

  lemma SameTasksFetchTheSame(p: Peer, p': Peer, k: Key, h: Hash)
    requires SameTasks(p, p')
    ensures Fetching(p', k, h) <==> Fetching(p, k, h)
  {
  }

  /** The receiver would take over live content that it is not fetching yet. */
  ghost predicate Takes(p: Peer, me: PeerId, m: Msg)
  {
    && m.dst == me && !m.deleted && m.hash != NoHash && m.key.repo in p.tracked
    && Accepts(p, me, m) && !Fetching(p, m.key, m.hash)
  }

  lemma TakesOver(p: Peer, me: PeerId, m: Msg, now: int)
    requires Takes(p, me, m)
    ensures var p1 := HandleUpdate(p, me, m, false, now).peer;
            && p1.rows == p.rows[m.key := AdoptedRow(m, now)] && p1.tracked == p.tracked && p1.pending == p.pending
            && p1.queued == p.queued[m.key.repo := TasksIn(p.queued, m.key.repo) + multiset{DownloadOf(m)}]
            && p1.taken == p.taken
  {
    var p0 := p.(clock := Merged(p.clock, m.clock));
    assert HandleUpdate(p, me, m, false, now).peer == Adopt(p0, m, now);
    assert !Fetching(p0, m.key, m.hash);
  }

  lemma AddedAndTaken(a: multiset<Task>, t: Task)
    ensures a + multiset{t} - multiset{t} == a
  {
  }

  lemma TasksBackIn(q: map<RepoId, multiset<Task>>, t: Task,
                    q1: map<RepoId, multiset<Task>>, q2: map<RepoId, multiset<Task>>, r: RepoId)
    requires q1 == q[t.repo := TasksIn(q, t.repo) + multiset{t}]
    requires q2 == q1[t.repo := TasksIn(q1, t.repo) - multiset{t}]
    ensures TasksIn(q2, r) == TasksIn(q, r)
  {
    if r == t.repo {
      AddedAndTaken(TasksIn(q, r), t);
    }
  }

  lemma TasksBack(q: map<RepoId, multiset<Task>>, t: Task,
                  q1: map<RepoId, multiset<Task>>, q2: map<RepoId, multiset<Task>>)
    requires q1 == q[t.repo := TasksIn(q, t.repo) + multiset{t}]
    requires q2 == q1[t.repo := TasksIn(q1, t.repo) - multiset{t}]
    ensures forall r :: TasksIn(q2, r) == TasksIn(q, r)
  {
    forall r ensures TasksIn(q2, r) == TasksIn(q, r) { TasksBackIn(q, t, q1, q2, r); }
  }

  lemma TakenAndRequested(p1: Peer, t: Task)
    requires t.kind == Download
    ensures var p3 := HandleExecute(HandleTake(p1, t).peer, t, Sent).peer;
            && p3.rows == p1.rows && p3.tracked == p1.tracked
            && p3.queued == p1.queued[t.repo := TasksIn(p1.queued, t.repo) - multiset{t}]
            && p3.pending
               == p1.pending[PendingKey(t.path, t.hash) := Pending(t.repo, t.size, t.mode, t.peer, t.retries)]
  {
  }

  lemma Answered(p: Peer, path: Path, hash: Hash, now: int)
    requires hash != NoHash && PendingKey(path, hash) in p.pending
    ensures var p' := HandleRespond(p, path, hash, Inline(true, 1), now).peer;
            p'.queued == p.queued && p'.pending == p.pending - {PendingKey(path, hash)}
  {
  }

  /** A request goes out and is answered: the tasks are as before the offer. */
  lemma RequestAnswered(p: Peer, p1: Peer, t: Task, now: int)
    requires t.kind == Download && t.hash != NoHash && PendingKey(t.path, t.hash) !in p.pending
    requires p1.pending == p.pending && p1.queued == p.queued[t.repo := TasksIn(p.queued, t.repo) + multiset{t}]
    ensures var p3 := HandleExecute(HandleTake(p1, t).peer, t, Sent).peer;
            var p4 := HandleRespond(p3, t.path, t.hash, Inline(true, 1), now).peer;
            && p3.rows == p1.rows && p3.tracked == p1.tracked && SameTasks(p, p4)
            && Awaited(p3, Respond(t.path, t.hash, Inline(true, 1), now), Key(t.repo, t.path))
  {
    TakenAndRequested(p1, t);
    var p3 := HandleExecute(HandleTake(p1, t).peer, t, Sent).peer;
    Answered(p3, t.path, t.hash, now);
    TasksBack(p.queued, t, p1.queued, p3.queued);
  }

  /** The states of the taker after delivery, dispatch, request and response. */
  lemma RoundAtTaker(p: Peer, me: PeerId, m: Msg, now: int)
      returns (p1: Peer, p2: Peer, p3: Peer, p4: Peer)
    requires Takes(p, me, m)
    ensures p1 == HandleUpdate(p, me, m, false, now).peer && DownloadOf(m) in TasksIn(p1.queued, m.key.repo)
    ensures m.key in p1.rows && p1.rows[m.key].version == m.version && p1.rows[m.key].modified == m.modified
    ensures p2 == HandleTake(p1, DownloadOf(m)).peer && DownloadOf(m) in p2.taken && p2.rows == p1.rows
    ensures p3 == HandleExecute(p2, DownloadOf(m), Sent).peer && p3.rows == p1.rows
    ensures p4 == HandleRespond(p3, m.key.path, m.hash, Inline(true, 1), now).peer
    ensures Fetched(p, p4, m.key, m.hash, m.version, now)
  {
    TakesOver(p, me, m, now);
    p1 := HandleUpdate(p, me, m, false, now).peer;
    p2 := HandleTake(p1, DownloadOf(m)).peer;
    p3 := HandleExecute(p2, DownloadOf(m), Sent).peer;
    p4 := HandleRespond(p3, m.key.path, m.hash, Inline(true, 1), now).peer;
    RequestAnswered(p, p1, DownloadOf(m), now);
    RespondSeenFrom(p3, Respond(m.key.path, m.hash, Inline(true, 1), now), m.key);
  }

  // ----- The round as steps of the system -----

  ghost predicate StepTo(s: System, step: Step, k: Key, accepting: bool, s': System)
  {
    CanStep(s, step) && Gossiping(step) && s' == Apply(s, step) && (Accepting(s, step, k) <==> accepting)
  }

  lemma OfferStep(s: System, x: PeerId, p: PeerId, k: Key) returns (s': System)
    requires x in s.peers && k in s.peers[x].rows
    ensures StepTo(s, Act(x, KeepMine(k, p)), k, false, s')
    ensures s'.peers == s.peers && s'.net == s.net + multiset{OfferOf(s, x, p, k)}
  {
    s' := Apply(s, Act(x, KeepMine(k, p)));
    assert s.peers[x := s.peers[x]] == s.peers;
    assert Handle(s.peers[x], x, KeepMine(k, p)).out == {OfferOf(s, x, p, k)};
    assert multiset({OfferOf(s, x, p, k)}) == multiset{OfferOf(s, x, p, k)};
  }

  lemma DeliverStep(s: System, m: Msg, now: int, p1: Peer) returns (s': System)
    requires m in s.net && m.dst in s.peers && Accepts(s.peers[m.dst], m.dst, m) && m.key.repo in s.peers[m.dst].tracked
    requires p1 == HandleUpdate(s.peers[m.dst], m.dst, m, false, now).peer
    ensures StepTo(s, Act(m.dst, Receive(m, false, now)), m.key, true, s')
    ensures s'.peers == s.peers[m.dst := p1] && s'.net == s.net - multiset{m}
  {
    s' := Apply(s, Act(m.dst, Receive(m, false, now)));
    UpdateReplies(s.peers[m.dst], m.dst, m, false, now);
    ResolveIsLastWriteWins(LocalVersion(s.peers[m.dst], m.dst, m.key), RemoteVersion(m));
    assert s.net - multiset{m} + multiset({}) == s.net - multiset{m};
  }

  /** Any other gossiping call, of a peer that differs from `base` alone. */
  lemma CallStep(base: map<PeerId, Peer>, s: System, p: PeerId, before: Peer, a: Call, after: Peer, k: Key)
      returns (s': System)
    requires s.peers == base[p := before] && Enabled(before, p, a) && (Dispatches(a) || a.Respond?)
    requires after == Handle(before, p, a).peer
    ensures StepTo(s, Act(p, a), k, false, s') && s'.peers == base[p := after] && s'.net == s.net
  {
    s' := Apply(s, Act(p, a));
    SilentCompletion(before, p, a, k);
    assert s.net + multiset({}) == s.net;
  }

  lemma SilentCompletion(p: Peer, me: PeerId, a: Call, k: Key)
    requires Enabled(p, me, a) && (Dispatches(a) || a.Respond?)
    ensures Handle(p, me, a).out == {}
  {
    if a.Respond? {
      RespondSeenFrom(p, a, k);
    } else {
      DispatchTouchesNoRow(p, me, a);
    }
  }

  /** Offer and acceptance. */
  ghost predicate Handover(s: System, x: PeerId, p: PeerId, k: Key, now: int, s1: System, s2: System)
    requires x in s.peers && k in s.peers[x].rows
  {
    && StepTo(s, Act(x, KeepMine(k, p)), k, false, s1)
    && StepTo(s1, Act(p, Receive(OfferOf(s, x, p, k), false, now)), k, true, s2)
  }

  /** Request and completion. */
  ghost predicate Downloading(s2: System, p: PeerId, m: Msg, now: int, s3: System, s4: System, s5: System)
  {
    && StepTo(s2, Act(p, Take(DownloadOf(m))), m.key, false, s3)
    && StepTo(s3, Act(p, Execute(DownloadOf(m), Sent)), m.key, false, s4)
    && StepTo(s4, Act(p, Respond(m.key.path, m.hash, Inline(true, 1), now)), m.key, false, s5)
  }

  lemma PlayDownload(base: map<PeerId, Peer>, s2: System, p: PeerId, m: Msg, now: int,
                     p1: Peer, p2: Peer, p3: Peer, p4: Peer)
      returns (s3: System, s4: System, s5: System)
    requires s2.peers == base[p := p1] && DownloadOf(m) in TasksIn(p1.queued, m.key.repo)
    requires p2 == HandleTake(p1, DownloadOf(m)).peer && DownloadOf(m) in p2.taken
    requires p3 == HandleExecute(p2, DownloadOf(m), Sent).peer
    requires p4 == HandleRespond(p3, m.key.path, m.hash, Inline(true, 1), now).peer
    ensures Downloading(s2, p, m, now, s3, s4, s5)
    ensures s3.peers == base[p := p2] && s4.peers == base[p := p3] && s5.peers == base[p := p4]
  {
    s3 := CallStep(base, s2, p, p1, Take(DownloadOf(m)), p2, m.key);
    s4 := CallStep(base, s3, p, p2, Execute(DownloadOf(m), Sent), p3, m.key);
    s5 := CallStep(base, s4, p, p3, Respond(m.key.path, m.hash, Inline(true, 1), now), p4, m.key);
  }

  /** A round: `x` offers its row to `p`, which accepts it, requests the content and gets it. */
  lemma PlayRound(s: System, x: PeerId, p: PeerId, k: Key, now: int)
      returns (s1: System, s2: System, s3: System, s4: System, s5: System, p1: Peer, p2: Peer, p3: Peer, p4: Peer)
    requires x in s.peers && k in s.peers[x].rows && p in s.peers && Takes(s.peers[p], p, OfferOf(s, x, p, k))
    ensures Handover(s, x, p, k, now, s1, s2) && Downloading(s2, p, OfferOf(s, x, p, k), now, s3, s4, s5)
    ensures s1.peers == s.peers && s2.peers == s.peers[p := p1] && s3.peers == s.peers[p := p2]
    ensures s4.peers == s.peers[p := p3] && s5.peers == s.peers[p := p4]
    ensures Fetched(s.peers[p], p4, k, HashAt(s, x, k), s.peers[x].rows[k].version, now)
    ensures p2.rows == p1.rows && p3.rows == p1.rows && k in p1.rows
    ensures p1.rows[k].version == s.peers[x].rows[k].version && p1.rows[k].modified == s.peers[x].rows[k].modified
  {
    var m := OfferOf(s, x, p, k);
    p1, p2, p3, p4 := RoundAtTaker(s.peers[p], p, m, now);
    s1 := OfferStep(s, x, p, k);
    s2 := DeliverStep(s1, m, now, p1);
    s3, s4, s5 := PlayDownload(s.peers, s2, p, m, now, p1, p2, p3, p4);
  }

  // ----- Rounds that lower a row's time -----

  function AfterRound(before: seq<Step>, m: Msg, now: int): seq<Step>
  {
    before + [Act(m.src, KeepMine(m.key, m.dst))] + [Act(m.dst, Receive(m, false, now))]
    + [Act(m.dst, Take(DownloadOf(m)))] + [Act(m.dst, Execute(DownloadOf(m), Sent))]
    + [Act(m.dst, Respond(m.key.path, m.hash, Inline(true, 1), now))]
  }

  ghost predicate LinkedSteps(edges: Edges, steps: seq<Step>) { forall st | st in steps :: AlongLinks(edges, st) }

  lemma LinkedSnoc(edges: Edges, steps: seq<Step>, step: Step)
    requires LinkedSteps(edges, steps) && AlongLinks(edges, step)
    ensures LinkedSteps(edges, steps + [step])
  {
  }

  lemma RoundIsLinked(edges: Edges, before: seq<Step>, m: Msg, now: int)
    requires LinkedSteps(edges, before) && Linked(edges, m.src, m.dst)
    ensures LinkedSteps(edges, AfterRound(before, m, now))
  {
    var a, b := Act(m.src, KeepMine(m.key, m.dst)), Act(m.dst, Receive(m, false, now));
    var c, d := Act(m.dst, Take(DownloadOf(m))), Act(m.dst, Execute(DownloadOf(m), Sent));
    var e := Act(m.dst, Respond(m.key.path, m.hash, Inline(true, 1), now));
    LinkedSnoc(edges, before, a);
    LinkedSnoc(edges, before + [a], b);
    LinkedSnoc(edges, before + [a] + [b], c);
    LinkedSnoc(edges, before + [a] + [b] + [c], d);
    LinkedSnoc(edges, before + [a] + [b] + [c] + [d], e);
  }

  lemma RoundExtends(s0: System, before: seq<Step>, n: nat, s: System, x: PeerId, p: PeerId, k: Key, now: int,
                     s1: System, s2: System, s3: System, s4: System, s5: System) returns (steps: seq<Step>)
    requires x in s.peers && k in s.peers[x].rows && GossipRun(s0, before, k, n, s)
    requires Handover(s, x, p, k, now, s1, s2) && Downloading(s2, p, OfferOf(s, x, p, k), now, s3, s4, s5)
    ensures GossipRun(s0, steps, k, n + 1, s5)
    ensures steps == AfterRound(before, OfferOf(s, x, p, k), now)
  {
    var m := OfferOf(s, x, p, k);
    var a, b, c := Act(x, KeepMine(k, p)), Act(p, Receive(m, false, now)), Act(p, Take(DownloadOf(m)));
    var d, e := Act(p, Execute(DownloadOf(m), Sent)), Act(p, Respond(k.path, m.hash, Inline(true, 1), now));
    ExtendGossip(s0, before, k, n, s, a);
    ExtendGossip(s0, before + [a], k, n, s1, b);
    ExtendGossip(s0, before + [a] + [b], k, n + 1, s2, c);
    ExtendGossip(s0, before + [a] + [b] + [c], k, n + 1, s3, d);
    ExtendGossip(s0, before + [a] + [b] + [c] + [d], k, n + 1, s4, e);
    steps := before + [a] + [b] + [c] + [d] + [e];
  }

  lemma NextRound(s0: System, before: seq<Step>, n: nat, s: System, x: PeerId, p: PeerId, k: Key, now: int)
      returns (steps: seq<Step>, s': System, p': Peer)
    requires x in s.peers && k in s.peers[x].rows && p in s.peers && Takes(s.peers[p], p, OfferOf(s, x, p, k))
    requires GossipRun(s0, before, k, n, s)
    ensures GossipRun(s0, steps, k, n + 1, s') && steps == AfterRound(before, OfferOf(s, x, p, k), now)
    ensures s'.peers == s.peers[p := p']
    ensures Fetched(s.peers[p], p', k, HashAt(s, x, k), s.peers[x].rows[k].version, now)
  {
    var s1, s2, s3, s4, s5, p1, p2, p3, p4 := PlayRound(s, x, p, k, now);
    steps := RoundExtends(s0, before, n, s, x, p, k, now, s1, s2, s3, s4, s5);
    s', p' := s5, p4;
  }

  ghost predicate Live(s: System, x: PeerId, k: Key)
  {
    x in s.peers && k in s.peers[x].rows && !s.peers[x].rows[k].deleted && s.peers[x].rows[k].hash != NoHash
  }

  ghost predicate Idle(s: System, p: PeerId, k: Key, h: Hash, h': Hash)
  {
    p in s.peers && k.repo in s.peers[p].tracked && !Fetching(s.peers[p], k, h) && !Fetching(s.peers[p], k, h')
  }

  /** `p` stands between `x` and `y`, which hold different content of its row's version; both are
      dated after `p`'s row and after `now` in seconds. */
  ghost predicate Seesaw(s: System, p: PeerId, x: PeerId, y: PeerId, k: Key, now: int)
  {
    && p != x && p != y && Live(s, x, k) && Live(s, y, k) && Live(s, p, k) && !Refused(k.path)
    && HashAt(s, x, k) != HashAt(s, y, k) && Idle(s, p, k, HashAt(s, x, k), HashAt(s, y, k))
    && forall z | z in {x, y} ::
         && s.peers[z].rows[k].version == s.peers[p].rows[k].version
         && s.peers[z].rows[k].modified > s.peers[p].rows[k].modified && s.peers[z].rows[k].modified > now / 1000
  }

  lemma LaterContentIsTaken(s: System, x: PeerId, p: PeerId, k: Key)
    requires Live(s, x, k) && Live(s, p, k) && !Refused(k.path) && HashAt(s, x, k) != HashAt(s, p, k)
    requires k.repo in s.peers[p].tracked && !Fetching(s.peers[p], k, HashAt(s, x, k))
    requires s.peers[x].rows[k].version == s.peers[p].rows[k].version
    requires s.peers[x].rows[k].modified > s.peers[p].rows[k].modified
    ensures Takes(s.peers[p], p, OfferOf(s, x, p, k))
  {
    ResolveIsLastWriteWins(LocalVersion(s.peers[p], p, k), RemoteVersion(OfferOf(s, x, p, k)));
  }

  lemma SeesawStays(s: System, s': System, p: PeerId, x: PeerId, y: PeerId, k: Key, now: int, z: PeerId, p': Peer)
    requires Seesaw(s, p, x, y, k, now) && z in {x, y} && s'.peers == s.peers[p := p']
    requires Fetched(s.peers[p], p', k, HashAt(s, z, k), s.peers[z].rows[k].version, now)
    ensures Seesaw(s', p, x, y, k, now)
  {
    assert x in {x, y} && y in {x, y};
    SameTasksFetchTheSame(s.peers[p], p', k, HashAt(s, x, k));
    SameTasksFetchTheSame(s.peers[p], p', k, HashAt(s, y, k));
  }

  lemma SeesawTakes(s: System, p: PeerId, x: PeerId, y: PeerId, k: Key, now: int) returns (z: PeerId)
    requires Seesaw(s, p, x, y, k, now)
    ensures z in {x, y} && Takes(s.peers[p], p, OfferOf(s, z, p, k))
  {
    z := if HashAt(s, p, k) == HashAt(s, x, k) then y else x;
    assert z in {x, y};
    LaterContentIsTaken(s, z, p, k);
  }

  lemma SeesawRound(s0: System, before: seq<Step>, n: nat, s: System,
                    p: PeerId, x: PeerId, y: PeerId, k: Key, now: int)
      returns (steps: seq<Step>, s': System, p': Peer)
    requires GossipRun(s0, before, k, n, s) && Seesaw(s, p, x, y, k, now)
    ensures GossipRun(s0, steps, k, n + 1, s') && Seesaw(s', p, x, y, k, now) && s'.peers == s.peers[p := p']
  {
    var z := SeesawTakes(s, p, x, y, k, now);
    steps, s', p' := NextRound(s0, before, n, s, z, p, k, now);
    SeesawStays(s, s', p, x, y, k, now, z, p');
  }

  /** Whether or not rows tie, `p` changes its row as often as one likes: each completed download
      dates the row back behind the content it replaced. */
  lemma {:induction false} RedatedRowFlipsForever(s: System, p: PeerId, x: PeerId, y: PeerId, k: Key, now: int, n: nat)
      returns (steps: seq<Step>, s': System)
    requires Seesaw(s, p, x, y, k, now)
    ensures GossipRun(s, steps, k, n, s') && Seesaw(s', p, x, y, k, now)
    ensures s'.peers.Keys == s.peers.Keys && forall q | q in s.peers && q != p :: s'.peers[q] == s.peers[q]
  {
    if n == 0 {
      return [], s;
    }
    var before, m := RedatedRowFlipsForever(s, p, x, y, k, now, n - 1);
    var p';
    steps, s', p' := SeesawRound(s, before, n - 1, m, p, x, y, k, now);
  }

  // ----- Rounds that only raise times -----

  ghost predicate Rising(s: System, k: Key, s': System)
  {
    forall q | q in s.peers :: q in s'.peers && !Below(StampAt(s', q, k), StampAt(s, q, k))
  }

  ghost predicate RisingStep(m: System, step: Step, k: Key, n: nat, accepted: nat, s': System)
  {
    GossipStep(m, step, k, n, accepted, s') && Rising(m, k, s')
  }

  /** A run of gossip in which no row's version and time ever fall. */
  ghost predicate RisingRun(s: System, steps: seq<Step>, k: Key, accepted: nat, s': System)
  {
    if steps == [] then s' == s && accepted == 0
    else
      var last := |steps| - 1;
      exists m, n: nat :: RisingRun(s, steps[..last], k, n, m) && RisingStep(m, steps[last], k, n, accepted, s')
  }

  lemma RisingSnoc(s: System, steps: seq<Step>, k: Key, n: nat, m: System, step: Step, total: nat, s': System)
    requires RisingRun(s, steps, k, n, m) && RisingStep(m, step, k, n, total, s')
    ensures RisingRun(s, steps + [step], k, total, s')
  {
    var all := steps + [step];
    var last := |all| - 1;
    assert all[..last] == steps && all[last] == step;
    assert RisingRun(s, all[..last], k, n, m) && RisingStep(m, all[last], k, n, total, s');
  }

  lemma ExtendRising(s: System, steps: seq<Step>, k: Key, n: nat, m: System, step: Step, accepting: bool, s': System)
    requires RisingRun(s, steps, k, n, m) && StepTo(m, step, k, accepting, s') && Rising(m, k, s')
    ensures RisingRun(s, steps + [step], k, n + (if accepting then 1 else 0), s')
  {
    var total := n + if accepting then 1 else 0;
    assert RisingStep(m, step, k, n, total, s');
    RisingSnoc(s, steps, k, n, m, step, total, s');
  }

  lemma RisingRoundExtends(s0: System, before: seq<Step>, n: nat, s: System, x: PeerId, p: PeerId, k: Key, now: int,
                           s1: System, s2: System, s3: System, s4: System, s5: System) returns (steps: seq<Step>)
    requires x in s.peers && k in s.peers[x].rows && RisingRun(s0, before, k, n, s)
    requires Handover(s, x, p, k, now, s1, s2) && Downloading(s2, p, OfferOf(s, x, p, k), now, s3, s4, s5)
    requires Rising(s, k, s1) && Rising(s1, k, s2) && Rising(s2, k, s3) && Rising(s3, k, s4) && Rising(s4, k, s5)
    ensures RisingRun(s0, steps, k, n + 1, s5)
  {
    var m := OfferOf(s, x, p, k);
    var a, b, c := Act(x, KeepMine(k, p)), Act(p, Receive(m, false, now)), Act(p, Take(DownloadOf(m)));
    var d, e := Act(p, Execute(DownloadOf(m), Sent)), Act(p, Respond(k.path, m.hash, Inline(true, 1), now));
    ExtendRising(s0, before, k, n, s, a, false, s1);
    ExtendRising(s0, before + [a], k, n, s1, b, true, s2);
    ExtendRising(s0, before + [a] + [b], k, n + 1, s2, c, false, s3);
    ExtendRising(s0, before + [a] + [b] + [c], k, n + 1, s3, d, false, s4);
    ExtendRising(s0, before + [a] + [b] + [c] + [d], k, n + 1, s4, e, false, s5);
    steps := before + [a] + [b] + [c] + [d] + [e];
  }

  /** Three peers hold rows of one version; the oldest and the newest agree, the one between does not. */
  ghost predicate Carousel(s: System, p: PeerId, q: PeerId, r: PeerId, k: Key)
  {
    && p != q && q != r && r != p && Live(s, p, k) && Live(s, q, k) && Live(s, r, k) && !Refused(k.path)
    && HashAt(s, p, k) == HashAt(s, r, k) != HashAt(s, q, k)
    && (forall z | z in {p, q, r} ::
          && s.peers[z].rows[k].version == s.peers[p].rows[k].version
          && Idle(s, z, k, HashAt(s, p, k), HashAt(s, q, k)))
    && s.peers[p].rows[k].modified < s.peers[q].rows[k].modified < s.peers[r].rows[k].modified
  }

  lemma OneRowRises(s: System, k: Key, s': System, base: map<PeerId, Peer>, p: PeerId, a: Peer, b: Peer)
    requires s.peers == base[p := a] && s'.peers == base[p := b] && k in a.rows && k in b.rows
    requires b.rows[k].version == a.rows[k].version && b.rows[k].modified >= a.rows[k].modified
    ensures Rising(s, k, s')
  {
  }

  lemma CarouselTurns(s: System, s': System, p: PeerId, q: PeerId, r: PeerId, k: Key, now: int, p': Peer)
    requires Carousel(s, p, q, r, k) && s'.peers == s.peers[p := p'] && now / 1000 > s.peers[r].rows[k].modified
    requires Fetched(s.peers[p], p', k, HashAt(s, q, k), s.peers[q].rows[k].version, now)
    ensures Carousel(s', q, r, p, k)
  {
    assert p in {p, q, r} && q in {p, q, r} && r in {p, q, r};
    SameTasksFetchTheSame(s.peers[p], p', k, HashAt(s, p, k));
    SameTasksFetchTheSame(s.peers[p], p', k, HashAt(s, q, k));
  }

  lemma RoundRises(s: System, p: PeerId, k: Key, s1: System, s2: System, s3: System, s4: System, s5: System,
                   p1: Peer, p2: Peer, p3: Peer, p4: Peer)
    requires p in s.peers && k in s.peers[p].rows
    requires s1.peers == s.peers && s2.peers == s.peers[p := p1] && s3.peers == s.peers[p := p2]
    requires s4.peers == s.peers[p := p3] && s5.peers == s.peers[p := p4]
    requires k in p1.rows && p2.rows == p1.rows && p3.rows == p1.rows && k in p4.rows
    requires p4.rows[k].version == p1.rows[k].version == s.peers[p].rows[k].version
    requires p4.rows[k].modified >= p1.rows[k].modified >= s.peers[p].rows[k].modified
    ensures Rising(s, k, s1) && Rising(s1, k, s2) && Rising(s2, k, s3) && Rising(s3, k, s4) && Rising(s4, k, s5)
  {
    var p0 := s.peers[p];
    assert s.peers[p := p0] == s.peers;
    OneRowRises(s, k, s1, s.peers, p, p0, p0);
    OneRowRises(s1, k, s2, s.peers, p, p0, p1);
    OneRowRises(s2, k, s3, s.peers, p, p1, p2);
    OneRowRises(s3, k, s4, s.peers, p, p2, p3);
    OneRowRises(s4, k, s5, s.peers, p, p3, p4);
  }

  lemma CarouselTakes(s: System, p: PeerId, q: PeerId, r: PeerId, k: Key)
    requires Carousel(s, p, q, r, k)
    ensures Takes(s.peers[p], p, OfferOf(s, q, p, k))
    ensures s.peers[q].rows[k].version == s.peers[p].rows[k].version
  {
    assert p in {p, q, r} && q in {p, q, r};
    LaterContentIsTaken(s, q, p, k);
  }

  lemma CarouselRound(s0: System, before: seq<Step>, n: nat, s: System, p: PeerId, q: PeerId, r: PeerId, k: Key)
      returns (steps: seq<Step>, s': System)
    requires RisingRun(s0, before, k, n, s) && Carousel(s, p, q, r, k)
    ensures RisingRun(s0, steps, k, n + 1, s') && Carousel(s', q, r, p, k)
  {
    var now := 1000 * (s.peers[r].rows[k].modified + 1);
    assert now / 1000 == s.peers[r].rows[k].modified + 1;
    CarouselTakes(s, p, q, r, k);
    var s1, s2, s3, s4, s5, p1, p2, p3, p4 := PlayRound(s, q, p, k, now);
    RoundRises(s, p, k, s1, s2, s3, s4, s5, p1, p2, p3, p4);
    steps := RisingRoundExtends(s0, before, n, s, q, p, k, now, s1, s2, s3, s4, s5);
    s' := s5;
    CarouselTurns(s, s5, p, q, r, k, now, p4);
  }

  /** Nor is it enough that no time ever falls: three peers pass two contents round forever, each
      download dating a row ahead of the others. */
  lemma {:induction false} RaisedRowsFlipForever(s: System, p: PeerId, q: PeerId, r: PeerId, k: Key, n: nat)
      returns (steps: seq<Step>, s': System, p': PeerId, q': PeerId, r': PeerId)
    requires Carousel(s, p, q, r, k)
    ensures RisingRun(s, steps, k, n, s') && Carousel(s', p', q', r', k)
  {
    if n == 0 {
      return [], s, p, q, r;
    }
    var before, m, a, b, c := RaisedRowsFlipForever(s, p, q, r, k, n - 1);
    steps, s' := CarouselRound(s, before, n - 1, m, a, b, c, k);
    p', q', r' := b, c, a;
  }

  // ----- Downloads that settle a tie -----

  /** `p` holds `h`, is linked with everybody, and everybody holds `h` too or an older row. */
  ghost predicate Hub(s: System, edges: Edges, p: PeerId, k: Key, h: Hash)
  {
    && p in s.peers && k in s.peers[p].rows && HashAt(s, p, k) == h && !Refused(k.path)
    && forall q | q in s.peers && q != p ::
         && Linked(edges, p, q) && k.repo in s.peers[q].tracked
         && (HashAt(s, q, k) == h || Below(StampAt(s, q, k), StampAt(s, p, k)))
  }

  ghost function Others(s: System, k: Key, h: Hash): set<PeerId>
  {
    set q | q in s.peers && HashAt(s, q, k) != h
  }

  lemma OlderAccepts(s: System, edges: Edges, p: PeerId, k: Key, h: Hash, q: PeerId)
    requires Hub(s, edges, p, k, h) && q in Others(s, k, h)
    ensures q != p && Linked(edges, p, q) && k.repo in s.peers[q].tracked
    ensures Accepts(s.peers[q], q, OfferOf(s, p, q, k))
  {
    ResolveIsLastWriteWins(LocalVersion(s.peers[q], q, k), RemoteVersion(OfferOf(s, p, q, k)));
  }

  lemma HubStays(s: System, s': System, edges: Edges, p: PeerId, k: Key, h: Hash, q: PeerId, q': Peer)
    requires Hub(s, edges, p, k, h) && q in Others(s, k, h) && q != p && s'.peers == s.peers[q := q']
    requires k in q'.rows && q'.rows[k].hash == h && q'.tracked == s.peers[q].tracked
    ensures Hub(s', edges, p, k, h) && Others(s', k, h) == Others(s, k, h) - {q}
  {
    forall r | r in s'.peers && r != p
      ensures Linked(edges, p, r) && k.repo in s'.peers[r].tracked
              && (HashAt(s', r, k) == h || Below(StampAt(s', r, k), StampAt(s', p, k)))
    {
      assert r in s.peers;
    }
  }

  lemma OfferExtends(s0: System, edges: Edges, before: seq<Step>, n: nat, s: System, p: PeerId, q: PeerId, k: Key,
                     s1: System, s2: System) returns (steps: seq<Step>)
    requires p in s.peers && k in s.peers[p].rows && GossipRun(s0, before, k, n, s) && LinkedSteps(edges, before)
    requires Linked(edges, p, q) && Handover(s, p, q, k, 0, s1, s2)
    ensures GossipRun(s0, steps, k, n + 1, s2) && LinkedSteps(edges, steps)
  {
    var a, b := Act(p, KeepMine(k, q)), Act(q, Receive(OfferOf(s, p, q, k), false, 0));
    ExtendGossip(s0, before, k, n, s, a);
    ExtendGossip(s0, before + [a], k, n, s1, b);
    LinkedSnoc(edges, before, a);
    LinkedSnoc(edges, before + [a], b);
    steps := before + [a] + [b];
  }

  /** One after the other, the hub teaches them all. */
  lemma {:induction false} HubTeaches(s0: System, edges: Edges, before: seq<Step>, n: nat, s: System,
                                      p: PeerId, k: Key, h: Hash) returns (steps: seq<Step>, n': nat, s': System)
    requires GossipRun(s0, before, k, n, s) && LinkedSteps(edges, before) && Hub(s, edges, p, k, h)
    ensures GossipRun(s0, steps, k, n', s') && LinkedSteps(edges, steps) && OneHash(s', k)
    decreases Others(s, k, h)
  {
    if Others(s, k, h) == {} {
      EverybodyAgrees(s, k, h);
      return before, n, s;
    }
    var q :| q in Others(s, k, h);
    OlderAccepts(s, edges, p, k, h, q);
    var m := OfferOf(s, p, q, k);
    var q' := HandleUpdate(s.peers[q], q, m, false, 0).peer;
    UpdateRows(s.peers[q], q, m, false, 0);
    var s1 := OfferStep(s, p, q, k);
    var s2 := DeliverStep(s1, m, 0, q');
    var steps1 := OfferExtends(s0, edges, before, n, s, p, q, k, s1, s2);
    HubStays(s, s2, edges, p, k, h, q, q');
    steps, n', s' := HubTeaches(s0, edges, steps1, n + 1, s2, p, k, h);
  }

  lemma EverybodyAgrees(s: System, k: Key, h: Hash)
    requires Others(s, k, h) == {}
    ensures OneHash(s, k)
  {
    forall q | q in s.peers ensures HashAt(s, q, k) == h {
      assert q !in Others(s, k, h);
    }
  }

  lemma LaterTieIsHub(s: System, s': System, edges: Edges, x: PeerId, p: PeerId, k: Key, top: Stamp, p': Peer)
    requires FullTie(s, edges, k, top) && p in s.peers && s'.peers == s.peers[p := p']
    requires forall q | q in s.peers && q != p :: Linked(edges, p, q)
    requires x in s.peers && k in p'.rows && p'.rows[k].hash == HashAt(s, x, k)
    requires p'.rows[k].version == top.version && p'.rows[k].modified > top.modified
    ensures Hub(s', edges, p, k, HashAt(s, x, k))
  {
  }

  lemma TieTakes(s: System, edges: Edges, x: PeerId, p: PeerId, k: Key, top: Stamp)
    requires FullTie(s, edges, k, top) && Linked(edges, x, p) && Less(p, x) && Live(s, x, k)
    requires HashAt(s, x, k) != HashAt(s, p, k) && !Fetching(s.peers[p], k, HashAt(s, x, k))
    ensures Takes(s.peers[p], p, OfferOf(s, x, p, k)) && s.peers[x].rows[k].version == top.version
  {
    TieBreaksForGreater(s, edges, x, p, k, top);
    assert StampAt(s, x, k) == top;
  }

  lemma RoundAfterTie(s: System, edges: Edges, x: PeerId, p: PeerId, k: Key, top: Stamp)
      returns (steps: seq<Step>, s': System)
    requires FullTie(s, edges, k, top) && Linked(edges, x, p) && Less(p, x) && Live(s, x, k)
    requires HashAt(s, x, k) != HashAt(s, p, k) && !Fetching(s.peers[p], k, HashAt(s, x, k))
    requires forall q | q in s.peers && q != p :: Linked(edges, p, q)
    ensures GossipRun(s, steps, k, 1, s') && LinkedSteps(edges, steps) && Hub(s', edges, p, k, HashAt(s, x, k))
  {
    var now := 1000 * (top.modified + 1);
    assert now / 1000 == top.modified + 1;
    TieTakes(s, edges, x, p, k, top);
    var p';
    assert GossipRun(s, [], k, 0, s);
    steps, s', p' := NextRound(s, [], 0, s, x, p, k, now);
    RoundIsLinked(edges, [], OfferOf(s, x, p, k), now);
    LaterTieIsHub(s, s', edges, x, p, k, top, p');
  }

  /** A tie that rows alone cannot settle: a peer linked with all others takes over the content of
      a greater one, its download completes at a time after the tie, and its row wins everywhere. */
  lemma LateDownloadSettlesTie(s: System, edges: Edges, x: PeerId, p: PeerId, k: Key, top: Stamp)
      returns (steps: seq<Step>, n: nat, s': System)
    requires FullTie(s, edges, k, top) && Linked(edges, x, p) && Less(p, x) && Live(s, x, k)
    requires HashAt(s, x, k) != HashAt(s, p, k) && !Fetching(s.peers[p], k, HashAt(s, x, k))
    requires forall q | q in s.peers && q != p :: Linked(edges, p, q)
    ensures GossipRun(s, steps, k, n, s') && LinkedSteps(edges, steps) && OneHash(s', k)
  {
    var before, m := RoundAfterTie(s, edges, x, p, k, top);
    steps, n, s' := HubTeaches(s, edges, before, 1, m, p, k, HashAt(s, x, k));
  }
}
