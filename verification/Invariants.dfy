/** Invariants of every reachable state of the replication protocol. */
module Invariants {
  import opened Base
  import opened PeerIds
  import opened Conflict
  import opened Clocks
  import opened TaskQueue
  import opened Replication
  import opened Downloads

  // ----- Versions, the Lamport bound and probes -----

  /** Rows carry versions between 1 and the Lamport counter ... */
  ghost predicate RowsBounded(p: Peer)
  {
    forall k | k in p.rows :: 1 <= p.rows[k].version <= p.lamport
  }

  /** ... and a peer whose counter is still 0 has nothing to download. */
  ghost predicate IdleAtZero(p: Peer)
  {
    p.lamport == 0 ==>
      p.pending == map[] && p.taken == multiset{} && forall r :: TasksIn(p.queued, r) == multiset{}
  }

  ghost predicate PeerInv(p: Peer) { RowsBounded(p) && IdleAtZero(p) }

  /** A message carries a real version or is the empty probe. */
  ghost predicate MsgInv(m: Msg)
  {
    m.version >= 1 || (m.hash == NoHash && m.modified == 0)
  }

  ghost predicate SystemInv(s: System)
  {
    (forall q | q in s.peers :: PeerInv(s.peers[q])) && (forall m | m in s.net :: MsgInv(m))
  }

  ghost predicate GoodEffect(e: Effect)
  {
    PeerInv(e.peer) && forall m | m in e.out :: MsgInv(m)
  }

  /** A probe never displaces anything, and a reply always has a stored row to quote. */
  lemma ProbeAndReplySafe(p: Peer, me: PeerId, m: Msg)
    requires PeerInv(p) && MsgInv(m)
    ensures m.version == 0 ==> !Resolve(LocalVersion(p, me, m.key), RemoteVersion(m)).action.AcceptRemote?
    ensures Resolve(LocalVersion(p, me, m.key), RemoteVersion(m)) == Resolution(KeepLocal, false) ==> m.key in p.rows
  {
  }

  lemma AdoptKeepsInv(p: Peer, m: Msg, now: int)
    requires PeerInv(p) && m.version >= 1
    ensures PeerInv(Adopt(p, m, now))
  {
    var p' := Adopt(p, m, now);
    assert p'.lamport >= p.lamport + 1 && p'.lamport >= m.version;
    forall k | k in p'.rows ensures 1 <= p'.rows[k].version <= p'.lamport {
      assert k == m.key || p'.rows[k] == p.rows[k];
    }
  }

  lemma UpdateKeepsInv(p: Peer, me: PeerId, m: Msg, missing: bool, now: int)
    requires PeerInv(p) && MsgInv(m)
    ensures GoodEffect(HandleUpdate(p, me, m, missing, now))
  {
    ProbeAndReplySafe(p, me, m);
    var p1 := p.(clock := Merged(p.clock, m.clock));
    if m.version >= 1 {
      AdoptKeepsInv(p1, m, now);
    }
  }

  lemma {:induction false} MaxVersionBounds(rows: map<Key, Row>, order: seq<Key>)
    requires forall k | k in order :: k in rows
    ensures forall k | k in order :: rows[k].version <= MaxVersion(rows, order)
    ensures MaxVersion(rows, order) == 0 || exists k | k in order :: rows[k].version == MaxVersion(rows, order)
  {
    if order != [] {
      MaxVersionBounds(rows, order[1..]);
      assert order == [order[0]] + order[1..];
      assert order[0] in order && forall k | k in order[1..] :: k in order;
    }
  }

  lemma RespondKeepsInv(p: Peer, path: Path, hash: Hash, outcome: Outcome, now: int)
    requires PeerInv(p)
    ensures PeerInv(HandleRespond(p, path, hash, outcome, now).peer)
  {
    var p' := HandleRespond(p, path, hash, outcome, now).peer;
    assert p'.lamport == p.lamport;
    assert p.pending != map[] ==> p.lamport > 0;
  }

  lemma LocalKeepsInv(p: Peer, me: PeerId, k: Key, c: Change, to: set<PeerId>, now: int)
    requires PeerInv(p)
    ensures GoodEffect(HandleLocal(p, me, k, c, to, now))
  {
  }

  lemma ScanFileKeepsInv(p: Peer, me: PeerId, k: Key, f: DiskFile, to: set<PeerId>, now: int)
    requires PeerInv(p)
    ensures GoodEffect(HandleScanFile(p, me, k, f, to, now))
  {
  }

  lemma ScanMissingKeepsInv(p: Peer, me: PeerId, k: Key, start: int, to: set<PeerId>, now: int)
    requires PeerInv(p)
    ensures GoodEffect(HandleScanMissing(p, me, k, start, to, now))
  {
  }

  lemma EditsKeepInv(p: Peer, me: PeerId, a: Call)
    requires PeerInv(p) && (a.Local? || a.ScanFile? || a.ScanMissing?)
    ensures GoodEffect(Handle(p, me, a))
  {
    match a {
      case Local(k, c, to, now) => LocalKeepsInv(p, me, k, c, to, now);
      case ScanFile(k, f, to, now) => ScanFileKeepsInv(p, me, k, f, to, now);
      case ScanMissing(k, start, to, now) => ScanMissingKeepsInv(p, me, k, start, to, now);
    }
  }

  lemma FewerTasksKeepInv(p: Peer, p': Peer)
    requires PeerInv(p) && p'.lamport == p.lamport && p'.pending == p.pending && p'.taken == p.taken
    requires forall k | k in p'.rows :: k in p.rows && p'.rows[k] == p.rows[k]
    requires forall r :: TasksIn(p'.queued, r) <= TasksIn(p.queued, r)
    ensures PeerInv(p')
  {
  }

  lemma TakeKeepsInv(p: Peer, t: Task)
    requires PeerInv(p) && t in TasksIn(p.queued, t.repo)
    ensures PeerInv(HandleTake(p, t).peer)
  {
    assert p.lamport > 0;
  }

  lemma ExecuteKeepsInv(p: Peer, t: Task, sending: Sending)
    requires PeerInv(p) && t in p.taken
    ensures PeerInv(HandleExecute(p, t, sending).peer)
  {
    assert p.lamport > 0;
  }

  lemma RemoveRepoKeepsInv(p: Peer, r: RepoId)
    requires PeerInv(p)
    ensures PeerInv(HandleRemoveRepo(p, r).peer)
  {
    FewerTasksKeepInv(p, HandleRemoveRepo(p, r).peer);
  }

  lemma HandlerKeepsInv(p: Peer, me: PeerId, a: Call)
    requires PeerInv(p) && Enabled(p, me, a) && (a.Receive? ==> MsgInv(a.msg))
    ensures GoodEffect(Handle(p, me, a))
  {
    match a {
      case Receive(m, missing, now) => UpdateKeepsInv(p, me, m, missing, now);
      case Restart(order) => MaxVersionBounds(p.rows, order);
      case Respond(path, hash, outcome, now) => RespondKeepsInv(p, path, hash, outcome, now);
      case Local(_, _, _, _) => EditsKeepInv(p, me, a);
      case ScanFile(_, _, _, _) => EditsKeepInv(p, me, a);
      case ScanMissing(_, _, _, _) => EditsKeepInv(p, me, a);
      case Take(t) => TakeKeepsInv(p, t);
      case Execute(t, sending) => ExecuteKeepsInv(p, t, sending);
      case RemoveRepo(r) => RemoveRepoKeepsInv(p, r);
      case _ =>
    }
  }

  lemma StepKeepsInv(s: System, step: Step)
    requires SystemInv(s) && CanStep(s, step)
    ensures SystemInv(Apply(s, step))
  {
    if step.Act? {
      var e := Handle(s.peers[step.who], step.who, step.call);
      HandlerKeepsInv(s.peers[step.who], step.who, step.call);
      assert forall m | m in Apply(s, step).net :: m in s.net || m in e.out;
    }
  }

  /** In every reachable state, restarts included, the Lamport counter bounds every stored
      version, no row has version 0, and every message is a real version or a probe. */
  lemma {:induction false} ReachableStatesAreSafe(init: System, steps: seq<Step>, s: System)
    requires SystemInv(init) && Run(init, steps, s)
    ensures SystemInv(s)
  {
    if steps != [] {
      var last := |steps| - 1;
      var m :| Run(init, steps[..last], m) && CanStep(m, steps[last]) && s == Apply(m, steps[last]);
      ReachableStatesAreSafe(init, steps[..last], m);
      StepKeepsInv(m, steps[last]);
    }
  }

  lemma InitialIsSafe(s: System)
    requires Initial(s)
    ensures SystemInv(s)
  {
    assert forall q | q in s.peers :: s.peers[q] == NewPeer && PeerInv(NewPeer);
  }

  /** From new peers on, whatever happens. */
  lemma EveryRunIsSafe(init: System, steps: seq<Step>, s: System)
    requires Initial(init) && Run(init, steps, s)
    ensures SystemInv(s)
  {
    InitialIsSafe(init);
    ReachableStatesAreSafe(init, steps, s);
  }

  // ----- Version monotonicity -----

  /** The calls that take a row away: the user's "remote" decision, the removal of its repository,
      and the last failed retry of its download. */
  predicate Drops(p: Peer, a: Call, k: Key)
  {
    || (a.TakeTheirs? && a.key == k)
    || (a.RemoveRepo? && a.repo == k.repo && k.repo in p.tracked)
    || (a.Respond? && GivesUp(p, a, k))
  }

  ghost predicate NotOlder(row: Row, row': Row)
  {
    row.version < row'.version || (row.version == row'.version && row.modified <= row'.modified)
  }

  lemma RespondKeepsVersion(p: Peer, a: Call, k: Key)
    requires k in p.rows && a.Respond?
    ensures var p' := HandleRespond(p, a.path, a.hash, a.outcome, a.now).peer;
            && (k !in p'.rows <==> GivesUp(p, a, k))
            && (k in p'.rows ==> p'.rows[k].version >= p.rows[k].version)
  {
    RespondSeenFrom(p, a, k);
  }

  lemma ScanFileKeepsVersion(p: Peer, me: PeerId, x: Key, f: DiskFile, to: set<PeerId>, now: int, k: Key)
    requires k in p.rows
    ensures var p' := HandleScanFile(p, me, x, f, to, now).peer;
            k in p'.rows && p'.rows[k].version >= p.rows[k].version
  {
  }

  /** No call lowers a version, deliveries lower neither version nor time, and a row goes away
      exactly by the three calls. */
  lemma HandlerKeepsVersions(p: Peer, me: PeerId, a: Call, k: Key)
    requires Enabled(p, me, a) && k in p.rows
    ensures var p' := Handle(p, me, a).peer;
            && (k !in p'.rows <==> Drops(p, a, k))
            && (k in p'.rows ==> p'.rows[k].version >= p.rows[k].version)
            && (a.Receive? ==> k in p'.rows && NotOlder(p.rows[k], p'.rows[k]))
  {
    match a {
      case Receive(m, missing, now) => UpdateNeverGoesBack(p, me, m, missing, now, k);
      case Take(t) => TakeTouchesNoRow(p, t);
      case Execute(t, sending) => ExecuteTouchesNoRow(p, t, sending);
      case Respond(_, _, _, _) => RespondKeepsVersion(p, a, k);
      case ScanFile(x, f, to, now) => ScanFileKeepsVersion(p, me, x, f, to, now, k);
      case _ =>
    }
  }

  lemma UpdateNeverGoesBack(p: Peer, me: PeerId, m: Msg, missing: bool, now: int, k: Key)
    requires k in p.rows
    ensures var p' := HandleUpdate(p, me, m, missing, now).peer;
            k in p'.rows && NotOlder(p.rows[k], p'.rows[k])
  {
    UpdateRows(p, me, m, missing, now);
  }

  ghost predicate KeepingStep(s: System, step: Step, q: PeerId, k: Key, s': System)
  {
    && CanStep(s, step) && s' == Apply(s, step)
    && !(step.Act? && step.who == q && Drops(s.peers[q], step.call, k))
  }

  /** Any run in which `q` makes none of the calls that drop the row. */
  ghost predicate KeepingRun(s: System, steps: seq<Step>, q: PeerId, k: Key, s': System)
  {
    if steps == [] then s' == s
    else
      var last := |steps| - 1;
      exists m :: KeepingRun(s, steps[..last], q, k, m) && KeepingStep(m, steps[last], q, k, s')
  }

  /** In all of them the row stays and its version never falls, restarts and retried downloads
      included. */
  lemma {:induction false} VersionNeverFalls(s: System, steps: seq<Step>, s': System, q: PeerId, k: Key)
    requires KeepingRun(s, steps, q, k, s') && q in s.peers && k in s.peers[q].rows
    ensures q in s'.peers && k in s'.peers[q].rows
    ensures s'.peers[q].rows[k].version >= s.peers[q].rows[k].version
  {
    if steps != [] {
      var last := |steps| - 1;
      var m :| KeepingRun(s, steps[..last], q, k, m) && KeepingStep(m, steps[last], q, k, s');
      VersionNeverFalls(s, steps[..last], m, q, k);
      if steps[last].Act? && steps[last].who == q {
        HandlerKeepsVersions(m.peers[q], q, steps[last].call, k);
      }
    }
  }
}
