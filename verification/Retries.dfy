/** Responses, field by field, and how often a download is tried: three times again after the
    first failure, and never more. */
module Retries {
  import opened Base
  import opened PeerIds
  import opened Conflict
  import opened Clocks
  import opened TaskQueue
  import opened Replication
  import opened Downloads
  import opened Fetches
  import opened Paths
  import opened Effects

  // ----- One response -----

  function RequestId(path: Path, hash: Hash): string { path.text + ":" + hash.hex }

  /** The same request, once more. */
  predicate AsksAgain(t: Task, d: Pending, path: Path, hash: Hash, now: int)
  {
    && t.repo == d.repo && t.path == path && t.kind.Download? && t.hash == hash && t.size == d.size && t.mode == d.mode
    && t.peer == d.peer && t.timestamp == now && t.retries == d.retries + 1
  }

  /** The row that content received in the response leaves. */
  predicate StoredInline(p: Peer, k: Key, row: Row, hash: Hash, d: Pending, size: nat, now: int)
  {
    && row.hash == hash && row.size == size && row.mode == d.mode && !row.deleted
    && row.modified == now / 1000 && row.updatedAt == now && row.clock == map[]
    && row.version == if k in p.rows then p.rows[k].version else 1
  }

  /** The path lets content in the response be stored. */
  ghost predicate StoresInline(path: Path) { !StartsWith(path.text, "/") && !Contains(path.text, "..") }

  /** The path keeps a stream from being asked for. */
  ghost predicate KeepsFromStreaming(path: Path)
  {
    StartsWith(path.text, "/") || StartsWith(path.text, "..") || Contains(path.text, "../")
  }

  /** What remains after the request for `k` is used up: content that came with the response and
      was written is stored; a stream that did not start is queued again after fewer than three
      retries, unless it is queued already; after three the row is dropped. */
  ghost predicate Answered(p: Peer, p': Peer, k: Key, hash: Hash, d: Pending, outcome: Outcome, now: int)
    requires !outcome.PeerError?
  {
    if outcome.Inline? then
      && p'.queued == p.queued
      && if outcome.written && d.repo in p.tracked && StoresInline(k.path)
         then k in p'.rows && StoredInline(p, k, p'.rows[k], hash, d, outcome.size, now) else SameRow(p, p', k)
    else if outcome.started || KeepsFromStreaming(k.path) then
      p'.queued == p.queued && SameRow(p, p', k)
    else if d.retries < 3 then
      && SameRow(p, p', k)
      && if QueuedDownload(p, k, hash) then p'.queued == p.queued
         else exists t :: AsksAgain(t, d, k.path, hash, now) && Gains(p.queued, p'.queued, t)
    else
      p'.queued == p.queued && k !in p'.rows
  }

  /** A response that reports an error, has no hash or answers no request changes nothing.  Any
      other uses up the request, touches no row but the file's, and leaves clocks, repositories
      and taken tasks alone. */
  lemma RespondEffect(p: Peer, path: Path, hash: Hash, outcome: Outcome, now: int)
    ensures var e, id := HandleRespond(p, path, hash, outcome, now), RequestId(path, hash);
            if outcome.PeerError? || hash.hex == "" || id !in p.pending then e == Effect(p, {})
            else
              var d := p.pending[id];
              && e.out == {} && e.peer == p.(rows := e.peer.rows, queued := e.peer.queued, pending := p.pending - {id})
              && (forall x | x != Key(d.repo, path) :: SameRow(p, e.peer, x))
              && Answered(p, e.peer, Key(d.repo, path), hash, d, outcome, now)
  {
    var id := PendingKey(path, hash);
    assert id == RequestId(path, hash);
    assert hash.hex == "" <==> hash == NoHash;
    if !outcome.PeerError? && hash.hex != "" && id in p.pending {
      UsedUp(p, path, hash, outcome, now);
    }
  }

  lemma UsedUp(p: Peer, path: Path, hash: Hash, outcome: Outcome, now: int)
    requires !outcome.PeerError? && hash != NoHash && PendingKey(path, hash) in p.pending
    ensures var e, id := HandleRespond(p, path, hash, outcome, now), PendingKey(path, hash);
            var d := p.pending[id];
            && e.out == {} && e.peer == p.(rows := e.peer.rows, queued := e.peer.queued, pending := p.pending - {id})
            && (forall x | x != Key(d.repo, path) :: SameRow(p, e.peer, x))
            && Answered(p, e.peer, Key(d.repo, path), hash, d, outcome, now)
  {
    var id := PendingKey(path, hash);
    var d := p.pending[id];
    var k, p1 := Key(d.repo, path), p.(pending := p.pending - {id});
    if outcome.Inline? {
      RefusedIff(path);
      InlineEffect(p1, k, hash, d, outcome.written, outcome.size, now);
    } else {
      EscapesIff(path);
      RetryEffect(p1, k, hash, d, now);
      assert QueuedDownload(p1, k, hash) <==> QueuedDownload(p, k, hash);
    }
  }

  lemma InlineEffect(p: Peer, k: Key, hash: Hash, d: Pending, written: bool, size: nat, now: int)
    ensures var p' := StoreInline(p, k, hash, d, written, size, now);
            && p' == p.(rows := p'.rows) && (forall x | x != k :: SameRow(p, p', x))
            && if written && k.repo in p.tracked && Storable(k.path)
               then k in p'.rows && StoredInline(p, k, p'.rows[k], hash, d, size, now) else SameRow(p, p', k)
  {
  }

  lemma RetryEffect(p: Peer, k: Key, hash: Hash, d: Pending, now: int)
    requires d.repo == k.repo
    ensures var p' := RetryOrPurge(p, k, hash, d, now);
            && p' == p.(rows := p'.rows, queued := p'.queued) && (forall x | x != k :: SameRow(p, p', x))
            && if d.retries < 3 then
                 && SameRow(p, p', k)
                 && (if QueuedDownload(p, k, hash) then p'.queued == p.queued
                     else exists t :: AsksAgain(t, d, k.path, hash, now) && Gains(p.queued, p'.queued, t))
               else p'.queued == p.queued && k !in p'.rows
  {
    var t := RetryOf(k, hash, d, now);
    EnqueueGains(p.queued, t);
    assert AsksAgain(t, d, k.path, hash, now);
    assert HasWork(p.queued, t.repo, t.path, t.kind, t.hash) <==> QueuedDownload(p, k, hash);
  }

  // ----- Four failures -----

  /** The content is requested, after `n` retries, and not queued. */
  ghost predicate Waiting(p: Peer, k: Key, hash: Hash, d: Pending, n: nat)
  {
    && hash.hex != "" && RequestId(k.path, hash) in p.pending
    && p.pending[RequestId(k.path, hash)] == d.(retries := n) && d.repo == k.repo
    && !KeepsFromStreaming(k.path) && !QueuedDownload(p, k, hash)
  }

  /** The stream fails, the task that this queues is taken, and the request goes out again. */
  ghost predicate FailsAndRetries(p: Peer, k: Key, hash: Hash, now: int, failed: Peer, t: Task, again: Peer)
  {
    && failed == HandleRespond(p, k.path, hash, Stream(false), now).peer
    && failed.rows == p.rows && t in TasksIn(failed.queued, k.repo)
    && again == HandleExecute(HandleTake(failed, t).peer, t, Sent).peer && again.rows == p.rows
  }

  lemma OneFailure(p: Peer, k: Key, hash: Hash, d: Pending, n: nat, now: int)
      returns (failed: Peer, t: Task, again: Peer)
    requires Waiting(p, k, hash, d, n) && n < 3
    ensures FailsAndRetries(p, k, hash, now, failed, t, again) && Waiting(again, k, hash, d, n + 1)
    ensures AsksAgain(t, d.(retries := n), k.path, hash, now)
  {
    RespondEffect(p, k.path, hash, Stream(false), now);
    failed := HandleRespond(p, k.path, hash, Stream(false), now).peer;
    t :| AsksAgain(t, d.(retries := n), k.path, hash, now) && Gains(p.queued, failed.queued, t);
    assert t in TasksIn(failed.queued, t.repo);
    again := HandleExecute(HandleTake(failed, t).peer, t, Sent).peer;
    TakenIsRequested(p.(pending := failed.pending), failed, t);
    ExecuteTouchesNoRow(HandleTake(failed, t).peer, t, Sent);
    SameRows(p, failed, k);
    assert QueuedDownload(again, k, hash) <==> QueuedDownload(p, k, hash);
  }

  lemma SameRows(p: Peer, p': Peer, k: Key)
    requires SameRow(p, p', k) && forall x | x != k :: SameRow(p, p', x)
    ensures p'.rows == p.rows
  {
    forall x ensures x in p'.rows.Keys <==> x in p.rows.Keys {
      assert x == k || SameRow(p, p', x);
    }
    forall x | x in p.rows ensures p'.rows[x] == p.rows[x] {
      assert x == k || SameRow(p, p', x);
    }
  }

  /** From a first request on: three failures each leave the row and queue the download again, from
      the same peer, with one retry more; the fourth removes the row and queues nothing. */
  lemma FourthFailurePurges(p: Peer, k: Key, hash: Hash, d: Pending, now: int)
      returns (failed1: Peer, t1: Task, p1: Peer, failed2: Peer, t2: Task, p2: Peer, failed3: Peer, t3: Task, p3: Peer)
    requires Waiting(p, k, hash, d, 0)
    ensures FailsAndRetries(p, k, hash, now, failed1, t1, p1) && t1.retries == 1 && t1.peer == d.peer
    ensures FailsAndRetries(p1, k, hash, now, failed2, t2, p2) && t2.retries == 2 && t2.peer == d.peer
    ensures FailsAndRetries(p2, k, hash, now, failed3, t3, p3) && t3.retries == 3 && t3.peer == d.peer
    ensures var p' := HandleRespond(p3, k.path, hash, Stream(false), now).peer;
            k !in p'.rows && p'.queued == p3.queued && RequestId(k.path, hash) !in p'.pending
  {
    failed1, t1, p1 := OneFailure(p, k, hash, d, 0, now);
    failed2, t2, p2 := OneFailure(p1, k, hash, d, 1, now);
    failed3, t3, p3 := OneFailure(p2, k, hash, d, 2, now);
    RespondEffect(p3, k.path, hash, Stream(false), now);
  }

  // ----- No run tries more often -----

  ghost predicate WithinRetries(p: Peer)
  {
    && (forall r, t | t in TasksIn(p.queued, r) :: t.retries <= 3)
    && (forall t | t in p.taken :: t.retries <= 3)
    && (forall id | id in p.pending :: p.pending[id].retries <= 3)
  }

  lemma ReceiveWithinRetries(p: Peer, me: PeerId, m: Msg, missing: bool, now: int)
    requires WithinRetries(p)
    ensures WithinRetries(HandleUpdate(p, me, m, missing, now).peer)
  {
    UpdateQueues(p, me, m, missing, now);
    var p' := HandleUpdate(p, me, m, missing, now).peer;
    if Wanted(p, me, m, missing) {
      var t :| AsksFor(t, m) && Gains(p.queued, p'.queued, t);
      GainsWithin(p.queued, p'.queued, t);
    }
  }

  lemma GainsWithin(queued: map<RepoId, multiset<Task>>, queued': map<RepoId, multiset<Task>>, t: Task)
    requires Gains(queued, queued', t) && t.retries <= 3
    requires forall r, x | x in TasksIn(queued, r) :: x.retries <= 3
    ensures forall r, x | x in TasksIn(queued', r) :: x.retries <= 3
  {
    forall r, x | x in TasksIn(queued', r) ensures x.retries <= 3 {
      assert x in TasksIn(queued, r) || x == t;
    }
  }

  lemma RespondWithinRetries(p: Peer, path: Path, hash: Hash, outcome: Outcome, now: int)
    requires WithinRetries(p)
    ensures WithinRetries(HandleRespond(p, path, hash, outcome, now).peer)
  {
    RespondEffect(p, path, hash, outcome, now);
    var p', id := HandleRespond(p, path, hash, outcome, now).peer, RequestId(path, hash);
    if p'.queued != p.queued {
      var t :| AsksAgain(t, p.pending[id], path, hash, now) && Gains(p.queued, p'.queued, t);
      GainsWithin(p.queued, p'.queued, t);
    }
  }

  lemma TakeWithinRetries(p: Peer, t: Task)
    requires WithinRetries(p) && t in TasksIn(p.queued, t.repo)
    ensures WithinRetries(HandleTake(p, t).peer)
  {
    var p' := HandleTake(p, t).peer;
    forall r, x | x in TasksIn(p'.queued, r) ensures x.retries <= 3 { assert x in TasksIn(p.queued, r); }
  }

  lemma ExecuteWithinRetries(p: Peer, t: Task, sending: Sending)
    requires WithinRetries(p) && t in p.taken
    ensures WithinRetries(HandleExecute(p, t, sending).peer)
  {
    if t.kind.Download? && sending != Sent {
      UnsentIsBackInItsQueue(p, t, sending);
      GainsWithin(p.queued, HandleExecute(p, t, sending).peer.queued, t);
    }
  }

  lemma ScansKeepTasks(p: Peer, me: PeerId, k: Key, f: DiskFile, scanStart: int, to: set<PeerId>, now: int)
    ensures var p1 := HandleScanFile(p, me, k, f, to, now).peer;
            var p2 := HandleScanMissing(p, me, k, scanStart, to, now).peer;
            && p1.queued == p.queued && p1.taken == p.taken && p1.pending == p.pending
            && p2.queued == p.queued && p2.taken == p.taken && p2.pending == p.pending
  {
  }

  lemma HandlerWithinRetries(p: Peer, me: PeerId, a: Call)
    requires WithinRetries(p) && Enabled(p, me, a)
    ensures WithinRetries(Handle(p, me, a).peer)
  {
    match a {
      case Receive(m, missing, now) => ReceiveWithinRetries(p, me, m, missing, now);
      case Respond(path, hash, outcome, now) => RespondWithinRetries(p, path, hash, outcome, now);
      case Take(t) => TakeWithinRetries(p, t);
      case Execute(t, sending) => ExecuteWithinRetries(p, t, sending);
      case Local(k, c, to, now) => LocalChangeEffect(p, me, k, c, to, now);
      case ScanFile(k, f, to, now) => ScansKeepTasks(p, me, k, f, 0, to, now);
      case ScanMissing(k, start, to, now) => ScansKeepTasks(p, me, k, DiskFile(NoHash, 0, 0, 0), start, to, now);
      case RemoveRepo(r) => if r in p.tracked { RemoveRepoEffect(p, r); }
      case Restart(order) => RestartEffect(p, order);
      case _ =>
    }
  }

  /** In every run from new peers, nothing that is queued, being carried out or requested was
      retried more than three times. */
  lemma {:induction false} EveryRunStaysWithinRetries(init: System, steps: seq<Step>, s: System)
    requires Initial(init) && Run(init, steps, s)
    ensures forall q | q in s.peers :: WithinRetries(s.peers[q])
  {
    if steps == [] {
      assert forall q | q in s.peers :: s.peers[q] == NewPeer;
    } else {
      var last := |steps| - 1;
      var m :| Run(init, steps[..last], m) && CanStep(m, steps[last]) && s == Apply(m, steps[last]);
      EveryRunStaysWithinRetries(init, steps[..last], m);
      if steps[last].Act? {
        HandlerWithinRetries(m.peers[steps[last].who], steps[last].who, steps[last].call);
      }
    }
  }
}
