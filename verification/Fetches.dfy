/** What a peer is fetching for a file: downloads queued, taken by the dispatcher or requested, and
    how each call changes that. */
module Fetches {
  import opened Base
  import opened PeerIds
  import opened Conflict
  import opened Clocks
  import opened TaskQueue
  import opened Replication
  import opened Downloads

  /** Hexadecimal digests have no colon. */
  predicate Plain(h: Hash) { ':' !in h.hex }

  lemma LastColon(s: string, text: string, hex: string)
    requires s == text + ":" + hex && ':' !in hex
    ensures s[|text|] == ':' && forall j | |text| < j < |s| :: s[j] != ':'
    ensures text == s[..|text|] && hex == s[|text| + 1..]
  {
  }

  lemma PendingKeysDiffer(a: Path, g: Hash, b: Path, h: Hash)
    requires Plain(g) && Plain(h) && PendingKey(a, g) == PendingKey(b, h)
    ensures a == b && g == h
  {
    var s := PendingKey(a, g);
    LastColon(s, a.text, g.hex);
    LastColon(s, b.text, h.hex);
    assert |a.text| == |b.text|;
  }

  predicate WorkFor(t: Task, k: Key, h: Hash)
  {
    t.repo == k.repo && t.path == k.path && t.kind.Download? && t.hash == h
  }

  predicate Requested(p: Peer, k: Key, h: Hash)
  {
    PendingKey(k.path, h) in p.pending && p.pending[PendingKey(k.path, h)].repo == k.repo
  }

  ghost predicate InQueue(p: Peer, k: Key, h: Hash)
  {
    exists t | t in TasksIn(p.queued, k.repo) :: WorkFor(t, k, h)
  }

  ghost predicate InHand(p: Peer, k: Key, h: Hash) { exists t | t in p.taken :: WorkFor(t, k, h) }

  /** A download that could still give `k` the content `h`. */
  ghost predicate Busy(p: Peer, k: Key, h: Hash)
  {
    Plain(h) && h != NoHash && (Requested(p, k, h) || InQueue(p, k, h) || InHand(p, k, h))
  }

  lemma AdoptTasks(p: Peer, m: Msg, now: int)
    ensures var p' := Adopt(p, m, now);
            && p'.pending == p.pending && p'.taken == p.taken
            && (p'.queued == p.queued || p'.queued == Enqueue(p.queued, DownloadOf(m)))
  {
    var p1 := Save(p.(lamport := Max(p.lamport, m.version) + 1), m.key, AdoptedRow(m, now));
    assert Adopt(p, m, now) == p1 || Adopt(p, m, now) == p1.(queued := Enqueue(p.queued, DownloadOf(m)));
  }

  /** What an update does to the tasks. */
  lemma UpdateTasks(p: Peer, me: PeerId, m: Msg, missing: bool, now: int)
    ensures var p' := HandleUpdate(p, me, m, missing, now).peer;
            && p'.pending == p.pending && p'.taken == p.taken
            && (p'.queued == p.queued
                || (p'.queued == Enqueue(p.queued, DownloadOf(m))
                    && (Accepts(p, me, m) || LocalVersion(p, me, m.key).hash == m.hash)))
  {
    if !Refused(m.key.path) {
      var p1 := p.(clock := Merged(p.clock, m.clock));
      match Resolve(LocalVersion(p, me, m.key), RemoteVersion(m)).action {
        case AcceptRemote => AdoptTasks(p1, m, now);
        case KeepLocal =>
        case Skip =>
          ResolveIsLastWriteWins(LocalVersion(p, me, m.key), RemoteVersion(m));
      }
    }
  }

  lemma EnqueueKeeps(queued: map<RepoId, multiset<Task>>, t: Task, r: RepoId)
    ensures forall x :: x in TasksIn(Enqueue(queued, t), r) ==> x in TasksIn(queued, r) || (x == t && r == t.repo)
    ensures forall x :: x in TasksIn(queued, r) ==> x in TasksIn(Enqueue(queued, t), r)
  {
  }

  lemma ReceiveBusy(p: Peer, me: PeerId, m: Msg, missing: bool, now: int, k: Key, h: Hash)
    ensures var p' := HandleUpdate(p, me, m, missing, now).peer;
            && (Busy(p, k, h) ==> Busy(p', k, h))
            && (Busy(p', k, h) ==> || Busy(p, k, h)
                                   || (m.key == k && m.hash == h
                                       && (Accepts(p, me, m) || LocalVersion(p, me, k).hash == h)))
  {
    UpdateTasks(p, me, m, missing, now);
    EnqueueKeeps(p.queued, DownloadOf(m), k.repo);
  }

  lemma TakeBusy(p: Peer, t: Task, k: Key, h: Hash)
    requires t in TasksIn(p.queued, t.repo)
    ensures Busy(HandleTake(p, t).peer, k, h) ==> Busy(p, k, h)
  {
    var p' := HandleTake(p, t).peer;
    assert forall x :: x in TasksIn(p'.queued, k.repo) ==> x in TasksIn(p.queued, k.repo);
    assert forall x :: x in p'.taken ==> x in p.taken || x == t;
  }

  lemma ExecuteTasks(p: Peer, t: Task, sending: Sending)
    requires t in p.taken
    ensures var p', id := HandleExecute(p, t, sending).peer, PendingKey(t.path, t.hash);
            && p'.taken == p.taken - multiset{t}
            && (p'.queued == p.queued || p'.queued == p.queued[t.repo := TasksIn(p.queued, t.repo) + multiset{t}])
            && (|| p'.pending == p.pending || p'.pending == p.pending - {id}
                || (t.kind.Download? && id in p'.pending && p'.pending[id].repo == t.repo
                    && p'.pending == p.pending[id := p'.pending[id]]))
  {
    if t.kind.Download? {
      match sending {
        case Sent =>
        case NotConnected =>
        case SendFailed =>
      }
    }
  }

  lemma ExecuteBusy(p: Peer, t: Task, sending: Sending, k: Key, h: Hash)
    requires t in p.taken && Plain(t.hash)
    ensures Busy(HandleExecute(p, t, sending).peer, k, h) ==> Busy(p, k, h)
  {
    var p' := HandleExecute(p, t, sending).peer;
    ExecuteTasks(p, t, sending);
    assert forall x | x in TasksIn(p'.queued, k.repo) ::
        x in TasksIn(p.queued, k.repo) || (x == t && t.repo == k.repo);
    if Plain(h) && Requested(p', k, h) && !Requested(p, k, h) {
      PendingKeysDiffer(t.path, t.hash, k.path, h);
      assert WorkFor(t, k, h);
    }
  }

  lemma InlineTasks(p: Peer, k: Key, hash: Hash, d: Pending, written: bool, size: nat, now: int)
    ensures var p' := StoreInline(p, k, hash, d, written, size, now);
            p'.taken == p.taken && p'.pending == p.pending && p'.queued == p.queued
  {
  }

  lemma RetryTasks(p: Peer, k: Key, hash: Hash, d: Pending, now: int)
    ensures var p' := RetryOrPurge(p, k, hash, d, now);
            && p'.taken == p.taken && p'.pending == p.pending
            && (p'.queued == p.queued || p'.queued == Enqueue(p.queued, RetryOf(k, hash, d, now)))
  {
  }

  lemma RespondTasks(p: Peer, path: Path, hash: Hash, outcome: Outcome, now: int)
    ensures var p', id := HandleRespond(p, path, hash, outcome, now).peer, PendingKey(path, hash);
            && p'.taken == p.taken && (p'.pending == p.pending || p'.pending == p.pending - {id})
            && (p'.queued == p.queued
                || (id in p.pending
                    && p'.queued
                       == Enqueue(p.queued, RetryOf(Key(p.pending[id].repo, path), hash, p.pending[id], now))))
  {
    var id := PendingKey(path, hash);
    if id in p.pending {
      var d, p1 := p.pending[id], p.(pending := p.pending - {id});
      if outcome.Inline? {
        InlineTasks(p1, Key(d.repo, path), hash, d, outcome.written, outcome.size, now);
      } else if outcome.Stream? && !outcome.started {
        RetryTasks(p1, Key(d.repo, path), hash, d, now);
      }
    }
  }

  lemma RespondBusy(p: Peer, path: Path, hash: Hash, outcome: Outcome, now: int, k: Key, h: Hash)
    ensures Busy(HandleRespond(p, path, hash, outcome, now).peer, k, h) ==> Busy(p, k, h)
  {
    var p', id := HandleRespond(p, path, hash, outcome, now).peer, PendingKey(path, hash);
    RespondTasks(p, path, hash, outcome, now);
    if p'.queued != p.queued {
      EnqueueKeeps(p.queued, RetryOf(Key(p.pending[id].repo, path), hash, p.pending[id], now), k.repo);
    }
  }
}
