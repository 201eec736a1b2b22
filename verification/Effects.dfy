/** What each call of the coordinator leaves behind and sends, field by field: in the terms of the
    change, the message, the file or the request that it was called with. */
module Effects {
  import opened Base
  import opened PeerIds
  import opened Conflict
  import opened Clocks
  import opened TaskQueue
  import opened Replication
  import opened Invariants
  import opened Paths
  import opened Convergence

  // ----- Deliveries -----

  /** When a delivered offer is taken over. */
  lemma AcceptsIff(p: Peer, me: PeerId, m: Msg)
    ensures Accepts(p, me, m) <==>
              && !Refused(m.key.path)
              && if m.key in p.rows then
                   var row := p.rows[m.key];
                   && m.hash != row.hash
                   && (|| m.version > row.version
                       || (m.version == row.version && m.modified > row.modified)
                       || (m.version == row.version && m.modified == row.modified && Less(me, m.src)))
                 else
                   m.hash != NoHash && (m.version > 0 || m.modified > 0 || (m.modified == 0 && Less(me, m.src)))
  {
    ResolveIsLastWriteWins(LocalVersion(p, me, m.key), RemoteVersion(m));
  }

  /** A row with the content of an offer, stored at `now`. */
  predicate StoredFrom(row: Row, m: Msg, now: int)
  {
    && row.hash == m.hash && row.size == m.size && row.version == m.version && row.modified == m.modified
    && row.deleted == m.deleted && row.mode == m.mode && row.updatedAt == now && row.clock == map[]
  }

  /** A delivery stores the offer exactly when it is accepted and the repository tracked, touches
      no other row, and moves the Lamport clock just past its own value and the offer's version. */
  lemma UpdateStores(p: Peer, me: PeerId, m: Msg, missing: bool, now: int)
    ensures var p' := HandleUpdate(p, me, m, missing, now).peer;
            && (Accepts(p, me, m) && m.key.repo in p.tracked ==>
                  m.key in p'.rows && StoredFrom(p'.rows[m.key], m, now))
            && (forall k | !(Accepts(p, me, m) && m.key.repo in p.tracked && k == m.key) :: SameRow(p, p', k))
            && (!Accepts(p, me, m) ==> p'.lamport == p.lamport)
            && (Accepts(p, me, m) ==>
                  && p'.lamport > p.lamport && p'.lamport > m.version
                  && (p'.lamport == p.lamport + 1 || p'.lamport == m.version + 1))
            && (forall q :: At(p'.clock, q) == if Refused(m.key.path) || At(m.clock, q) <= At(p.clock, q)
                                               then At(p.clock, q) else At(m.clock, q))
  {
    UpdateRows(p, me, m, missing, now);
    UpdateLamport(p, me, m, missing, now);
    forall q { MergedAt(p.clock, m.clock, q); }
  }

  lemma UpdateLamport(p: Peer, me: PeerId, m: Msg, missing: bool, now: int)
    ensures HandleUpdate(p, me, m, missing, now).peer.lamport
            == if Accepts(p, me, m) then Max(p.lamport, m.version) + 1 else p.lamport
  {
    var p1 := p.(clock := Merged(p.clock, m.clock));
    if Accepts(p, me, m) {
      var p2 := Save(p1.(lamport := Max(p.lamport, m.version) + 1), m.key, AdoptedRow(m, now));
      assert Adopt(p1, m, now) == p2 || Adopt(p1, m, now) == p2.(queued := Enqueue(p.queued, DownloadOf(m)));
    }
  }

  /** A first download of the content offered, to be asked of the peer that offered it. */
  predicate AsksFor(t: Task, m: Msg)
  {
    && t.repo == m.key.repo && t.path == m.key.path && t.kind.Download? && t.hash == m.hash && t.size == m.size
    && t.mode == m.mode && t.timestamp == 1000 * m.modified && t.retries == 0 && t.peer == m.src
  }

  /** One task more, and nothing else. */
  ghost predicate Gains(queued: map<RepoId, multiset<Task>>, queued': map<RepoId, multiset<Task>>, t: Task)
  {
    forall r :: TasksIn(queued', r) == TasksIn(queued, r) + if r == t.repo then multiset{t} else multiset{}
  }

  ghost predicate QueuedDownload(p: Peer, k: Key, h: Hash)
  {
    exists t | t in TasksIn(p.queued, k.repo) :: t.path == k.path && t.kind.Download? && t.hash == h
  }

  /** The content is missing and not on its way: of a live offer that is accepted, unless it is
      queued or requested; or of a live row that the offer repeats while the file is not on disk,
      unless it is queued. */
  ghost predicate Wanted(p: Peer, me: PeerId, m: Msg, missing: bool)
  {
    && !Refused(m.key.path) && !QueuedDownload(p, m.key, m.hash)
    && (|| (Accepts(p, me, m) && !m.deleted && (m.key.path.text + ":" + m.hash.hex) !in p.pending)
        || (m.key in p.rows && p.rows[m.key].hash == m.hash && !p.rows[m.key].deleted
            && m.key.repo in p.tracked && missing))
  }

  lemma EnqueueGains(queued: map<RepoId, multiset<Task>>, t: Task)
    ensures if HasWork(queued, t.repo, t.path, t.kind, t.hash) then Enqueue(queued, t) == queued
            else Gains(queued, Enqueue(queued, t), t)
  {
  }

  lemma AdoptQueues(p: Peer, m: Msg, now: int)
    ensures var p' := Adopt(p, m, now);
            && p'.pending == p.pending && p'.taken == p.taken
            && p'.queued == if m.deleted || Fetching(p, m.key, m.hash) then p.queued
                            else Enqueue(p.queued, DownloadOf(m))
  {
    var p1 := Save(p.(lamport := Max(p.lamport, m.version) + 1), m.key, AdoptedRow(m, now));
    assert p1.queued == p.queued && p1.pending == p.pending && p1.taken == p.taken;
  }

  lemma WantedIffQueued(p: Peer, me: PeerId, m: Msg, missing: bool, now: int)
    ensures var p' := HandleUpdate(p, me, m, missing, now).peer;
            && p'.pending == p.pending && p'.taken == p.taken
            && p'.queued == if Wanted(p, me, m, missing) then Enqueue(p.queued, DownloadOf(m)) else p.queued
  {
    var p1 := p.(clock := Merged(p.clock, m.clock));
    AdoptQueues(p1, m, now);
    AcceptsIff(p, me, m);
    ResolveIsLastWriteWins(LocalVersion(p, me, m.key), RemoteVersion(m));
    assert HasWork(p.queued, m.key.repo, m.key.path, Download, m.hash) <==> QueuedDownload(p, m.key, m.hash);
    assert PendingKey(m.key.path, m.hash) == m.key.path.text + ":" + m.hash.hex;
  }

  /** A delivery queues exactly one download when its content is wanted, and otherwise none. */
  lemma UpdateQueues(p: Peer, me: PeerId, m: Msg, missing: bool, now: int)
    ensures var p' := HandleUpdate(p, me, m, missing, now).peer;
            && p'.pending == p.pending && p'.taken == p.taken
            && (if Wanted(p, me, m, missing) then exists t :: AsksFor(t, m) && Gains(p.queued, p'.queued, t)
                else p'.queued == p.queued)
  {
    WantedIffQueued(p, me, m, missing, now);
    EnqueueGains(p.queued, DownloadOf(m));
    assert AsksFor(DownloadOf(m), m);
  }

  /** Taking such a task and sending its request leaves the content pending from the peer that
      offered it, and the queue as it was before the delivery. */
  lemma WantedIsRequestedFromItsSource(p: Peer, me: PeerId, m: Msg, missing: bool, now: int)
    requires Wanted(p, me, m, missing)
    ensures var p1 := HandleUpdate(p, me, m, missing, now).peer;
            exists t ::
              && AsksFor(t, m) && t in TasksIn(p1.queued, m.key.repo)
              && var p3 := HandleExecute(HandleTake(p1, t).peer, t, Sent).peer;
                 && (forall r :: TasksIn(p3.queued, r) == TasksIn(p.queued, r)) && p3.taken == p.taken
                 && p3.pending == p.pending[m.key.path.text + ":" + m.hash.hex :=
                                              Pending(m.key.repo, m.size, m.mode, m.src, 0)]
  {
    UpdateQueues(p, me, m, missing, now);
    var p1 := HandleUpdate(p, me, m, missing, now).peer;
    var t :| AsksFor(t, m) && Gains(p.queued, p1.queued, t);
    assert t in TasksIn(p1.queued, t.repo);
    TakenIsRequested(p, p1, t);
  }

  lemma TakenIsRequested(p: Peer, p1: Peer, t: Task)
    requires Gains(p.queued, p1.queued, t) && p1.taken == p.taken && p1.pending == p.pending && t.kind.Download?
    ensures var p3 := HandleExecute(HandleTake(p1, t).peer, t, Sent).peer;
            && (forall r :: TasksIn(p3.queued, r) == TasksIn(p.queued, r)) && p3.taken == p.taken
            && p3.pending == p.pending[t.path.text + ":" + t.hash.hex :=
                                         Pending(t.repo, t.size, t.mode, t.peer, t.retries)]
  {
    var p3 := HandleExecute(HandleTake(p1, t).peer, t, Sent).peer;
    forall r ensures TasksIn(p3.queued, r) == TasksIn(p.queued, r) {
      assert TasksIn(p.queued, t.repo) + multiset{t} - multiset{t} == TasksIn(p.queued, t.repo);
    }
    assert p.taken + multiset{t} - multiset{t} == p.taken;
  }

  /** A task whose request does not go out is back in its queue, and no other request is lost. */
  lemma UnsentIsBackInItsQueue(p: Peer, t: Task, sending: Sending)
    requires t in p.taken && t.kind.Download? && sending != Sent
    ensures var p' := HandleExecute(p, t, sending).peer;
            && Gains(p.queued, p'.queued, t) && p'.taken + multiset{t} == p.taken
            && p'.pending == if sending == NotConnected then p.pending
                             else p.pending - {t.path.text + ":" + t.hash.hex}
  {
    assert p.taken - multiset{t} + multiset{t} == p.taken;
    PutBackGains(p, t);
  }

  lemma PutBackGains(p: Peer, t: Task)
    ensures Gains(p.queued, PutBack(p, t).queued, t)
  {
  }

  // ----- Local changes -----

  /** A change that repeats what the row says already. */
  predicate Repeats(p: Peer, k: Key, c: Change)
  {
    && k in p.rows && p.rows[k].hash == c.hash && p.rows[k].size == c.size && p.rows[k].mode == c.mode
    && (p.rows[k].deleted <==> c.kind == Delete)
  }

  ghost predicate Ignored(p: Peer, k: Key, c: Change)
  {
    k.repo !in p.tracked || EndsWith(k.path.text, ".tmp") || Repeats(p, k, c)
  }

  /** The version of a change: 1 for a new file; the same for content that follows an empty file;
      otherwise one more. */
  predicate Numbers(p: Peer, k: Key, c: Change, version: nat)
  {
    && (k !in p.rows ==> version == 1)
    && (k in p.rows && p.rows[k].size == 0 && c.size > 0 && c.kind == Modify ==> version == p.rows[k].version)
    && (k in p.rows && !(p.rows[k].size == 0 && c.size > 0 && c.kind == Modify) ==> version == p.rows[k].version + 1)
  }

  predicate Records(row: Row, c: Change, now: int)
  {
    && row.hash == c.hash && row.size == c.size && row.modified == c.modified && row.mode == c.mode
    && (row.deleted <==> c.kind == Delete) && row.updatedAt == now
  }

  /** One event more at `me`, on both clocks; every row but that of `k`, and all tasks, as before. */
  ghost predicate CountsOneAt(p: Peer, p': Peer, me: PeerId, k: Key)
  {
    && p'.lamport == p.lamport + 1 && p'.tracked == p.tracked
    && p'.queued == p.queued && p'.taken == p.taken && p'.pending == p.pending
    && (forall q :: At(p'.clock, q) == At(p.clock, q) + if q == me then 1 else 0)
    && forall x | x != k :: SameRow(p, p', x)
  }

  /** Exactly one message to each of `to`, carrying the row and the clock. */
  ghost predicate AnnouncedTo(out: set<Msg>, me: PeerId, to: set<PeerId>, k: Key, row: Row, clock: Clock)
  {
    forall m :: m in out <==> m.dst in to && Carries(m, me, m.dst, k, row) && m.clock == clock
  }

  lemma BroadcastAnnounces(me: PeerId, to: set<PeerId>, k: Key, row: Row, clock: Clock)
    ensures AnnouncedTo(Broadcast(Offer(me, me, k, row, clock), to), me, to, k, row, clock)
  {
    var msg := Offer(me, me, k, row, clock);
    forall m: Msg | m.dst in to && Carries(m, me, m.dst, k, row) && m.clock == clock ensures m in Broadcast(msg, to) {
      assert m == msg.(dst := m.dst);
    }
  }

  /** A change is ignored, or stored under the next version and announced to every connected peer
      unless it is of an empty file that was not deleted. */
  lemma LocalChangeEffect(p: Peer, me: PeerId, k: Key, c: Change, to: set<PeerId>, now: int)
    ensures var e := HandleLocal(p, me, k, c, to, now);
            if Ignored(p, k, c) then e == Effect(p, {})
            else
              && k in e.peer.rows && Records(e.peer.rows[k], c, now) && Numbers(p, k, c, e.peer.rows[k].version)
              && e.peer.rows[k].clock == e.peer.clock && CountsOneAt(p, e.peer, me, k)
              && (if c.size > 0 || c.kind == Delete
                  then AnnouncedTo(e.out, me, to, k, e.peer.rows[k], e.peer.clock) else e.out == {})
  {
    IsTempIff(k.path);
    var e := HandleLocal(p, me, k, c, to, now);
    if !Ignored(p, k, c) {
      BroadcastAnnounces(me, to, k, e.peer.rows[k], e.peer.clock);
    }
  }

  /** A change, deletions included, that is announced to `q` and delivered there: `q` holds it in
      full if it outranks other content there, and otherwise keeps what it has. */
  lemma ChangeReplicates(s: System, me: PeerId, k: Key, c: Change, to: set<PeerId>, now: int,
                         q: PeerId, missing: bool, later: int)
      returns (m: Msg, s1: System, s2: System)
    requires me in s.peers && q in s.peers && q in to && q != me && !Ignored(s.peers[me], k, c)
    requires (c.size > 0 || c.kind == Delete) && !Refused(k.path) && k.repo in s.peers[q].tracked
    ensures CanStep(s, Act(me, Local(k, c, to, now))) && s1 == Apply(s, Act(me, Local(k, c, to, now)))
    ensures CanStep(s1, Act(q, Receive(m, missing, later))) && s2 == Apply(s1, Act(q, Receive(m, missing, later)))
    ensures me in s1.peers && k in s1.peers[me].rows && q in s2.peers && s1.peers[q] == s.peers[q]
    ensures var row, held := s1.peers[me].rows[k], LocalVersion(s.peers[q], q, k);
            && Records(row, c, now) && Numbers(s.peers[me], k, c, row.version)
            && if c.hash != held.hash && Outranks(FileVersion(c.hash, row.version, c.modified, me), held)
               then k in s2.peers[q].rows && SameContent(s2.peers[q].rows[k], row)
               else SameRow(s.peers[q], s2.peers[q], k)
  {
    var p, step := s.peers[me], Act(me, Local(k, c, to, now));
    LocalChangeEffect(p, me, k, c, to, now);
    var e := HandleLocal(p, me, k, c, to, now);
    s1 := Apply(s, step);
    m := Offer(me, q, k, e.peer.rows[k], e.peer.clock);
    assert m in e.out && m in s1.net;
    s2 := Apply(s1, Act(q, Receive(m, missing, later)));
    ResolveIsLastWriteWins(LocalVersion(s.peers[q], q, k), RemoteVersion(m));
    UpdateStores(s.peers[q], q, m, missing, later);
  }

  // ----- The start-up scan, one file at a time -----

  /** The row says it is live and has the file's size, time and mode: its content is not read. */
  predicate Unchanged(p: Peer, k: Key, f: DiskFile)
  {
    && k in p.rows && !p.rows[k].deleted
    && p.rows[k].size == f.size && p.rows[k].modified == f.modified && p.rows[k].mode == f.mode
  }

  /** Same content under another time. */
  predicate Touched(p: Peer, k: Key, f: DiskFile)
  {
    && k in p.rows && !p.rows[k].deleted && p.rows[k].modified != f.modified
    && p.rows[k].hash == f.hash && p.rows[k].size == f.size && p.rows[k].mode == f.mode
  }

  predicate RecordsFile(row: Row, f: DiskFile, now: int)
  {
    && row.hash == f.hash && row.size == f.size && row.modified == f.modified && row.mode == f.mode
    && !row.deleted && row.updatedAt == now
  }

  /** A file met by the scan is passed over, re-dated, or stored with its own hash under the next
      version and announced unless it is empty. */
  lemma ScanFileEffect(p: Peer, me: PeerId, k: Key, f: DiskFile, to: set<PeerId>, now: int)
    requires k.repo in p.tracked
    ensures var e := HandleScanFile(p, me, k, f, to, now);
            if EndsWith(k.path.text, ".tmp") || Unchanged(p, k, f) then e == Effect(p, {})
            else if Touched(p, k, f) then
              && e.out == {} && e.peer == p.(rows := e.peer.rows) && (forall x | x != k :: SameRow(p, e.peer, x))
              && k in e.peer.rows && e.peer.rows[k] == p.rows[k].(modified := f.modified, updatedAt := now)
            else
              && CountsOneAt(p, e.peer, me, k) && k in e.peer.rows && RecordsFile(e.peer.rows[k], f, now)
              && e.peer.rows[k].clock == map[]
              && e.peer.rows[k].version == (if k in p.rows then p.rows[k].version + 1 else 1)
              && (if f.size > 0 then AnnouncedTo(e.out, me, to, k, e.peer.rows[k], e.peer.clock) else e.out == {})
  {
    IsTempIff(k.path);
    var e := HandleScanFile(p, me, k, f, to, now);
    if !IsTemp(k.path) && !Unchanged(p, k, f) && !Touched(p, k, f) {
      assert e == Index(p, me, k, f, to, now);
      BroadcastAnnounces(me, to, k, e.peer.rows[k], e.peer.clock);
    }
  }

  /** A live row older than the scan whose file was not met becomes a tombstone of the next version
      that keeps everything else, and is announced. */
  lemma ScanMissingEffect(p: Peer, me: PeerId, k: Key, scanStart: int, to: set<PeerId>, now: int)
    requires k.repo in p.tracked
    ensures var e := HandleScanMissing(p, me, k, scanStart, to, now);
            if k in p.rows && !p.rows[k].deleted && p.rows[k].updatedAt < scanStart then
              && CountsOneAt(p, e.peer, me, k) && k in e.peer.rows
              && e.peer.rows[k] == p.rows[k].(version := p.rows[k].version + 1, deleted := true, updatedAt := now)
              && AnnouncedTo(e.out, me, to, k, e.peer.rows[k], e.peer.clock)
            else e == Effect(p, {})
  {
    var e := HandleScanMissing(p, me, k, scanStart, to, now);
    if k in e.peer.rows {
      BroadcastAnnounces(me, to, k, e.peer.rows[k], e.peer.clock);
    }
  }

  // ----- Connecting, the user's decisions, repositories, restarts -----

  /** A new connection is offered every live row of a tracked repository, once, and nothing else. */
  lemma SyncAllEffect(p: Peer, me: PeerId, to: PeerId)
    ensures var e := HandleSyncAll(p, me, to);
            && e.peer == p
            && forall m :: m in e.out <==>
                 && m.key in p.rows && m.key.repo in p.tracked && !p.rows[m.key].deleted
                 && Carries(m, me, to, m.key, p.rows[m.key]) && m.clock == p.clock
  {
    forall m: Msg | && m.key in p.rows && m.key.repo in p.tracked && !p.rows[m.key].deleted
               && Carries(m, me, to, m.key, p.rows[m.key]) && m.clock == p.clock
      ensures m in HandleSyncAll(p, me, to).out
    {
      assert m == Offer(me, to, m.key, p.rows[m.key], p.clock);
    }
  }

  /** "Local" sends the row, tombstones included; "remote" drops it and sends an empty probe. */
  lemma DecisionEffect(p: Peer, me: PeerId, k: Key, peer: PeerId)
    ensures var mine, theirs := HandleKeepMine(p, me, k, peer), HandleTakeTheirs(p, me, k, peer);
            && mine.peer == p
            && (forall m :: m in mine.out <==> k in p.rows && Carries(m, me, peer, k, p.rows[k]) && m.clock == p.clock)
            && theirs.peer == p.(rows := theirs.peer.rows)
            && k !in theirs.peer.rows && (forall x | x != k :: SameRow(p, theirs.peer, x))
            && exists m :: && theirs.out == {m} && m.src == me && m.dst == peer && m.key == k && m.clock == p.clock
                           && m.hash.hex == "" && m.version == 0 && m.modified == 0 && m.size == 0 && !m.deleted
  {
    forall m | k in p.rows && Carries(m, me, peer, k, p.rows[k]) && m.clock == p.clock
      ensures m in HandleKeepMine(p, me, k, peer).out
    {
      assert m == Offer(me, peer, k, p.rows[k], p.clock);
    }
    var m := Probe(me, peer, k, p.clock);
    assert HandleTakeTheirs(p, me, k, peer).out == {m};
  }

  /** A removed repository loses its rows and its queue; what was taken or requested goes on. */
  lemma RemoveRepoEffect(p: Peer, r: RepoId)
    requires r in p.tracked
    ensures var e := HandleRemoveRepo(p, r);
            && e.out == {} && e.peer == p.(tracked := e.peer.tracked, rows := e.peer.rows, queued := e.peer.queued)
            && (forall x :: x in e.peer.tracked <==> x in p.tracked && x != r)
            && (forall k :: k in e.peer.rows <==> k in p.rows && k.repo != r)
            && (forall k | k in e.peer.rows :: e.peer.rows[k] == p.rows[k])
            && (forall x :: TasksIn(e.peer.queued, x) == if x == r then multiset{} else TasksIn(p.queued, x))
  {
  }

  /** A new process keeps the table, has nothing to do, and counts on from the greatest version
      and the greatest stored entries. */
  lemma RestartEffect(p: Peer, order: seq<Key>)
    requires forall k :: k in order <==> k in p.rows
    ensures var p' := HandleRestart(p, order).peer;
            && HandleRestart(p, order).out == {} && p'.tracked == p.tracked && p'.rows == p.rows
            && p'.queued == map[] && p'.taken == multiset{} && p'.pending == map[]
            && (forall k | k in p.rows :: p.rows[k].version <= p'.lamport && Leq(p.rows[k].clock, p'.clock))
            && (p'.lamport == 0 || exists k | k in p.rows :: p.rows[k].version == p'.lamport)
            && (forall c | (forall k | k in p.rows :: Leq(p.rows[k].clock, c)) :: Leq(p'.clock, c))
  {
    MaxVersionBounds(p.rows, order);
    var clocks := StoredClocks(p.rows, order);
    MergeAllIsLeastUpperBound(map[], clocks);
    forall k | k in p.rows ensures p.rows[k].clock in clocks {
      var i :| 0 <= i < |order| && order[i] == k;
      assert clocks[i] == p.rows[k].clock;
    }
    forall c | (forall k | k in p.rows :: Leq(p.rows[k].clock, c)) ensures Leq(MergeAll(map[], clocks), c) {
      forall x | x in clocks ensures Leq(x, c) {
        var i :| 0 <= i < |clocks| && clocks[i] == x;
        assert order[i] in order;
      }
    }
  }
}
