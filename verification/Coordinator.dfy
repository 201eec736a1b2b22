/** The coordinator as the object it is: its handlers update the metadata table, both clocks,
    the queue and the pending downloads in place, and each is proved to do to the peer's state
    what the protocol's handler of the same call does. */
module Coordinator {
  import opened Base
  import opened PeerIds
  import opened Conflict
  import opened Clocks
  import opened TaskQueue
  import opened QueueRuns
  import opened Replication
  import opened Invariants
  import opened Scan

  predicate PathLess(a: Key, b: Key) { TextLess(a.path.text, b.path.text) }

  lemma {:induction false} LeastPath(keys: set<Key>, repo: RepoId) returns (k: Key)
    requires keys != {} && forall x | x in keys :: x.repo == repo
    ensures k in keys && forall x | x in keys :: x == k || PathLess(k, x)
  {
    var first :| first in keys;
    var rest := keys - {first};
    assert forall x | x in keys :: x == first || x in rest;
    if rest == {} {
      return first;
    }
    var q := LeastPath(rest, repo);
    TextTrichotomy(first.path.text, q.path.text);
    k := if PathLess(q, first) then q else first;
    forall x | x in keys ensures x == k || PathLess(k, x) {
      if x != first && x != q && k == first {
        TextTransitive(first.path.text, q.path.text, x.path.text);
      }
    }
  }

  /** The `file_metadata` table and the repositories its foreign key refers to. */
  class MetadataStore {
    var rows: map<Key, Row>
    var repositories: set<RepoId>

    constructor ()
      ensures rows == map[] && repositories == {}
    {
      rows, repositories := map[], {};
    }

    /** Insert or update; refused when the repository is not tracked. */
    method Save(k: Key, row: Row, now: int) returns (ok: bool)
      modifies this`rows
      ensures ok <==> k.repo in repositories
      ensures rows == if ok then old(rows)[k := row.(updatedAt := now)] else old(rows)
    {
      ok := k.repo in repositories;
      if ok {
        rows := rows[k := row.(updatedAt := now)];
      }
    }

    method Get(k: Key) returns (row: Option<Row>)
      ensures row == if k in rows then Some(rows[k]) else None
    {
      row := if k in rows then Some(rows[k]) else None;
    }

    method HardDelete(k: Key) returns (found: bool)
      modifies this`rows
      ensures found <==> k in old(rows)
      ensures rows == old(rows) - {k}
    {
      found := k in rows;
      rows := rows - {k};
    }

    /** The keys of one repository by path, each once; tombstones on request. */
    method ListByRepository(repo: RepoId, includeDeleted: bool) returns (keys: seq<Key>)
      ensures forall k :: k in keys <==> k in rows && k.repo == repo && (includeDeleted || !rows[k].deleted)
      ensures forall i, j | 0 <= i < j < |keys| :: PathLess(keys[i], keys[j]) && keys[i] != keys[j]
    {
      keys := [];
      var rest := set k | k in rows && k.repo == repo && (includeDeleted || !rows[k].deleted);
      while rest != {}
        invariant forall k | k in rest :: k in rows && k.repo == repo && (includeDeleted || !rows[k].deleted)
        invariant forall k :: k in keys || k in rest
                              <==> k in rows && k.repo == repo && (includeDeleted || !rows[k].deleted)
        invariant forall i, j | 0 <= i < j < |keys| :: PathLess(keys[i], keys[j]) && keys[i] != keys[j]
        invariant forall i, k | 0 <= i < |keys| && k in rest :: PathLess(keys[i], k) && keys[i] != k
        decreases rest
      {
        ghost var least := LeastPath(rest, repo);
        var k :| k in rest && forall x | x in rest :: x == k || PathLess(k, x);
        keys := keys + [k];
        rest := rest - {k};
      }
    }

    /** The greatest stored version, 0 for an empty table. */
    method MaxVersion() returns (max: nat)
      ensures forall k | k in rows :: rows[k].version <= max
      ensures max == 0 || exists k | k in rows :: rows[k].version == max
    {
      max := 0;
      var rest := rows.Keys;
      while rest != {}
        invariant rest <= rows.Keys
        invariant forall k | k in rows && k !in rest :: rows[k].version <= max
        invariant max == 0 || exists k | k in rows :: rows[k].version == max
        decreases rest
      {
        var k :| k in rest;
        rest := rest - {k};
        if rows[k].version > max {
          max := rows[k].version;
        }
      }
    }
  }

  // ----- The queue seen as multisets -----

  ghost function Queued(q: Queue): map<RepoId, multiset<Task>>
  {
    map r | r in q.queues :: multiset(q.queues[r])
  }

  lemma QueuedTasks(q: Queue, r: RepoId)
    ensures TasksIn(Queued(q), r) == multiset(q.Tasks(r))
    ensures forall t :: t in q.Tasks(r) <==> t in TasksIn(Queued(q), r)
  {
  }

  lemma QueuedUpdate(queues: map<RepoId, seq<Task>>, r: RepoId, tasks: seq<Task>)
    ensures Queued(Queue(queues[r := tasks], [], 0)) == Queued(Queue(queues, [], 0))[r := multiset(tasks)]
  {
  }

  lemma QueuedIgnoresOrder(q: Queue)
    ensures Queued(q) == Queued(Queue(q.queues, [], 0))
  {
  }

  lemma QueuedAfter(q: Queue, q': Queue, r: RepoId, tasks: seq<Task>)
    requires q'.queues == q.queues[r := tasks]
    ensures Queued(q') == Queued(q)[r := multiset(tasks)]
  {
    QueuedIgnoresOrder(q);
    QueuedIgnoresOrder(q');
    QueuedUpdate(q.queues, r, tasks);
  }

  lemma HasIsHasWork(q: Queue, r: RepoId, path: Path, kind: TaskType, hash: Hash)
    ensures HasWork(Queued(q), r, path, kind, hash)
            <==> exists t | t in q.Tasks(r) :: t.path == path && t.kind == kind && t.hash == hash
  {
    QueuedTasks(q, r);
  }

  lemma PushEnqueues(q: Queue, t: Task, q': Queue)
    requires Next(q, Pushed(t, !q.Has(t)), q')
    ensures Queued(q') == Enqueue(Queued(q), t)
  {
    QueuedTasks(q, t.repo);
    HasIsHasWork(q, t.repo, t.path, t.kind, t.hash);
    if t.repo !in q.queues {
      assert multiset([t]) == multiset{} + multiset{t};
      QueuedAfter(q, q', t.repo, [t]);
    } else if !q.Has(t) {
      QueuedAfter(q, q', t.repo, q'.queues[t.repo]);
    }
  }

  lemma FrontTaken(s: seq<Task>)
    requires s != []
    ensures multiset(s[1..]) == multiset(s) - multiset{s[0]} && s[0] in multiset(s)
  {
    assert s == [s[0]] + s[1..];
  }

  lemma PopTakes(q: Queue, t: Task, q': Queue)
    requires Filed(q) && Next(q, Popped(Some(t)), q')
    ensures t in TasksIn(Queued(q), t.repo)
    ensures t.repo in q.queues && t.repo in q'.queues
    ensures Queued(q') == Queued(q)[t.repo := TasksIn(Queued(q), t.repo) - multiset{t}]
  {
    var i: nat :| PopsAt(q, i, t, q');
    var r := q.repos[q.Slot(i)];
    assert t in q.queues[r] && t.repo == r;
    FrontTaken(q.queues[r]);
    QueuedTasks(q, r);
    QueuedAfter(q, q', r, q.queues[r][1..]);
  }

  lemma RequeueAdds(q: Queue, t: Task, q': Queue)
    requires Next(q, Requeued(t), q')
    ensures Queued(q') == Queued(q)[t.repo := TasksIn(Queued(q), t.repo) + multiset{t}]
  {
    QueuedTasks(q, t.repo);
    QueuedAfter(q, q', t.repo, [t] + q.Tasks(t.repo));
    assert multiset([t] + q.Tasks(t.repo)) == multiset(q.Tasks(t.repo)) + multiset{t};
  }

  class Coordinator {
    const me: PeerId
    const store: MetadataStore
    const vector: VectorClock
    const queue: SyncQueue
    const lamport: LamportClock
    var pending: map<string, Pending>

    /** Tasks in the hands of the goroutines that carry them out. */
    ghost var taken: multiset<Task>

    /** What the protocol sees of this object. */
    ghost function View(): Peer
      reads this, store, vector, queue, lamport
    {
      Peer(store.repositories, store.rows, lamport.counter, vector.clocks, Queued(queue.View()),
           taken, pending)
    }

    ghost predicate Valid()
      reads queue
    {
      Filed(queue.View())
    }

    /** A new process over an existing table: the Lamport clock restarts at the greatest stored
        version, the vector clock at the join of the stored clocks. */
    constructor (me: PeerId, store: MetadataStore)
      ensures this.me == me && this.store == store && Valid()
      ensures fresh(vector) && fresh(queue) && fresh(lamport)
      ensures exists order: seq<Key> ::
                && (forall k :: k in order <==> k in store.rows)
                && View() == HandleRestart(NewPeer.(tracked := store.repositories, rows := store.rows), order).peer
    {
      this.me, this.store, this.pending, this.taken := me, store, map[], multiset{};
      vector := new VectorClock();
      queue := new SyncQueue();
      var max := store.MaxVersion();
      lamport := new LamportClock.At(max);
      new;
      var order: seq<Key> := [];
      var rest := store.rows.Keys;
      while rest != {}
        invariant rest <= store.rows.Keys && forall k :: k in order <==> k in store.rows && k !in rest
        invariant vector.clocks == MergeAll(map[], StoredClocks(store.rows, order))
        modifies vector
        decreases rest
      {
        var k :| k in rest;
        rest := rest - {k};
        ghost var clocks := StoredClocks(store.rows, order);
        vector.Merge(store.rows[k].clock);
        order := order + [k];
        assert StoredClocks(store.rows, order) == clocks + [store.rows[k].clock];
        assert (clocks + [store.rows[k].clock])[..|clocks|] == clocks;
      }
      MaxVersionBounds(store.rows, order);
      assert lamport.counter == Replication.MaxVersion(store.rows, order);
      assert Queued(queue.View()) == map[];
      assert View() == HandleRestart(NewPeer.(tracked := store.repositories, rows := store.rows), order).peer;
    }

    method HandleLocalFileChanged(k: Key, change: Change, to: set<PeerId>, now: int)
        returns (ok: bool, out: set<Msg>)
      requires Valid()
      modifies this, store, lamport, vector
      ensures Valid() && (ok <==> k.repo in store.repositories)
      ensures Effect(View(), out) == HandleLocal(old(View()), me, k, change, to, now)
    {
      out := {};
      if k.repo !in store.repositories {
        return false, {};
      }
      ok := true;
      if IsTemp(k.path) {
        return;
      }
      var existing := store.Get(k);
      if existing.Some? && Redundant(existing.value, change) {
        return;
      }
      var version := 1;
      if existing.Some? {
        if existing.value.size == 0 && change.size > 0 && change.kind == Modify {
          version := existing.value.version;
        } else {
          version := existing.value.version + 1;
        }
      }
      var _ := lamport.Tick();
      var _ := vector.Tick(me);
      var row := Row(change.hash, change.size, version, change.modified, change.kind == Delete,
                     now, change.mode, vector.clocks);
      var _ := store.Save(k, row, now);
      if change.size > 0 || change.kind == Delete {
        var msg := Offer(me, me, k, row, vector.clocks);
        out := set q | q in to :: msg.(dst := q);
      }
    }

    method HandlePeerMetadataUpdate(m: Msg, missing: bool, now: int) returns (reply: Option<Msg>)
      requires Valid() && m.dst == me
      modifies this, store, lamport, vector, queue
      ensures Valid()
      ensures Effect(View(), if reply.Some? then {reply.value} else {})
              == HandleUpdate(old(View()), me, m, missing, now)
    {
      reply := None;
      if Refused(m.key.path) {
        return;
      }
      vector.Merge(m.clock);
      var localMeta := store.Get(m.key);
      var local := FileVersion(NoHash, 0, 0, me);
      if localMeta.Some? {
        local := FileVersion(localMeta.value.hash, localMeta.value.version, localMeta.value.modified, me);
      }
      var resolution := Resolve(local, RemoteVersion(m));
      match resolution.action {
        case AcceptRemote =>
          AdoptRemote(m, now);
        case KeepLocal =>
          if !resolution.isConflict {
            reply := Some(Offer(me, m.src, m.key, localMeta.value, vector.clocks));
          }
        case Skip =>
          if localMeta.Some? && !localMeta.value.deleted && m.key.repo in store.repositories && missing {
            PushTask(DownloadOf(m));
          }
      }
    }

    method AdoptRemote(m: Msg, now: int)
      requires Valid()
      modifies this, store, lamport, queue
      ensures Valid() && View() == Adopt(old(View()), m, now)
    {
      ghost var p := View();
      var _ := lamport.Witness(m.version);
      var row := Row(m.hash, m.size, m.version, m.modified, m.deleted, now, m.mode, map[]);
      var _ := store.Save(m.key, row, now);
      assert View() == Save(p.(lamport := Max(p.lamport, m.version) + 1), m.key, AdoptedRow(m, now));
      if !m.deleted {
        var queued := queue.HasPending(m.key.repo, m.key.path, m.hash);
        HasIsHasWork(queue.View(), m.key.repo, m.key.path, Download, m.hash);
        if !(PendingKey(m.key.path, m.hash) in pending || queued) {
          PushTask(DownloadOf(m));
        }
      }
    }

    method PushTask(t: Task)
      requires Valid()
      modifies queue
      ensures Valid() && View() == old(View()).(queued := Enqueue(old(View()).queued, t))
    {
      ghost var q := queue.View();
      queue.Push(t);
      PushEnqueues(q, t, queue.View());
      NextKeepsFiled(q, Pushed(t, !q.Has(t)), queue.View());
    }

    method HandleConflictResolution(k: Key, resolution: string, peer: PeerId) returns (ok: bool, out: set<Msg>)
      requires Valid()
      modifies store
      ensures Valid() && (ok <==> resolution == "local" || resolution == "remote")
      ensures resolution == "local" ==> Effect(View(), out) == HandleKeepMine(old(View()), me, k, peer)
      ensures resolution == "remote" ==> Effect(View(), out) == HandleTakeTheirs(old(View()), me, k, peer)
      ensures !ok ==> View() == old(View()) && out == {}
    {
      ok, out := true, {};
      if resolution == "local" {
        var row := store.Get(k);
        if row.Some? {
          out := {Offer(me, peer, k, row.value, vector.clocks)};
        }
      } else if resolution == "remote" {
        var _ := store.HardDelete(k);
        out := {Probe(me, peer, k, vector.clocks)};
      } else {
        ok := false;
      }
    }

    /** One message for every live row of every repository, and no other. */
    method SyncAllRepositoriesWithPeer(peer: PeerId) returns (out: seq<Msg>)
      ensures forall m :: m in out <==> m in HandleSyncAll(View(), me, peer).out
      ensures forall i, j | 0 <= i < j < |out| :: out[i].key != out[j].key
    {
      out := [];
      var repos := store.repositories;
      while repos != {}
        invariant repos <= store.repositories
        invariant forall m :: m in out <==> m in HandleSyncAll(View(), me, peer).out && m.key.repo !in repos
        invariant forall i, j | 0 <= i < j < |out| :: out[i].key != out[j].key
        decreases repos
      {
        var repo :| repo in repos;
        var files := store.ListByRepository(repo, false);
        var sent := out;
        for i := 0 to |files|
          invariant |out| == |sent| + i && out[..|sent|] == sent
          invariant forall j | 0 <= j < i ::
                      out[|sent| + j] == Offer(me, peer, files[j], store.rows[files[j]], vector.clocks)
        {
          out := out + [Offer(me, peer, files[i], store.rows[files[i]], vector.clocks)];
        }
        SentRepository(View(), me, peer, repo, repos, files, sent, out);
        repos := repos - {repo};
      }
    }

    /** The dispatcher takes the next task, if a listed repository has one. */
    method TakeNext() returns (task: Option<Task>)
      requires Valid()
      modifies this`taken, queue
      ensures Valid()
      ensures task == None ==>
                && View() == old(View()) && (forall r | r in queue.repos :: queue.View().Tasks(r) == [])
                && (WellFormed(old(queue.View())) ==> Total(old(queue.queues)) == 0)
      ensures task.Some? ==>
                && Enabled(old(View()), me, Take(task.value))
                && View() == HandleTake(old(View()), task.value).peer
    {
      ghost var q := queue.View();
      task := queue.Pop();
      if task.Some? {
        PopTakes(q, task.value, queue.View());
        NextKeepsFiled(q, Popped(task), queue.View());
        taken := taken + multiset{task.value};
      } else if WellFormed(q) {
        PopIsNoneWhenEmpty(q, task, queue.View());
      }
    }

    /** Carrying out a task that was taken some time ago: request the file, or put the task back.
        Whatever happened to the queue since, only a removal of the repository spoils it. */
    method ExecuteSyncTask(t: Task, sending: Sending)
      requires Valid() && t in taken
      modifies this`taken, this`pending, queue
      ensures Valid() && View() == HandleExecute(old(View()), t, sending).peer
      ensures WellFormed(old(queue.View())) ==>
                (WellFormed(queue.View()) <==> t.kind == Upload || sending == Sent || t.repo in old(queue.queues))
    {
      taken := taken - multiset{t};
      if t.kind == Download {
        var sent := RequestFile(t, sending);
        if !sent {
          PutBack(t);
        }
      }
    }

    /** The request is noted before it goes out, and forgotten if it does not. */
    method RequestFile(t: Task, sending: Sending) returns (sent: bool)
      modifies this`pending
      ensures sent <==> sending == Sent
      ensures var id := PendingKey(t.path, t.hash);
              pending == match sending
                         case Sent => old(pending)[id := Pending(t.repo, t.size, t.mode, t.peer, t.retries)]
                         case NotConnected => old(pending)
                         case SendFailed => old(pending) - {id}
    {
      if sending == NotConnected {
        return false;
      }
      var id := PendingKey(t.path, t.hash);
      pending := pending[id := Pending(t.repo, t.size, t.mode, t.peer, t.retries)];
      if sending == SendFailed {
        pending := pending - {id};
      }
      sent := sending == Sent;
    }

    method PutBack(t: Task)
      requires Valid()
      modifies queue
      ensures Valid()
      ensures Queued(queue.View())
              == Queued(old(queue.View()))[t.repo := TasksIn(Queued(old(queue.View())), t.repo) + multiset{t}]
      ensures WellFormed(old(queue.View())) ==> (WellFormed(queue.View()) <==> t.repo in old(queue.queues))
    {
      ghost var q := queue.View();
      queue.Requeue(t);
      RequeueAdds(q, t, queue.View());
      NextKeepsFiled(q, Requeued(t), queue.View());
      if WellFormed(q) {
        WellFormedIff(q, Requeued(t), queue.View());
      }
    }

    method SaveInlineContent(k: Key, hash: Hash, details: Pending, written: bool, size: nat, now: int)
      modifies store
      ensures queue.View() == old(queue.View())
      ensures View() == StoreInline(old(View()), k, hash, details, written, size, now)
    {
      if written && k.repo in store.repositories && Storable(k.path) {
        var existing := store.Get(k);
        var version := if existing.Some? then existing.value.version else 1;
        var _ := store.Save(k, Row(hash, size, version, now / 1000, false, now, details.mode, map[]), now);
      }
    }

    method RetryDownload(k: Key, hash: Hash, details: Pending, now: int)
      requires Valid()
      modifies store, queue
      ensures Valid() && View() == RetryOrPurge(old(View()), k, hash, details, now)
    {
      if details.retries < MaxDownloadRetries {
        PushTask(Task(k.repo, k.path, Download, hash, details.size, now,
                      details.peer, details.mode, details.retries + 1));
      } else {
        var _ := store.HardDelete(k);
      }
    }

    method HandleFileResponse(path: Path, hash: Hash, outcome: Outcome, now: int)
      requires Valid()
      modifies this, store, queue
      ensures Valid() && View() == HandleRespond(old(View()), path, hash, outcome, now).peer
    {
      var id := PendingKey(path, hash);
      if outcome.PeerError? || hash == NoHash || id !in pending {
        return;
      }
      var details := pending[id];
      pending := pending - {id};
      var k := Key(details.repo, path);
      if outcome.Inline? {
        SaveInlineContent(k, hash, details, outcome.written, outcome.size, now);
      } else if !outcome.started && !Escapes(path) {
        RetryDownload(k, hash, details, now);
      }
    }

    method IndexFile(k: Key, f: DiskFile, version: nat, to: set<PeerId>, now: int) returns (out: set<Msg>)
      requires version == if k in store.rows then store.rows[k].version + 1 else 1
      modifies store, lamport, vector
      ensures queue.View() == old(queue.View()) && store.repositories == old(store.repositories)
      ensures Effect(View(), out) == Index(old(View()), me, k, f, to, now)
    {
      out := {};
      var _ := lamport.Tick();
      var _ := vector.Tick(me);
      var meta := Row(f.hash, f.size, version, f.modified, false, now, f.mode, map[]);
      var saved := store.Save(k, meta, now);
      if saved && f.size > 0 {
        var msg := Offer(me, me, k, meta, vector.clocks);
        out := set q | q in to :: msg.(dst := q);
      }
    }

    method ScanFileFound(k: Key, f: DiskFile, to: set<PeerId>, now: int) returns (out: set<Msg>)
      modifies store, lamport, vector
      ensures queue.View() == old(queue.View()) && store.repositories == old(store.repositories)
      ensures Effect(View(), out) == HandleScanFile(old(View()), me, k, f, to, now)
    {
      out := {};
      if IsTemp(k.path) {
        return;
      }
      var existing := store.Get(k);
      var version := 1;
      if existing.Some? {
        var row := existing.value;
        if row.size == f.size && row.modified == f.modified && row.mode == f.mode && !row.deleted {
          return;
        }
        if row.hash == f.hash && row.size == f.size && row.mode == f.mode && !row.deleted {
          var _ := store.Save(k, row.(modified := f.modified), now);
          return;
        }
        version := row.version + 1;
      }
      out := IndexFile(k, f, version, to, now);
    }

    method ScanFileGone(k: Key, scanStart: int, to: set<PeerId>, now: int) returns (out: set<Msg>)
      modifies store, lamport, vector
      ensures queue.View() == old(queue.View()) && store.repositories == old(store.repositories)
      ensures Effect(View(), out) == HandleScanMissing(old(View()), me, k, scanStart, to, now)
    {
      out := {};
      var existing := store.Get(k);
      if existing.None? || existing.value.updatedAt >= scanStart || existing.value.deleted
         || k.repo !in store.repositories {
        return;
      }
      var _ := lamport.Tick();
      var _ := vector.Tick(me);
      var meta := existing.value.(version := existing.value.version + 1, deleted := true, updatedAt := now);
      var _ := store.Save(k, meta, now);
      var msg := Offer(me, me, k, meta, vector.clocks);
      out := set q | q in to :: msg.(dst := q);
    }

    /** One file of the walk, as far as it can be read. */
    method VisitFile(repo: RepoId, f: Found, seen: set<Path>, to: set<PeerId>, now: int)
        returns (out: set<Msg>, seen': set<Path>)
      modifies store, lamport, vector
      ensures queue.View() == old(queue.View()) && store.repositories == old(store.repositories)
      ensures seen' == seen + if Noted(f) then {f.path} else {}
      ensures Effect(View(), out) == if !f.reading.Readable? then Effect(old(View()), {})
                                     else HandleScanFile(old(View()), me, Key(repo, f.path), f.disk, to, now)
    {
      out, seen' := {}, seen;
      if IsTemp(f.path) || f.reading.NoInfo? {
        return;
      }
      seen' := seen + {f.path};
      if f.reading.Readable? {
        out := ScanFileFound(Key(repo, f.path), f.disk, to, now);
      }
    }

    /** Both passes of the scan, or the first alone if the walk fails; afterwards the live rows of
        the repository are the files on disk that could be read. */
    method ScanAndIndexLocalFiles(repo: RepoId, files: seq<Found>, walked: bool,
                                  scanStart: int, to: set<PeerId>, now: int)
        returns (out: set<Msg>)
      requires Valid()
      requires DistinctFiles(files)
      modifies store, lamport, vector
      ensures Valid()
      ensures !walked ==> Effect(View(), out) == ScanFiles(old(View()), me, repo, files, to, now)
      ensures walked ==> exists keys ::
                && IsListing(ScanFiles(old(View()), me, repo, files, to, now).peer, repo, keys)
                && Effect(View(), out) == ScanAll(old(View()), me, repo, files, keys, scanStart, to, now)
      ensures walked && repo in store.repositories ==>
                && (forall f | f in files && Indexed(f) :: Describes(old(View()), View(), repo, f))
                && (forall k | Listed(View(), repo, k) ::
                      k.path in Seen(files) || (k in old(store.rows) && old(store.rows)[k].updatedAt >= scanStart))
    {
      ghost var p := View();
      var seen: set<Path> := {};
      out := {};
      for i := 0 to |files|
        invariant queue.View() == old(queue.View()) && store.repositories == old(store.repositories)
        invariant seen == Seen(files[..i])
        invariant Effect(View(), out) == ScanFiles(p, me, repo, files[..i], to, now)
      {
        assert files[..i + 1][..i] == files[..i] && files[..i + 1] == files[..i] + [files[i]];
        SeenSnoc(files[..i], files[i]);
        var sent;
        sent, seen := VisitFile(repo, files[i], seen, to, now);
        out := out + sent;
      }
      assert files[..|files|] == files;
      if walked {
        out := BuryUnseen(repo, files, seen, out, scanStart, to, now, p);
      }
    }

    /** The second pass. */
    method BuryUnseen(repo: RepoId, ghost files: seq<Found>, seen: set<Path>, sent: set<Msg>,
                      scanStart: int, to: set<PeerId>, now: int, ghost p: Peer)
        returns (out: set<Msg>)
      requires DistinctFiles(files)
      requires seen == Seen(files) && Effect(View(), sent) == ScanFiles(p, me, repo, files, to, now)
      requires p.tracked == store.repositories
      modifies store, lamport, vector
      ensures queue.View() == old(queue.View()) && store.repositories == old(store.repositories)
      ensures exists keys ::
                && IsListing(ScanFiles(p, me, repo, files, to, now).peer, repo, keys)
                && Effect(View(), out) == ScanAll(p, me, repo, files, keys, scanStart, to, now)
      ensures repo in store.repositories ==>
                && (forall f | f in files && Indexed(f) :: Describes(p, View(), repo, f))
                && (forall k | Listed(View(), repo, k) ::
                      k.path in Seen(files) || (k in p.rows && p.rows[k].updatedAt >= scanStart))
    {
      ghost var p1 := View();
      out := sent;
      var keys := store.ListByRepository(repo, false);
      for i := 0 to |keys|
        invariant queue.View() == old(queue.View()) && store.repositories == old(store.repositories)
        invariant View() == ScanGone(p1, me, keys[..i], seen, scanStart, to, now).peer
        invariant out == sent + ScanGone(p1, me, keys[..i], seen, scanStart, to, now).out
      {
        assert keys[..i + 1][..i] == keys[..i];
        if keys[i].path !in seen {
          var gone := ScanFileGone(keys[i], scanStart, to, now);
          out := out + gone;
        }
      }
      assert keys[..|keys|] == keys;
      assert IsListing(p1, repo, keys);
      if repo in store.repositories {
        ScanAgreesWithDisk(p, me, repo, files, keys, scanStart, to, now);
      }
    }

    method AddRepository(repo: RepoId)
      requires Valid()
      modifies store
      ensures Valid() && View() == Handle(old(View()), me, AddRepo(repo)).peer
    {
      store.repositories := store.repositories + {repo};
    }

    method RemoveRepository(repo: RepoId) returns (ok: bool)
      requires Valid()
      modifies store, queue
      ensures Valid() && (ok <==> repo in old(store.repositories))
      ensures View() == HandleRemoveRepo(old(View()), repo).peer
    {
      ok := repo in store.repositories;
      if ok {
        store.repositories := store.repositories - {repo};
        store.rows := map k | k in store.rows && k.repo != repo :: store.rows[k];
        ghost var q := queue.View();
        queue.RemoveRepository(repo);
        NextKeepsFiled(q, Removed(repo), queue.View());
        assert Queued(queue.View()) == Queued(q) - {repo};
      }
    }
  }

  lemma SentRepository(p: Peer, me: PeerId, peer: PeerId, repo: RepoId, repos: set<RepoId>,
                       files: seq<Key>, sent: seq<Msg>, out: seq<Msg>)
    requires repo in repos && repos <= p.tracked
    requires forall k :: k in files <==> k in p.rows && k.repo == repo && !p.rows[k].deleted
    requires forall i, j | 0 <= i < j < |files| :: files[i] != files[j]
    requires forall m :: m in sent <==> m in HandleSyncAll(p, me, peer).out && m.key.repo !in repos
    requires forall i, j | 0 <= i < j < |sent| :: sent[i].key != sent[j].key
    requires |out| == |sent| + |files| && out[..|sent|] == sent
    requires forall j | 0 <= j < |files| ::
               files[j] in p.rows && out[|sent| + j] == Offer(me, peer, files[j], p.rows[files[j]], p.clock)
    ensures forall m :: m in out <==> m in HandleSyncAll(p, me, peer).out && m.key.repo !in repos - {repo}
    ensures forall i, j | 0 <= i < j < |out| :: out[i].key != out[j].key
  {
    forall m | m in out ensures m in HandleSyncAll(p, me, peer).out && m.key.repo !in repos - {repo} {
      var i :| 0 <= i < |out| && out[i] == m;
      if i < |sent| {
        assert out[..|sent|][i] in sent;
      } else {
        assert files[i - |sent|] in files;
      }
    }
    forall m | m in HandleSyncAll(p, me, peer).out && m.key.repo !in repos - {repo} ensures m in out {
      if m.key.repo == repo {
        assert m.key in files;
        var j :| 0 <= j < |files| && files[j] == m.key;
        assert out[|sent| + j] == m;
      } else {
        assert m in sent;
        assert m in out[..|sent|];
      }
    }
    forall i, j | 0 <= i < j < |out| ensures out[i].key != out[j].key {
      if i < |sent| {
        assert out[..|sent|][i] in sent;
        if j < |sent| {
          assert out[i] == sent[i] && out[j] == sent[j];
        } else {
          assert out[j].key == files[j - |sent|] && files[j - |sent|] in files;
        }
      } else {
        assert out[i].key == files[i - |sent|] && out[j].key == files[j - |sent|];
      }
    }
  }
}
