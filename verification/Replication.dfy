/** The replication protocol: what each handler of the coordinator does to one peer's state and
    which metadata messages it sends, and the system of peers and messages in flight.  Every
    handler call is one atomic step. */
module Replication {
  import opened Base
  import opened PeerIds
  import opened Conflict
  import opened Clocks
  import opened TaskQueue

  const MaxDownloadRetries := 3

  // ----- Data -----

  datatype Key = Key(repo: RepoId, path: Path)

  /** One row of the `file_metadata` table; an empty clock stands for an empty column. */
  datatype Row = Row(hash: Hash, size: int, version: nat, modified: int, deleted: bool,
                     updatedAt: int, mode: nat, clock: Clock)

  /** A `file_metadata_update` in flight. */
  datatype Msg = Msg(src: PeerId, dst: PeerId, key: Key, hash: Hash, size: int, version: nat,
                     modified: int, deleted: bool, mode: nat, clock: Clock)

  datatype Pending = Pending(repo: RepoId, size: int, mode: nat, peer: PeerId, retries: nat)

  /** `taken` holds the tasks that left the queue and are not yet carried out. */
  datatype Peer = Peer(tracked: set<RepoId>, rows: map<Key, Row>, lamport: nat, clock: Clock,
                       queued: map<RepoId, multiset<Task>>, taken: multiset<Task>, pending: map<string, Pending>)

  const NewPeer := Peer({}, map[], 0, map[], map[], multiset{}, map[])

  /** The state after a handler, and the messages it sent. */
  datatype Effect = Effect(peer: Peer, out: set<Msg>)

  datatype ChangeKind = Add | Modify | Delete

  datatype Change = Change(kind: ChangeKind, hash: Hash, size: int, modified: int, mode: nat)

  datatype DiskFile = DiskFile(hash: Hash, size: int, modified: int, mode: nat)

  /** How a `file_response` ends at the requester. */
  datatype Outcome =
    | PeerError
    | Inline(written: bool, size: nat)
    | Stream(started: bool)

  /** How the request for a file went out. */
  datatype Sending = Sent | NotConnected | SendFailed

  datatype Call =
    | Local(key: Key, change: Change, to: set<PeerId>, now: int)
    | Receive(msg: Msg, missing: bool, now: int)
    | KeepMine(key: Key, peer: PeerId)
    | TakeTheirs(key: Key, peer: PeerId)
    | SyncAll(peer: PeerId)
    | ScanFile(key: Key, disk: DiskFile, to: set<PeerId>, now: int)
    | ScanMissing(key: Key, scanStart: int, to: set<PeerId>, now: int)
    | Take(task: Task)
    | Execute(task: Task, sending: Sending)
    | Respond(path: Path, hash: Hash, outcome: Outcome, now: int)
    | AddRepo(repo: RepoId)
    | RemoveRepo(repo: RepoId)
    | Restart(order: seq<Key>)

  // ----- Paths -----

  predicate IsTemp(p: Path) { |p.text| >= 4 && p.text[|p.text| - 4..] == ".tmp" }

  predicate IsAbsolute(p: Path) { |p.text| > 0 && p.text[0] == '/' }

  predicate HasDotDot(p: Path)
  {
    exists i | 0 <= i < |p.text| - 1 :: p.text[i] == '.' && p.text[i + 1] == '.'
  }

  /** The looser check made before a streamed download. */
  predicate Escapes(p: Path)
  {
    || IsAbsolute(p)
    || (|p.text| >= 2 && p.text[0] == '.' && p.text[1] == '.')
    || (exists i | 0 <= i < |p.text| - 2 :: p.text[i] == '.' && p.text[i + 1] == '.' && p.text[i + 2] == '/')
  }

  /** Paths under which content from a response is stored. */
  predicate Storable(p: Path) { !IsAbsolute(p) && !HasDotDot(p) }

  /** Paths a peer's update may not name. */
  predicate Refused(p: Path) { IsTemp(p) || IsAbsolute(p) || HasDotDot(p) }

  // ----- Rows, messages, queue -----

  /** The foreign key: a row of an untracked repository is not stored. */
  function Save(p: Peer, k: Key, row: Row): Peer
  {
    if k.repo in p.tracked then p.(rows := p.rows[k := row]) else p
  }

  predicate SameRow(p: Peer, p': Peer, k: Key)
  {
    (k in p'.rows <==> k in p.rows) && (k in p.rows ==> p'.rows[k] == p.rows[k])
  }

  function Offer(me: PeerId, to: PeerId, k: Key, row: Row, clock: Clock): Msg
  {
    Msg(me, to, k, row.hash, row.size, row.version, row.modified, row.deleted, row.mode, clock)
  }

  function Probe(me: PeerId, to: PeerId, k: Key, clock: Clock): Msg
  {
    Msg(me, to, k, NoHash, 0, 0, 0, false, 0, clock)
  }

  function Broadcast(m: Msg, to: set<PeerId>): set<Msg> { set q | q in to :: m.(dst := q) }

  /** What the conflict detector sees of a stored, or absent, row. */
  function LocalVersion(p: Peer, me: PeerId, k: Key): FileVersion
  {
    if k in p.rows then FileVersion(p.rows[k].hash, p.rows[k].version, p.rows[k].modified, me)
    else FileVersion(NoHash, 0, 0, me)
  }

  function RemoteVersion(m: Msg): FileVersion { FileVersion(m.hash, m.version, m.modified, m.src) }

  function TasksIn(queued: map<RepoId, multiset<Task>>, r: RepoId): multiset<Task>
  {
    if r in queued then queued[r] else multiset{}
  }

  ghost predicate HasWork(queued: map<RepoId, multiset<Task>>, r: RepoId, path: Path, kind: TaskType, hash: Hash)
  {
    exists t | t in TasksIn(queued, r) :: t.path == path && t.kind == kind && t.hash == hash
  }

  ghost function Enqueue(queued: map<RepoId, multiset<Task>>, t: Task): map<RepoId, multiset<Task>>
  {
    if HasWork(queued, t.repo, t.path, t.kind, t.hash) then queued
    else queued[t.repo := TasksIn(queued, t.repo) + multiset{t}]
  }

  function PendingKey(path: Path, hash: Hash): string { path.text + ":" + hash.hex }

  /** Task times count milliseconds; the message's time is taken for seconds. */
  function DownloadOf(m: Msg): Task
  {
    Task(m.key.repo, m.key.path, Download, m.hash, m.size, 1000 * m.modified, m.src, m.mode, 0)
  }

  /** A download of this content is queued for the repository or requested from some peer. */
  ghost predicate Fetching(p: Peer, k: Key, hash: Hash)
  {
    PendingKey(k.path, hash) in p.pending || HasWork(p.queued, k.repo, k.path, Download, hash)
  }

  // ----- Handlers -----

  function NextVersion(p: Peer, k: Key, c: Change): nat
  {
    if k !in p.rows then 1
    else if p.rows[k].size == 0 && c.size > 0 && c.kind.Modify? then p.rows[k].version
    else p.rows[k].version + 1
  }

  predicate Redundant(row: Row, c: Change)
  {
    row.hash == c.hash && row.size == c.size && row.mode == c.mode && row.deleted == c.kind.Delete?
  }

  function HandleLocal(p: Peer, me: PeerId, k: Key, c: Change, to: set<PeerId>, now: int): Effect
  {
    if k.repo !in p.tracked || IsTemp(k.path) || (k in p.rows && Redundant(p.rows[k], c)) then Effect(p, {})
    else
      var clock := Ticked(p.clock, me);
      var row := Row(c.hash, c.size, NextVersion(p, k, c), c.modified, c.kind.Delete?, now, c.mode, clock);
      Effect(Save(p.(lamport := p.lamport + 1, clock := clock), k, row),
             if c.size > 0 || c.kind.Delete? then Broadcast(Offer(me, me, k, row, clock), to) else {})
  }

  /** The receiver takes over the sender's version. */
  predicate Accepts(p: Peer, me: PeerId, m: Msg)
  {
    !Refused(m.key.path) && Resolve(LocalVersion(p, me, m.key), RemoteVersion(m)).action.AcceptRemote?
  }

  function AdoptedRow(m: Msg, now: int): Row
  {
    Row(m.hash, m.size, m.version, m.modified, m.deleted, now, m.mode, map[])
  }

  /** Adopting a peer's version: witness, store, and fetch the content unless it is on its way. */
  ghost function Adopt(p: Peer, m: Msg, now: int): Peer
  {
    var p1 := Save(p.(lamport := Max(p.lamport, m.version) + 1), m.key, AdoptedRow(m, now));
    if m.deleted || Fetching(p, m.key, m.hash) then p1
    else p1.(queued := Enqueue(p.queued, DownloadOf(m)))
  }

  ghost function HandleUpdate(p: Peer, me: PeerId, m: Msg, missing: bool, now: int): Effect
  {
    if Refused(m.key.path) then Effect(p, {})
    else
      var p1 := p.(clock := Merged(p.clock, m.clock));
      var resolution := Resolve(LocalVersion(p, me, m.key), RemoteVersion(m));
      match resolution.action
      case AcceptRemote => Effect(Adopt(p1, m, now), {})
      case KeepLocal =>
        Effect(p1, if resolution.isConflict || m.key !in p.rows then {}
                   else {Offer(me, m.src, m.key, p.rows[m.key], p1.clock)})
      case Skip =>
        if m.key in p.rows && !p.rows[m.key].deleted && m.key.repo in p.tracked && missing
        then Effect(p1.(queued := Enqueue(p.queued, DownloadOf(m))), {})
        else Effect(p1, {})
  }

  lemma AdoptRows(p: Peer, m: Msg, now: int)
    ensures var p' := Adopt(p, m, now);
            && p'.tracked == p.tracked && p'.clock == p.clock
            && p'.rows == if m.key.repo in p.tracked then p.rows[m.key := AdoptedRow(m, now)] else p.rows
  {
    var p1 := Save(p.(lamport := Max(p.lamport, m.version) + 1), m.key, AdoptedRow(m, now));
    assert Adopt(p, m, now) == p1 || Adopt(p, m, now) == p1.(queued := Enqueue(p.queued, DownloadOf(m)));
  }

  lemma UpdateRows(p: Peer, me: PeerId, m: Msg, missing: bool, now: int)
    ensures var e := HandleUpdate(p, me, m, missing, now);
            && e.peer.tracked == p.tracked
            && e.peer.rows == (if Accepts(p, me, m) && m.key.repo in p.tracked
                               then p.rows[m.key := AdoptedRow(m, now)] else p.rows)
            && e.peer.clock == (if Refused(m.key.path) then p.clock else Merged(p.clock, m.clock))
  {
    if !Refused(m.key.path) {
      var p1 := p.(clock := Merged(p.clock, m.clock));
      match Resolve(LocalVersion(p, me, m.key), RemoteVersion(m)).action {
        case AcceptRemote => AdoptRows(p1, m, now);
        case KeepLocal =>
        case Skip =>
      }
    }
  }

  /** The receiver answers exactly when its own row is of a strictly newer version. */
  predicate Answers(p: Peer, m: Msg)
  {
    && !Refused(m.key.path) && m.key in p.rows
    && p.rows[m.key].hash != m.hash && p.rows[m.key].version > m.version
  }

  lemma UpdateReplies(p: Peer, me: PeerId, m: Msg, missing: bool, now: int)
    ensures var e := HandleUpdate(p, me, m, missing, now);
            e.out == if Answers(p, m) then {Offer(me, m.src, m.key, p.rows[m.key], e.peer.clock)} else {}
  {
    var local, remote := LocalVersion(p, me, m.key), RemoteVersion(m);
    assert Resolve(local, remote) == Resolution(KeepLocal, false)
      <==> local.hash != remote.hash && local.version > remote.version;
  }

  /** The walk finds nothing to announce: at most the row's time is out of date. */
  predicate UpToDate(row: Row, f: DiskFile)
  {
    && !row.deleted && row.size == f.size && row.mode == f.mode
    && (row.modified == f.modified || row.hash == f.hash)
  }

  /** A file that is new or changed gets the next version and is announced unless empty. */
  function Index(p: Peer, me: PeerId, k: Key, f: DiskFile, to: set<PeerId>, now: int): Effect
  {
    var clock := Ticked(p.clock, me);
    var version := if k in p.rows then p.rows[k].version + 1 else 1;
    var row := Row(f.hash, f.size, version, f.modified, false, now, f.mode, map[]);
    Effect(Save(p.(lamport := p.lamport + 1, clock := clock), k, row),
           if f.size > 0 && k.repo in p.tracked then Broadcast(Offer(me, me, k, row, clock), to) else {})
  }

  function HandleScanFile(p: Peer, me: PeerId, k: Key, f: DiskFile, to: set<PeerId>, now: int): Effect
  {
    if IsTemp(k.path) then Effect(p, {})
    else if k in p.rows && UpToDate(p.rows[k], f) then
      if p.rows[k].modified == f.modified then Effect(p, {})
      else Effect(Save(p, k, p.rows[k].(modified := f.modified, updatedAt := now)), {})
    else Index(p, me, k, f, to, now)
  }

  /** A file gone since the last run becomes a tombstone that keeps its hash. */
  function HandleScanMissing(p: Peer, me: PeerId, k: Key, scanStart: int, to: set<PeerId>, now: int): Effect
  {
    if k !in p.rows || p.rows[k].deleted || p.rows[k].updatedAt >= scanStart || k.repo !in p.tracked then Effect(p, {})
    else
      var clock := Ticked(p.clock, me);
      var row := p.rows[k].(version := p.rows[k].version + 1, deleted := true, updatedAt := now);
      Effect(Save(p.(lamport := p.lamport + 1, clock := clock), k, row), Broadcast(Offer(me, me, k, row, clock), to))
  }

  function HandleSyncAll(p: Peer, me: PeerId, to: PeerId): Effect
  {
    Effect(p, set k | k in p.rows && k.repo in p.tracked && !p.rows[k].deleted ::
                Offer(me, to, k, p.rows[k], p.clock))
  }

  function HandleKeepMine(p: Peer, me: PeerId, k: Key, peer: PeerId): Effect
  {
    Effect(p, if k in p.rows then {Offer(me, peer, k, p.rows[k], p.clock)} else {})
  }

  function HandleTakeTheirs(p: Peer, me: PeerId, k: Key, peer: PeerId): Effect
  {
    Effect(p.(rows := p.rows - {k}), {Probe(me, peer, k, p.clock)})
  }

  /** The dispatcher takes a task from its queue. */
  function HandleTake(p: Peer, t: Task): Effect
  {
    Effect(p.(queued := p.queued[t.repo := TasksIn(p.queued, t.repo) - multiset{t}],
              taken := p.taken + multiset{t}), {})
  }

  function PutBack(p: Peer, t: Task): Peer
  {
    p.(queued := p.queued[t.repo := TasksIn(p.queued, t.repo) + multiset{t}])
  }

  /** A task is carried out: the request goes out, or the task goes back in front of its queue. */
  function HandleExecute(p: Peer, t: Task, sending: Sending): Effect
  {
    var id := PendingKey(t.path, t.hash);
    var p1 := p.(taken := p.taken - multiset{t});
    if t.kind.Upload? then Effect(p1, {})
    else if sending.Sent? then
      Effect(p1.(pending := p.pending[id := Pending(t.repo, t.size, t.mode, t.peer, t.retries)]), {})
    else if sending.NotConnected? then Effect(PutBack(p1, t), {})
    else Effect(PutBack(p1.(pending := p.pending - {id}), t), {})
  }

  lemma TakeTouchesNoRow(p: Peer, t: Task)
    ensures var e := HandleTake(p, t);
            e.peer.rows == p.rows && e.peer.tracked == p.tracked && e.peer.clock == p.clock && e.out == {}
  {
  }

  lemma ExecuteTouchesNoRow(p: Peer, t: Task, sending: Sending)
    ensures var e := HandleExecute(p, t, sending);
            e.peer.rows == p.rows && e.peer.tracked == p.tracked && e.peer.clock == p.clock && e.out == {}
  {
  }

  /** Content that came inside the response: stored under the row's version, with the current
      time in seconds. */
  function StoreInline(p: Peer, k: Key, hash: Hash, d: Pending, written: bool, size: nat, now: int): Peer
  {
    if written && k.repo in p.tracked && Storable(k.path) then
      var version := if k in p.rows then p.rows[k].version else 1;
      Save(p, k, Row(hash, size, version, now / 1000, false, now, d.mode, map[]))
    else p
  }

  function RetryOf(k: Key, hash: Hash, d: Pending, now: int): Task
  {
    Task(k.repo, k.path, Download, hash, d.size, now, d.peer, d.mode, d.retries + 1)
  }

  /** A stream that did not start: tried again, and in the end the row is given up. */
  ghost function RetryOrPurge(p: Peer, k: Key, hash: Hash, d: Pending, now: int): Peer
  {
    if d.retries < MaxDownloadRetries then p.(queued := Enqueue(p.queued, RetryOf(k, hash, d, now)))
    else p.(rows := p.rows - {k})
  }

  ghost function HandleRespond(p: Peer, path: Path, hash: Hash, outcome: Outcome, now: int): Effect
  {
    var id := PendingKey(path, hash);
    if outcome.PeerError? || hash == NoHash || id !in p.pending then Effect(p, {})
    else
      var d := p.pending[id];
      var k := Key(d.repo, path);
      var p1 := p.(pending := p.pending - {id});
      Effect(if outcome.Inline? then StoreInline(p1, k, hash, d, outcome.written, outcome.size, now)
             else if outcome.started || Escapes(path) then p1
             else RetryOrPurge(p1, k, hash, d, now), {})
  }

  function HandleRemoveRepo(p: Peer, r: RepoId): Effect
  {
    if r !in p.tracked then Effect(p, {})
    else
      Effect(p.(tracked := p.tracked - {r}, rows := map k | k in p.rows && k.repo != r :: p.rows[k],
                queued := p.queued - {r}), {})
  }

  function MaxVersion(rows: map<Key, Row>, order: seq<Key>): nat
    requires forall k | k in order :: k in rows
  {
    if order == [] then 0 else Max(rows[order[0]].version, MaxVersion(rows, order[1..]))
  }

  function StoredClocks(rows: map<Key, Row>, order: seq<Key>): (s: seq<Clock>)
    requires forall k | k in order :: k in rows
    ensures |s| == |order| && forall i | 0 <= i < |s| :: s[i] == rows[order[i]].clock
  {
    seq(|order|, i requires 0 <= i < |order| => rows[order[i]].clock)
  }

  /** A new process: both clocks come back from the table, queue and requests are gone. */
  function HandleRestart(p: Peer, order: seq<Key>): Effect
    requires forall k :: k in order <==> k in p.rows
  {
    Effect(p.(lamport := MaxVersion(p.rows, order), clock := MergeAll(map[], StoredClocks(p.rows, order)),
              queued := map[], taken := multiset{}, pending := map[]), {})
  }

  ghost predicate Enabled(p: Peer, me: PeerId, a: Call)
  {
    match a
    case Receive(m, _, _) => m.dst == me
    case Take(t) => t in TasksIn(p.queued, t.repo)
    case Execute(t, _) => t in p.taken
    case Restart(order) => forall k :: k in order <==> k in p.rows
    case _ => true
  }

  ghost function Handle(p: Peer, me: PeerId, a: Call): Effect
    requires Enabled(p, me, a)
  {
    match a
    case Local(k, c, to, now) => HandleLocal(p, me, k, c, to, now)
    case Receive(m, missing, now) => HandleUpdate(p, me, m, missing, now)
    case KeepMine(k, peer) => HandleKeepMine(p, me, k, peer)
    case TakeTheirs(k, peer) => HandleTakeTheirs(p, me, k, peer)
    case SyncAll(peer) => HandleSyncAll(p, me, peer)
    case ScanFile(k, f, to, now) => HandleScanFile(p, me, k, f, to, now)
    case ScanMissing(k, start, to, now) => HandleScanMissing(p, me, k, start, to, now)
    case Take(t) => HandleTake(p, t)
    case Execute(t, sending) => HandleExecute(p, t, sending)
    case Respond(path, hash, outcome, now) => HandleRespond(p, path, hash, outcome, now)
    case AddRepo(r) => Effect(p.(tracked := p.tracked + {r}), {})
    case RemoveRepo(r) => HandleRemoveRepo(p, r)
    case Restart(order) => HandleRestart(p, order)
  }

  // ----- The system -----

  datatype System = System(peers: map<PeerId, Peer>, net: multiset<Msg>)

  /** Delivery is the `Receive` action of the addressee; the network reorders freely and may lose. */
  datatype Step = Act(who: PeerId, call: Call) | Lose(msg: Msg)

  ghost predicate CanStep(s: System, step: Step)
  {
    match step
    case Act(who, a) => who in s.peers && Enabled(s.peers[who], who, a) && (a.Receive? ==> a.msg in s.net)
    case Lose(m) => m in s.net
  }

  ghost function Apply(s: System, step: Step): System
    requires CanStep(s, step)
  {
    match step
    case Act(who, a) =>
      var e := Handle(s.peers[who], who, a);
      System(s.peers[who := e.peer],
             (if a.Receive? then s.net - multiset{a.msg} else s.net) + multiset(e.out))
    case Lose(m) => System(s.peers, s.net - multiset{m})
  }

  ghost predicate Run(s: System, steps: seq<Step>, s': System)
  {
    if steps == [] then s' == s
    else
      var last := |steps| - 1;
      exists m :: Run(s, steps[..last], m) && CanStep(m, steps[last]) && s' == Apply(m, steps[last])
  }

  lemma RunSnoc(s: System, steps: seq<Step>, m: System, step: Step)
    requires Run(s, steps, m) && CanStep(m, step)
    ensures Run(s, steps + [step], Apply(m, step))
  {
    var all := steps + [step];
    var last := |all| - 1;
    assert all[..last] == steps && all[last] == step;
    assert Run(s, all[..last], m);
  }

  ghost predicate Initial(s: System)
  {
    s.net == multiset{} && forall q | q in s.peers :: s.peers[q] == NewPeer
  }
}
