/** The start-up scan: one pass over the directory, one over the table, after which the live
    rows of the repository are the files on disk. */
module Scan {
  import opened Base
  import opened PeerIds
  import opened Clocks
  import opened Replication
  import opened Convergence
  import opened Effects
  import opened Paths

  /** How far the walk gets with a file: its size and time are unknown, its content cannot be
      hashed, or all is known. */
  datatype Reading = NoInfo | NoContent | Readable

  /** A regular, non-hidden file met by the directory walk. */
  datatype Found = Found(path: Path, disk: DiskFile, reading: Reading)

  predicate Noted(f: Found) { !IsTemp(f.path) && !f.reading.NoInfo? }

  predicate Indexed(f: Found) { !IsTemp(f.path) && f.reading.Readable? }

  function Seen(files: seq<Found>): set<Path> { set f | f in files && Noted(f) :: f.path }

  function ScanFiles(p: Peer, me: PeerId, repo: RepoId, files: seq<Found>, to: set<PeerId>, now: int): Effect
  {
    if files == [] then Effect(p, {})
    else
      var e := ScanFiles(p, me, repo, files[..|files| - 1], to, now);
      var f := files[|files| - 1];
      if !f.reading.Readable? then e
      else
        var e' := HandleScanFile(e.peer, me, Key(repo, f.path), f.disk, to, now);
        Effect(e'.peer, e.out + e'.out)
  }

  function ScanGone(p: Peer, me: PeerId, keys: seq<Key>, seen: set<Path>,
                    scanStart: int, to: set<PeerId>, now: int): Effect
  {
    if keys == [] then Effect(p, {})
    else
      var e := ScanGone(p, me, keys[..|keys| - 1], seen, scanStart, to, now);
      var k := keys[|keys| - 1];
      if k.path in seen then e
      else
        var e' := HandleScanMissing(e.peer, me, k, scanStart, to, now);
        Effect(e'.peer, e.out + e'.out)
  }

  /** Both passes; `keys` is the table's listing between them. */
  function ScanAll(p: Peer, me: PeerId, repo: RepoId, files: seq<Found>, keys: seq<Key>,
                   scanStart: int, to: set<PeerId>, now: int): Effect
  {
    var e := ScanFiles(p, me, repo, files, to, now);
    var e' := ScanGone(e.peer, me, keys, Seen(files), scanStart, to, now);
    Effect(e'.peer, e.out + e'.out)
  }

  ghost predicate IsListing(p: Peer, repo: RepoId, keys: seq<Key>)
  {
    && (forall i, j | 0 <= i < j < |keys| :: keys[i] != keys[j])
    && (forall k :: k in keys <==> Listed(p, repo, k))
  }

  predicate Listed(p: Peer, repo: RepoId, k: Key) { k in p.rows && k.repo == repo && !p.rows[k].deleted }

  // ----- What the walk does with one file -----

  /** The walk reads the file and finds it new or changed. */
  predicate Changed(p: Peer, repo: RepoId, f: Found)
  {
    Indexed(f) && !Unchanged(p, Key(repo, f.path), f.disk) && !Touched(p, Key(repo, f.path), f.disk)
  }

  function VersionAfter(p: Peer, k: Key): nat { if k in p.rows then p.rows[k].version + 1 else 1 }

  /** The row of a file after the walk, by the row before: kept, given the file's time, or written
      anew with the file's hash, size, time and mode under the next version. */
  predicate Recorded(p: Peer, p': Peer, repo: RepoId, f: Found, now: int)
  {
    var k := Key(repo, f.path);
    if !Indexed(f) || Unchanged(p, k, f.disk) then SameRow(p, p', k)
    else if Touched(p, k, f.disk) then
      k in p'.rows && p'.rows[k] == p.rows[k].(modified := f.disk.modified, updatedAt := now)
    else
      k in p'.rows && RecordsFile(p'.rows[k], f.disk, now) && p'.rows[k].version == VersionAfter(p, k)
  }

  /** A message that announces a new or changed file to one of `to`. */
  predicate AnnouncesFile(p: Peer, me: PeerId, to: set<PeerId>, repo: RepoId, f: Found, m: Msg)
  {
    && Changed(p, repo, f) && f.disk.size > 0
    && m.src == me && m.dst in to && m.key == Key(repo, f.path) && m.version == VersionAfter(p, m.key)
    && m.hash == f.disk.hash && m.size == f.disk.size && m.modified == f.disk.modified && m.mode == f.disk.mode
    && !m.deleted
  }

  /** The row is live, has the file's size, time and mode, and its hash too, unless it had the
      former before and its content was not read. */
  predicate Describes(p: Peer, p': Peer, repo: RepoId, f: Found)
  {
    var k := Key(repo, f.path);
    && k in p'.rows && !p'.rows[k].deleted && p'.rows[k].size == f.disk.size
    && p'.rows[k].modified == f.disk.modified && p'.rows[k].mode == f.disk.mode
    && (p'.rows[k].hash == f.disk.hash || (k in p.rows && p'.rows[k] == p.rows[k]))
  }

  lemma RecordedDescribes(p: Peer, p': Peer, repo: RepoId, f: Found, now: int)
    requires Recorded(p, p', repo, f, now) && Indexed(f)
    ensures Describes(p, p', repo, f)
  {
  }

  lemma ScanFileRecords(p: Peer, me: PeerId, repo: RepoId, f: Found, to: set<PeerId>, now: int)
    requires repo in p.tracked && f.reading.Readable?
    ensures var e := HandleScanFile(p, me, Key(repo, f.path), f.disk, to, now);
            && e.peer.tracked == p.tracked && Recorded(p, e.peer, repo, f, now)
            && (IsTemp(f.path) ==> e.peer == p)
            && (forall k | k != Key(repo, f.path) :: SameRow(p, e.peer, k))
            && (forall m | m in e.out :: AnnouncesFile(p, me, to, repo, f, m))
            && (forall q | q in to && Changed(p, repo, f) && f.disk.size > 0 :: exists m | m in e.out :: m.dst == q)
  {
    var k := Key(repo, f.path);
    IsTempIff(f.path);
    ScanFileEffect(p, me, k, f.disk, to, now);
    var e := HandleScanFile(p, me, k, f.disk, to, now);
    forall q | q in to && Changed(p, repo, f) && f.disk.size > 0 ensures exists m | m in e.out :: m.dst == q {
      assert Offer(me, q, k, e.peer.rows[k], e.peer.clock) in e.out;
    }
  }

  lemma SeenSnoc(init: seq<Found>, last: Found)
    ensures Seen(init + [last]) == Seen(init) + if Noted(last) then {last.path} else {}
  {
    var files := init + [last];
    forall f | f in init ensures f in files {
      var i :| 0 <= i < |init| && init[i] == f;
      assert files[i] == f;
    }
    assert files[|init|] == last && last in files;
  }

  // ----- The walk -----

  ghost predicate DistinctFiles(files: seq<Found>)
  {
    forall i, j | 0 <= i < j < |files| :: files[i].path != files[j].path
  }

  /** Every file is recorded, and no row but theirs is touched. */
  ghost predicate WalkRecords(p: Peer, p': Peer, repo: RepoId, files: seq<Found>, now: int)
  {
    && p'.tracked == p.tracked
    && (forall f | f in files :: Recorded(p, p', repo, f, now))
    && (forall k: Key | !(k.repo == repo && k.path in Seen(files)) :: SameRow(p, p', k))
  }

  /** New and changed files that are not empty are announced to all of `to`, and nothing else is. */
  ghost predicate WalkAnnounces(p: Peer, me: PeerId, to: set<PeerId>, repo: RepoId, files: seq<Found>, out: set<Msg>)
  {
    OnlyFiles(p, me, to, repo, files, out) && forall f | f in files :: Reaches(p, me, to, repo, f, out)
  }

  lemma PathsDiffer(init: seq<Found>, last: Found, f: Found)
    requires DistinctFiles(init + [last]) && f in init
    ensures f.path != last.path
  {
    var i :| 0 <= i < |init| && init[i] == f;
    assert (init + [last])[i] == f && (init + [last])[|init|] == last;
  }

  lemma LastNotSeen(init: seq<Found>, last: Found)
    requires DistinctFiles(init + [last])
    ensures last.path !in Seen(init) && DistinctFiles(init)
  {
    forall f | f in init ensures f.path != last.path { PathsDiffer(init, last, f); }
    forall i, j | 0 <= i < j < |init| ensures init[i].path != init[j].path {
      assert (init + [last])[i] == init[i] && (init + [last])[j] == init[j];
    }
  }

  /** A file's row is judged the same before the walk and when the walk gets there. */
  lemma SameJudgement(p: Peer, p1: Peer, repo: RepoId, f: Found)
    requires SameRow(p, p1, Key(repo, f.path))
    ensures Changed(p1, repo, f) <==> Changed(p, repo, f)
    ensures VersionAfter(p1, Key(repo, f.path)) == VersionAfter(p, Key(repo, f.path))
    ensures forall p', now | Recorded(p1, p', repo, f, now) :: Recorded(p, p', repo, f, now)
  {
  }

  lemma WalkRecordsOneMore(p: Peer, p1: Peer, p': Peer, repo: RepoId, init: seq<Found>, last: Found, now: int)
    requires WalkRecords(p, p1, repo, init, now) && DistinctFiles(init + [last]) && p'.tracked == p1.tracked
    requires Recorded(p1, p', repo, last, now) && forall k | k != Key(repo, last.path) :: SameRow(p1, p', k)
    requires !Noted(last) ==> p' == p1
    ensures WalkRecords(p, p', repo, init + [last], now)
  {
    var files := init + [last];
    LastNotSeen(init, last);
    SeenSnoc(init, last);
    SameJudgement(p, p1, repo, last);
    forall f | f in files ensures Recorded(p, p', repo, f, now) {
      if f in init {
        PathsDiffer(init, last, f);
        assert Recorded(p, p1, repo, f, now) && SameRow(p1, p', Key(repo, f.path));
      }
    }
    forall k: Key | !(k.repo == repo && k.path in Seen(files)) ensures SameRow(p, p', k) {
      assert SameRow(p, p1, k);
      if k != Key(repo, last.path) { assert SameRow(p1, p', k); }
    }
  }

  /** Every message announces a file. */
  ghost predicate OnlyFiles(p: Peer, me: PeerId, to: set<PeerId>, repo: RepoId, files: seq<Found>, out: set<Msg>)
  {
    forall m | m in out :: exists f | f in files :: AnnouncesFile(p, me, to, repo, f, m)
  }

  ghost predicate Reaches(p: Peer, me: PeerId, to: set<PeerId>, repo: RepoId, f: Found, out: set<Msg>)
  {
    Changed(p, repo, f) && f.disk.size > 0 ==>
      forall q | q in to :: exists m | m in out :: m.dst == q && AnnouncesFile(p, me, to, repo, f, m)
  }

  lemma OnlyFilesOneMore(p: Peer, me: PeerId, to: set<PeerId>, repo: RepoId, init: seq<Found>, out: set<Msg>,
                         last: Found, more: set<Msg>)
    requires OnlyFiles(p, me, to, repo, init, out)
    requires forall m | m in more :: AnnouncesFile(p, me, to, repo, last, m)
    ensures OnlyFiles(p, me, to, repo, init + [last], out + more)
  {
    forall m | m in out + more ensures exists f | f in init + [last] :: AnnouncesFile(p, me, to, repo, f, m) {
      if m in out {
        var f :| f in init && AnnouncesFile(p, me, to, repo, f, m);
        assert f in init + [last];
      } else {
        assert last in init + [last];
      }
    }
  }

  lemma ReachesMore(p: Peer, me: PeerId, to: set<PeerId>, repo: RepoId, f: Found, out: set<Msg>, all: set<Msg>)
    requires Reaches(p, me, to, repo, f, out) && out <= all
    ensures Reaches(p, me, to, repo, f, all)
  {
    if Changed(p, repo, f) && f.disk.size > 0 {
      forall q | q in to ensures exists m | m in all :: m.dst == q && AnnouncesFile(p, me, to, repo, f, m) {
        var m :| m in out && m.dst == q && AnnouncesFile(p, me, to, repo, f, m);
        assert m in all;
      }
    }
  }

  lemma WalkAnnouncesOneMore(p: Peer, me: PeerId, to: set<PeerId>, repo: RepoId, init: seq<Found>, out: set<Msg>,
                             p1: Peer, last: Found, more: set<Msg>)
    requires WalkAnnounces(p, me, to, repo, init, out) && SameRow(p, p1, Key(repo, last.path))
    requires forall m | m in more :: AnnouncesFile(p1, me, to, repo, last, m)
    requires forall q | q in to && Changed(p1, repo, last) && last.disk.size > 0 :: exists m | m in more :: m.dst == q
    ensures WalkAnnounces(p, me, to, repo, init + [last], out + more)
  {
    SameJudgement(p, p1, repo, last);
    forall m | m in more ensures AnnouncesFile(p, me, to, repo, last, m) {
      assert AnnouncesFile(p1, me, to, repo, last, m);
    }
    OnlyFilesOneMore(p, me, to, repo, init, out, last, more);
    assert Reaches(p, me, to, repo, last, more);
    forall f | f in init + [last] ensures Reaches(p, me, to, repo, f, out + more) {
      if f in init {
        ReachesMore(p, me, to, repo, f, out, out + more);
      } else {
        ReachesMore(p, me, to, repo, last, more, out + more);
      }
    }
  }

  lemma {:induction false} WalkEffect(p: Peer, me: PeerId, repo: RepoId, files: seq<Found>, to: set<PeerId>, now: int)
    requires repo in p.tracked && DistinctFiles(files)
    ensures var e := ScanFiles(p, me, repo, files, to, now);
            WalkRecords(p, e.peer, repo, files, now) && WalkAnnounces(p, me, to, repo, files, e.out)
  {
    if files != [] {
      var init, last := files[..|files| - 1], files[|files| - 1];
      assert files == init + [last];
      LastNotSeen(init, last);
      WalkEffect(p, me, repo, init, to, now);
      var e1 := ScanFiles(p, me, repo, init, to, now);
      var e := ScanFiles(p, me, repo, files, to, now);
      assert SameRow(p, e1.peer, Key(repo, last.path));
      if last.reading.Readable? {
        ScanFileRecords(e1.peer, me, repo, last, to, now);
        var e' := HandleScanFile(e1.peer, me, Key(repo, last.path), last.disk, to, now);
        WalkRecordsOneMore(p, e1.peer, e'.peer, repo, init, last, now);
        WalkAnnouncesOneMore(p, me, to, repo, init, e1.out, e1.peer, last, e'.out);
      } else {
        WalkRecordsOneMore(p, e1.peer, e1.peer, repo, init, last, now);
        WalkAnnouncesOneMore(p, me, to, repo, init, e1.out, e1.peer, last, {});
        assert e1.out + {} == e1.out;
      }
    }
  }

  // ----- The second pass -----

  predicate Stays(p: Peer, k: Key, keys: seq<Key>, seen: set<Path>, scanStart: int)
    requires k in p.rows
  {
    k !in keys || k.path in seen || p.rows[k].updatedAt >= scanStart
  }

  /** The row of a file found deleted: the next version, marked deleted, and else as it was. */
  function Tombstone(row: Row, now: int): Row
  {
    row.(version := row.version + 1, deleted := true, updatedAt := now)
  }

  /** What burying the keys that were not seen makes of one row. */
  ghost predicate RowAfter(p: Peer, p': Peer, k: Key, keys: seq<Key>, seen: set<Path>, scanStart: int, now: int)
    requires k in p.rows && k in p'.rows
  {
    p'.rows[k] == if Stays(p, k, keys, seen, scanStart) then p.rows[k] else Tombstone(p.rows[k], now)
  }

  /** A message that announces a tombstone to one of `to`. */
  predicate AnnouncesDeletion(p: Peer, me: PeerId, to: set<PeerId>, k: Key, m: Msg, now: int)
  {
    k in p.rows && m.dst in to && Carries(m, me, m.dst, k, Tombstone(p.rows[k], now))
  }

  ghost predicate BurialAnnounces(p: Peer, me: PeerId, to: set<PeerId>, keys: seq<Key>, seen: set<Path>,
                                  scanStart: int, now: int, out: set<Msg>)
  {
    && (forall m | m in out ::
          && m.key in p.rows && !Stays(p, m.key, keys, seen, scanStart)
          && AnnouncesDeletion(p, me, to, m.key, m, now))
    && (forall k, q | k in p.rows && !Stays(p, k, keys, seen, scanStart) && q in to ::
          exists m | m in out :: m.key == k && m.dst == q)
  }

  ghost predicate Buries(p: Peer, p': Peer, keys: seq<Key>, seen: set<Path>, scanStart: int, now: int)
  {
    && p'.tracked == p.tracked && p'.rows.Keys == p.rows.Keys
    && forall k | k in p.rows :: RowAfter(p, p', k, keys, seen, scanStart, now)
  }

  lemma BuriesOneMore(p: Peer, p1: Peer, p': Peer, init: seq<Key>, last: Key, seen: set<Path>, scanStart: int, now: int)
    requires Buries(p, p1, init, seen, scanStart, now) && last in p.rows && last !in init
    requires p'.tracked == p1.tracked && p'.rows.Keys == p1.rows.Keys
    requires forall x | x in p1.rows && x != last :: p'.rows[x] == p1.rows[x]
    requires p'.rows[last] == if last.path in seen || p1.rows[last].updatedAt >= scanStart then p1.rows[last]
                              else Tombstone(p1.rows[last], now)
    ensures Buries(p, p', init + [last], seen, scanStart, now)
  {
    forall k | k in p.rows ensures RowAfter(p, p', k, init + [last], seen, scanStart, now) {
      assert RowAfter(p, p1, k, init, seen, scanStart, now);
      assert k in init + [last] <==> k in init || k == last;
    }
  }

  lemma AnnouncedOneMore(p: Peer, me: PeerId, to: set<PeerId>, init: seq<Key>, last: Key, seen: set<Path>,
                         scanStart: int, now: int, out: set<Msg>, more: set<Msg>)
    requires BurialAnnounces(p, me, to, init, seen, scanStart, now, out) && last in p.rows
    requires forall m | m in more ::
               m.key == last && last.path !in seen && p.rows[last].updatedAt < scanStart
               && AnnouncesDeletion(p, me, to, last, m, now)
    requires last.path !in seen && p.rows[last].updatedAt < scanStart ==>
               forall q | q in to :: exists m | m in more :: m.dst == q
    ensures BurialAnnounces(p, me, to, init + [last], seen, scanStart, now, out + more)
  {
    var keys, all := init + [last], out + more;
    assert forall k :: k in keys <==> k in init || k == last;
    forall k, q | k in p.rows && !Stays(p, k, keys, seen, scanStart) && q in to
      ensures exists m | m in all :: m.key == k && m.dst == q
    {
      if k in init {
        var m :| m in out && m.key == k && m.dst == q;
        assert m in all;
      } else {
        var m :| m in more && m.dst == q;
        assert m in all && m.key == k;
      }
    }
  }

  lemma ScanMissingBuries(p: Peer, me: PeerId, k: Key, scanStart: int, to: set<PeerId>, now: int)
    requires k.repo in p.tracked && k in p.rows && !p.rows[k].deleted
    ensures var e := HandleScanMissing(p, me, k, scanStart, to, now);
            && e.peer.tracked == p.tracked && e.peer.rows.Keys == p.rows.Keys
            && (forall x | x in p.rows && x != k :: e.peer.rows[x] == p.rows[x])
            && e.peer.rows[k] == (if p.rows[k].updatedAt >= scanStart then p.rows[k] else Tombstone(p.rows[k], now))
            && (forall m | m in e.out ::
                  m.key == k && p.rows[k].updatedAt < scanStart && AnnouncesDeletion(p, me, to, k, m, now))
            && (p.rows[k].updatedAt < scanStart ==> forall q | q in to :: exists m | m in e.out :: m.dst == q)
  {
    ScanMissingEffect(p, me, k, scanStart, to, now);
    var e := HandleScanMissing(p, me, k, scanStart, to, now);
    if p.rows[k].updatedAt < scanStart {
      forall q | q in to ensures exists m | m in e.out :: m.dst == q {
        assert Offer(me, q, k, e.peer.rows[k], e.peer.clock) in e.out;
      }
      forall x ensures x in e.peer.rows.Keys <==> x in p.rows.Keys {
        assert x == k || SameRow(p, e.peer, x);
      }
      forall x | x in p.rows && x != k ensures e.peer.rows[x] == p.rows[x] {
        assert SameRow(p, e.peer, x);
      }
    }
  }

  lemma {:induction false} BurialEffect(p: Peer, me: PeerId, repo: RepoId, keys: seq<Key>, seen: set<Path>,
                                        scanStart: int, to: set<PeerId>, now: int)
    requires repo in p.tracked && forall k | k in keys :: Listed(p, repo, k)
    requires forall i, j | 0 <= i < j < |keys| :: keys[i] != keys[j]
    ensures var e := ScanGone(p, me, keys, seen, scanStart, to, now);
            Buries(p, e.peer, keys, seen, scanStart, now)
            && BurialAnnounces(p, me, to, keys, seen, scanStart, now, e.out)
  {
    if keys != [] {
      var init, last := keys[..|keys| - 1], keys[|keys| - 1];
      assert keys == init + [last] && last in keys && forall k | k in init :: k in keys;
      assert last !in init;
      BurialEffect(p, me, repo, init, seen, scanStart, to, now);
      var e1 := ScanGone(p, me, init, seen, scanStart, to, now);
      assert RowAfter(p, e1.peer, last, init, seen, scanStart, now);
      if last.path !in seen {
        ScanMissingBuries(e1.peer, me, last, scanStart, to, now);
        var e' := HandleScanMissing(e1.peer, me, last, scanStart, to, now);
        BuriesOneMore(p, e1.peer, e'.peer, init, last, seen, scanStart, now);
        AnnouncedOneMore(p, me, to, init, last, seen, scanStart, now, e1.out, e'.out);
      } else {
        BuriesOneMore(p, e1.peer, e1.peer, init, last, seen, scanStart, now);
        AnnouncedOneMore(p, me, to, init, last, seen, scanStart, now, e1.out, {});
        assert e1.out + {} == e1.out;
      }
    }
  }

  // ----- The scan -----

  /** After the scan every file that could be read has a live row that describes it, recorded by
      the row before, and every other live row of the repository was written after the scan began
      or is of a file whose content could not be read. */
  lemma ScanAgreesWithDisk(p: Peer, me: PeerId, repo: RepoId, files: seq<Found>, keys: seq<Key>,
                           scanStart: int, to: set<PeerId>, now: int)
    requires repo in p.tracked && DistinctFiles(files)
    requires IsListing(ScanFiles(p, me, repo, files, to, now).peer, repo, keys)
    ensures var p' := ScanAll(p, me, repo, files, keys, scanStart, to, now).peer;
            && (forall f | f in files && Indexed(f) :: Describes(p, p', repo, f))
            && (forall f | f in files && Noted(f) :: Recorded(p, p', repo, f, now))
            && (forall k | Listed(p', repo, k) ::
                  k.path in Seen(files) || (k in p.rows && p.rows[k].updatedAt >= scanStart))
  {
    var seen := Seen(files);
    WalkEffect(p, me, repo, files, to, now);
    var p1 := ScanFiles(p, me, repo, files, to, now).peer;
    BurialEffect(p1, me, repo, keys, seen, scanStart, to, now);
    var p' := ScanGone(p1, me, keys, seen, scanStart, to, now).peer;
    forall k | Listed(p', repo, k) && k.path !in seen ensures k in p.rows && p.rows[k].updatedAt >= scanStart {
      assert RowAfter(p1, p', k, keys, seen, scanStart, now);
      assert k in keys && SameRow(p, p1, k);
    }
    forall f | f in files && Noted(f)
      ensures Recorded(p, p', repo, f, now) && (Indexed(f) ==> Describes(p, p', repo, f))
    {
      KeptByBurial(p1, p', Key(repo, f.path), keys, seen, scanStart, now);
      assert Recorded(p, p1, repo, f, now);
      if Indexed(f) { RecordedDescribes(p, p', repo, f, now); }
    }
  }

  lemma KeptByBurial(p: Peer, p': Peer, k: Key, keys: seq<Key>, seen: set<Path>, scanStart: int, now: int)
    requires Buries(p, p', keys, seen, scanStart, now) && k.path in seen
    ensures SameRow(p, p', k)
  {
    if k in p.rows { assert RowAfter(p, p', k, keys, seen, scanStart, now); }
    assert k in p.rows.Keys <==> k in p'.rows.Keys;
  }

  /** The scan announces every new or changed file that is not empty, and every live row without a
      file that is older than the scan, each to all of `to`; and nothing else. */
  lemma ScanAnnounces(p: Peer, me: PeerId, repo: RepoId, files: seq<Found>, keys: seq<Key>,
                      scanStart: int, to: set<PeerId>, now: int)
    requires repo in p.tracked && DistinctFiles(files)
    requires IsListing(ScanFiles(p, me, repo, files, to, now).peer, repo, keys)
    ensures var out := ScanAll(p, me, repo, files, keys, scanStart, to, now).out;
            && (forall m | m in out ::
                  || (exists f | f in files :: AnnouncesFile(p, me, to, repo, f, m))
                  || (Gone(p, repo, files, scanStart, m.key) && AnnouncesDeletion(p, me, to, m.key, m, now)))
            && (forall f | f in files :: Reaches(p, me, to, repo, f, out))
            && (forall k, q | Gone(p, repo, files, scanStart, k) && q in to ::
                  exists m | m in out :: m.key == k && m.dst == q && AnnouncesDeletion(p, me, to, k, m, now))
  {
    var seen := Seen(files);
    WalkEffect(p, me, repo, files, to, now);
    var e1 := ScanFiles(p, me, repo, files, to, now);
    BurialEffect(e1.peer, me, repo, keys, seen, scanStart, to, now);
    var e2 := ScanGone(e1.peer, me, keys, seen, scanStart, to, now);
    var out := ScanAll(p, me, repo, files, keys, scanStart, to, now).out;
    assert out == e1.out + e2.out;
    forall m | m in e2.out
      ensures Gone(p, repo, files, scanStart, m.key) && AnnouncesDeletion(p, me, to, m.key, m, now)
    {
      assert SameRow(p, e1.peer, m.key);
    }
    forall m | m in out && m !in e2.out ensures exists f | f in files :: AnnouncesFile(p, me, to, repo, f, m) {
      assert m in e1.out;
    }
    forall f | f in files ensures Reaches(p, me, to, repo, f, out) {
      ReachesMore(p, me, to, repo, f, e1.out, out);
    }
    forall k, q | Gone(p, repo, files, scanStart, k) && q in to
      ensures exists m | m in out :: m.key == k && m.dst == q && AnnouncesDeletion(p, me, to, k, m, now)
    {
      assert SameRow(p, e1.peer, k) && Listed(e1.peer, repo, k) && k in keys;
      var m :| m in e2.out && m.key == k && m.dst == q;
      assert m in out;
    }
  }

  /** A live row of the repository, older than the scan, whose file the walk did not note. */
  predicate Gone(p: Peer, repo: RepoId, files: seq<Found>, scanStart: int, k: Key)
  {
    Listed(p, repo, k) && k.path !in Seen(files) && p.rows[k].updatedAt < scanStart
  }

  /** A file on disk that had a live row before the scan keeps one exactly when its size and time
      could be read: otherwise the scan takes it for deleted. */
  lemma PresentFileSurvivesIff(p: Peer, me: PeerId, repo: RepoId, files: seq<Found>, keys: seq<Key>,
                               scanStart: int, to: set<PeerId>, now: int, f: Found)
    requires repo in p.tracked
    requires DistinctFiles(files)
    requires IsListing(ScanFiles(p, me, repo, files, to, now).peer, repo, keys)
    requires f in files && !IsTemp(f.path)
    requires Listed(p, repo, Key(repo, f.path)) && p.rows[Key(repo, f.path)].updatedAt < scanStart
    ensures Listed(ScanAll(p, me, repo, files, keys, scanStart, to, now).peer, repo, Key(repo, f.path))
            <==> !f.reading.NoInfo?
  {
    var seen, k := Seen(files), Key(repo, f.path);
    WalkEffect(p, me, repo, files, to, now);
    var p1 := ScanFiles(p, me, repo, files, to, now).peer;
    BurialEffect(p1, me, repo, keys, seen, scanStart, to, now);
    OnlyItsOwnSighting(files, f);
    assert Recorded(p, p1, repo, f, now);
    assert Listed(p1, repo, k) && k in keys;
    assert RowAfter(p1, ScanGone(p1, me, keys, seen, scanStart, to, now).peer, k, keys, seen, scanStart, now);
  }

  lemma OnlyItsOwnSighting(files: seq<Found>, f: Found)
    requires f in files && DistinctFiles(files)
    ensures f.path in Seen(files) <==> Noted(f)
  {
    var i :| 0 <= i < |files| && files[i] == f;
    forall g | g in files && g.path == f.path ensures g == f {
      var j :| 0 <= j < |files| && files[j] == g;
      assert i == j || i < j || j < i;
    }
  }
}
