/** The polling watcher: a snapshot diff that must agree with the tree it walks. */
module Watcher {
  import opened Base

  datatype Info = Info(modified: int, size: nat)

  datatype Entry = Entry(path: Path, regular: bool, info: Info)

  datatype WatchEvent = Created(path: Path) | Modified(path: Path) | Deleted(path: Path)

  type Tree = map<Path, Info>

  /** Regular files whose relative path does not begin with a dot. */
  predicate Watched(e: Entry) { e.regular && e.path.text != "" && e.path.text[0] != '.' }

  function Snapshot(entries: seq<Entry>): Tree
  {
    if entries == [] then map[]
    else
      var rest, last := Snapshot(entries[..|entries| - 1]), entries[|entries| - 1];
      if Watched(last) then rest[last.path := last.info] else rest
  }

  ghost predicate DistinctPaths(entries: seq<Entry>)
  {
    forall i, j | 0 <= i < j < |entries| :: entries[i].path != entries[j].path
  }

  // ----- The events that lead from one tree to another -----

  function EventFor(before: Tree, after: Tree, p: Path): Option<WatchEvent>
  {
    if p in before && p in after then (if before[p] == after[p] then None else Some(Modified(p)))
    else if p in after then Some(Created(p))
    else if p in before then Some(Deleted(p))
    else None
  }

  /** `events` holds for every path the one event it deserves, and nothing else. */
  ghost predicate Explains(events: seq<WatchEvent>, before: Tree, after: Tree)
  {
    && (forall e | e in events :: EventFor(before, after, e.path) == Some(e))
    && (forall p | EventFor(before, after, p).Some? :: EventFor(before, after, p).value in events)
    && (forall i, j | 0 <= i < j < |events| :: events[i].path != events[j].path)
  }

  /** So a path is reported as created, deleted or modified exactly when it is new, gone, or of
      another time or size. */
  lemma ReportedIff(events: seq<WatchEvent>, before: Tree, after: Tree, p: Path)
    requires Explains(events, before, after)
    ensures Created(p) in events <==> p !in before && p in after
    ensures Deleted(p) in events <==> p in before && p !in after
    ensures Modified(p) in events <==>
              && p in before && p in after
              && (before[p].modified != after[p].modified || before[p].size != after[p].size)
  {
    assert Created(p).path == p && Deleted(p).path == p && Modified(p).path == p;
    assert EventFor(before, after, p).Some? ==> EventFor(before, after, p).value in events;
  }

  ghost predicate DiffersAt(a: Tree, b: Tree, p: Path)
  {
    forall x | x != p :: (x in a <==> x in b) && (x in a ==> a[x] == b[x])
  }

  /** One more path settled. */
  lemma ExplainsOneMore(events: seq<WatchEvent>, before: Tree, mid: Tree, after: Tree, e: WatchEvent)
    requires Explains(events, before, mid) && DiffersAt(mid, after, e.path)
    requires EventFor(before, mid, e.path) == None && EventFor(before, after, e.path) == Some(e)
    ensures Explains(events + [e], before, after)
  {
    var all := events + [e];
    forall x | x != e.path ensures EventFor(before, after, x) == EventFor(before, mid, x) {
    }
    forall x | x in events ensures x.path != e.path {
    }
    forall x | EventFor(before, after, x).Some? ensures EventFor(before, after, x).value in all {
      if x == e.path { assert all[|events|] == e; }
    }
    assert forall i | 0 <= i < |events| :: events[i] in events;
  }

  lemma SliceSnoc(log: seq<WatchEvent>, start: nat, e: WatchEvent)
    requires start <= |log|
    ensures (log + [e])[start..] == log[start..] + [e]
  {
  }

  // ----- Replaying events -----

  function Applied(paths: set<Path>, e: WatchEvent): set<Path>
  {
    match e
    case Created(p) => paths + {p}
    case Deleted(p) => paths - {p}
    case Modified(p) => paths
  }

  function Replay(events: seq<WatchEvent>): set<Path>
  {
    if events == [] then {} else Applied(Replay(events[..|events| - 1]), events[|events| - 1])
  }

  lemma ReplaySnoc(events: seq<WatchEvent>, e: WatchEvent)
    ensures Replay(events + [e]) == Applied(Replay(events), e)
  {
    assert (events + [e])[..|events|] == events;
  }

  /** The tree with one path set or gone. */
  function Changed(tree: Tree, p: Path, info: Option<Info>): Tree
  {
    if info.Some? then tree[p := info.value] else tree - {p}
  }

  /** One more event keeps the log in step with the tree. */
  lemma LogOneMore(log: seq<WatchEvent>, start: nat, before: Tree, known: Tree, info: Option<Info>, e: WatchEvent)
    requires start <= |log| && Explains(log[start..], before, known) && Replay(log) == known.Keys
    requires EventFor(before, known, e.path) == None
    requires EventFor(before, Changed(known, e.path, info), e.path) == Some(e)
    requires EventFor(known, Changed(known, e.path, info), e.path) == Some(e)
    ensures Replay(log + [e]) == Changed(known, e.path, info).Keys
    ensures Explains((log + [e])[start..], before, Changed(known, e.path, info))
  {
    ReplaySnoc(log, e);
    SliceSnoc(log, start, e);
    ExplainsOneMore(log[start..], before, known, Changed(known, e.path, info), e);
  }

  // ----- Snapshots -----

  lemma {:induction false} SnapshotPaths(entries: seq<Entry>)
    ensures forall p :: p in Snapshot(entries) <==>
                        exists i | 0 <= i < |entries| :: Watched(entries[i]) && entries[i].path == p
  {
    if entries != [] {
      SnapshotPaths(entries[..|entries| - 1]);
      assert forall i | 0 <= i < |entries| - 1 :: entries[..|entries| - 1][i] == entries[i];
    }
  }

  /** What a pass that visits `entries` knows of a path: the time and size of the regular file of
      that name, unless the name is empty or begins with a dot. */
  lemma {:induction false} SnapshotIff(entries: seq<Entry>, p: Path, info: Info)
    requires DistinctPaths(entries)
    ensures p in Snapshot(entries) && Snapshot(entries)[p] == info
            <==> p.text != "" && p.text[0] != '.' && Entry(p, true, info) in entries
  {
    if entries != [] {
      var init, last := entries[..|entries| - 1], entries[|entries| - 1];
      assert entries == init + [last];
      SnapshotIff(init, p, info);
      if last.path == p {
        assert Entry(p, true, info) !in init;
        SnapshotGrows(entries, |init|);
        assert entries[..|entries|] == entries;
      }
    }
  }

  lemma SnapshotGrows(entries: seq<Entry>, i: nat)
    requires i < |entries| && DistinctPaths(entries)
    ensures Snapshot(entries[..i + 1])
            == if Watched(entries[i]) then Snapshot(entries[..i])[entries[i].path := entries[i].info]
               else Snapshot(entries[..i])
    ensures entries[i].path !in Snapshot(entries[..i])
  {
    assert entries[..i + 1][..i] == entries[..i];
    SnapshotPaths(entries[..i]);
  }

  /** A scan cut short at `n` still agrees with the tree exactly when only entries that are not
      watched were missed. */
  lemma {:induction false} CutScanAgreesIff(entries: seq<Entry>, n: nat)
    requires n <= |entries| && DistinctPaths(entries)
    ensures Snapshot(entries[..n]) == Snapshot(entries) <==> forall i | n <= i < |entries| :: !Watched(entries[i])
    ensures forall p | p in Snapshot(entries[..n]) :: p in Snapshot(entries)
  {
    SnapshotPaths(entries[..n]);
    SnapshotPaths(entries);
    forall p | p in Snapshot(entries[..n]) ensures p in Snapshot(entries) {
      var i :| 0 <= i < n && Watched(entries[..n][i]) && entries[..n][i].path == p;
      assert entries[i] == entries[..n][i];
    }
    if i :| n <= i < |entries| && Watched(entries[i]) {
      assert entries[i].path in Snapshot(entries);
    } else {
      UnwatchedTailAddsNothing(entries, n, |entries|);
      assert entries[..|entries|] == entries;
    }
  }

  lemma {:induction false} UnwatchedTailAddsNothing(entries: seq<Entry>, n: nat, m: nat)
    requires n <= m <= |entries| && DistinctPaths(entries)
    requires forall i | n <= i < m :: !Watched(entries[i])
    ensures Snapshot(entries[..m]) == Snapshot(entries[..n])
  {
    if n < m {
      UnwatchedTailAddsNothing(entries, n, m - 1);
      SnapshotGrows(entries, m - 1);
    }
  }

  /** How a pass over the directory ends. */
  datatype Ending = Complete | Threw(at: nat) | StopRequested(at: nat)

  function Visited(entries: seq<Entry>, ending: Ending): nat
  {
    match ending
    case Complete => |entries|
    case Threw(at) => if at < |entries| then at else |entries|
    case StopRequested(at) => if at < |entries| then at else |entries|
  }

  class PollingWatcher {
    var known: Tree

    /** Every event handed to the callback, oldest first. */
    var log: seq<WatchEvent>

    ghost predicate Valid()
      reads this
    {
      Replay(log) == known.Keys
    }

    constructor ()
      ensures Valid() && known == map[] && log == []
    {
      known, log := map[], [];
    }

    /** Record a change of one path and tell the callback. */
    method UpdateKnown(p: Path, info: Option<Info>, e: WatchEvent, ghost before: Tree, ghost start: nat)
      requires Valid() && start <= |log| && Explains(log[start..], before, known)
      requires e.path == p && EventFor(before, known, p) == None
      requires EventFor(before, Changed(known, p, info), p) == Some(e)
      requires EventFor(known, Changed(known, p, info), p) == Some(e)
      modifies this
      ensures Valid() && known == Changed(old(known), p, info)
      ensures old(log) <= log && Explains(log[start..], before, known)
    {
      LogOneMore(log, start, before, known, info, e);
      known := Changed(known, p, info);
      log := log + [e];
    }

    /** One entry of the walk. */
    method VisitEntry(e: Entry, ghost before: Tree, ghost start: nat)
      requires Valid() && start <= |log| && Explains(log[start..], before, known)
      requires EventFor(before, known, e.path) == None
      modifies this
      ensures Valid() && known == old(known)[e.path := e.info]
      ensures old(log) <= log && Explains(log[start..], before, known)
    {
      if e.path !in known {
        UpdateKnown(e.path, Some(e.info), Created(e.path), before, start);
      } else if known[e.path] != e.info {
        UpdateKnown(e.path, Some(e.info), Modified(e.path), before, start);
      } else {
        assert known == known[e.path := e.info];
      }
    }

    /** One turn of the first loop. */
    method VisitNext(entries: seq<Entry>, i: nat, seen: set<Path>, ghost before: Tree, ghost start: nat)
        returns (seen': set<Path>)
      requires Valid() && DistinctPaths(entries) && i < |entries| && seen == Snapshot(entries[..i]).Keys
      requires start <= |log| && known == before + Snapshot(entries[..i]) && Explains(log[start..], before, known)
      modifies this
      ensures Valid() && seen' == Snapshot(entries[..i + 1]).Keys
      ensures known == before + Snapshot(entries[..i + 1])
      ensures old(log) <= log && Explains(log[start..], before, known)
    {
      SnapshotGrows(entries, i);
      seen' := seen;
      if Watched(entries[i]) {
        seen' := seen + {entries[i].path};
        VisitEntry(entries[i], before, start);
      }
    }

    /** The first loop: bring the visited entries up to date. */
    method VisitEntries(entries: seq<Entry>, n: nat) returns (seen: set<Path>)
      requires Valid() && DistinctPaths(entries) && n <= |entries|
      modifies this
      ensures Valid() && seen == Snapshot(entries[..n]).Keys
      ensures known == old(known) + Snapshot(entries[..n])
      ensures old(log) <= log && Explains(log[|old(log)|..], old(known), known)
    {
      seen := {};
      assert log[|log|..] == [];
      for i := 0 to n
        invariant Valid() && seen == Snapshot(entries[..i]).Keys
        invariant known == old(known) + Snapshot(entries[..i])
        invariant old(log) <= log && Explains(log[|old(log)|..], old(known), known)
      {
        seen := VisitNext(entries, i, seen, old(known), |old(log)|);
      }
    }

    /** The second loop: report and forget every known file that was not seen. */
    method ForgetUnseen(seen: set<Path>, ghost before: Tree, ghost start: nat)
      requires Valid() && start <= |log| && Explains(log[start..], before, known)
      requires forall p | p in known && p !in seen :: p in before && before[p] == known[p]
      modifies this
      ensures Valid() && known == (map p | p in old(known) && p in seen :: old(known)[p])
      ensures old(log) <= log && Explains(log[start..], before, known)
    {
      var rest := known.Keys;
      while rest != {}
        invariant rest <= old(known).Keys && Valid()
        invariant known == (map p | p in old(known) && (p in seen || p in rest) :: old(known)[p])
        invariant old(log) <= log && Explains(log[start..], before, known)
        decreases rest
      {
        var p :| p in rest;
        if p !in seen {
          UpdateKnown(p, None, Deleted(p), before, start);
        }
        rest := rest - {p};
      }
    }

    /** One pass.  Unless it is asked to stop, the watcher afterwards knows exactly what the pass
        visited, has told the callback once of every path that changed, and of no other; the
        events since the start always rebuild the known paths. */
    method Scan(entries: seq<Entry>, ending: Ending)
      requires Valid() && DistinctPaths(entries)
      modifies this
      ensures Valid() && old(log) <= log && Explains(log[|old(log)|..], old(known), known)
      ensures var seen := Snapshot(entries[..Visited(entries, ending)]);
              known == if ending.StopRequested? then old(known) + seen else seen
      ensures ending.Complete? ==> known == Snapshot(entries) && Replay(log) == Snapshot(entries).Keys
    {
      ghost var n := Visited(entries, ending);
      assert entries[..|entries|] == entries;
      var visited := match ending case Complete => |entries| case Threw(at) => at case StopRequested(at) => at;
      if visited > |entries| {
        visited := |entries|;
      }
      var seen := VisitEntries(entries, visited);
      if ending.StopRequested? {
        return;
      }
      ForgetUnseen(seen, old(known), |old(log)|);
    }

    /** Any number of passes: the events so far always rebuild the known paths, and after a
        complete pass those are the files of that pass. */
    method WatchLoop(passes: seq<(seq<Entry>, Ending)>)
      requires Valid() && forall i | 0 <= i < |passes| :: DistinctPaths(passes[i].0)
      modifies this
      ensures Valid() && old(log) <= log
      ensures |passes| > 0 && passes[|passes| - 1].1.Complete? ==>
                known == Snapshot(passes[|passes| - 1].0) && Replay(log) == Snapshot(passes[|passes| - 1].0).Keys
    {
      for i := 0 to |passes|
        invariant Valid() && old(log) <= log
        invariant i > 0 && passes[i - 1].1.Complete? ==>
                    known == Snapshot(passes[i - 1].0) && Replay(log) == Snapshot(passes[i - 1].0).Keys
      {
        Scan(passes[i].0, passes[i].1);
      }
    }
  }
}
