/** The sync queue: round robin over repositories, small files first inside each. */
module TaskQueue {
  import opened Base
  import opened PeerIds

  datatype TaskType = Upload | Download

  datatype Task = Task(repo: RepoId, path: Path, kind: TaskType, hash: Hash, size: int,
                       timestamp: int, peer: PeerId, mode: nat, retries: nat)

  /** Higher priority: smaller, then older. */
  predicate Before(a: Task, b: Task)
  {
    a.size < b.size || (a.size == b.size && a.timestamp < b.timestamp)
  }

  ghost predicate Sorted(s: seq<Task>)
  {
    forall i, j | 0 <= i < j < |s| :: !Before(s[j], s[i])
  }

  /** Two tasks the queue regards as duplicates. */
  predicate SameWork(a: Task, b: Task)
  {
    a.path == b.path && a.kind == b.kind && a.hash == b.hash
  }

  ghost predicate Distinct(s: seq<Task>)
  {
    forall i, j | 0 <= i < j < |s| :: !SameWork(s[i], s[j])
  }

  // ----- The queue as a value, and its events -----

  datatype Queue = Queue(queues: map<RepoId, seq<Task>>, repos: seq<RepoId>, next: nat)
  {
    function Tasks(r: RepoId): seq<Task> { if r in queues then queues[r] else [] }

    /** The `i`-th repository of a round that starts at `next`. */
    function Slot(i: nat): nat
      requires repos != []
      ensures Slot(i) < |repos|
    {
      (next + i) % |repos|
    }

    ghost predicate Has(t: Task) { exists x | x in Tasks(t.repo) :: SameWork(x, t) }
  }

  const Empty := Queue(map[], [], 0)

  datatype Event =
    | Pushed(task: Task, accepted: bool)
    | Popped(result: Option<Task>)
    | Requeued(task: Task)
    | Removed(repo: RepoId)

  ghost predicate PopsAt(q: Queue, i: nat, t: Task, q': Queue)
  {
    && i < |q.repos|
    && (forall j: nat | j < i :: q.Tasks(q.repos[q.Slot(j)]) == [])
    && var r := q.repos[q.Slot(i)];
       && q.Tasks(r) != []
       && t == q.Tasks(r)[0]
       && q' == Queue(q.queues[r := q.Tasks(r)[1..]], q.repos, (q.Slot(i) + 1) % |q.repos|)
  }

  function WithoutFirst(repos: seq<RepoId>, r: RepoId): seq<RepoId>
  {
    if repos == [] then []
    else if repos[0] == r then repos[1..]
    else [repos[0]] + WithoutFirst(repos[1..], r)
  }

  lemma {:induction false} WithoutFirstAt(repos: seq<RepoId>, r: RepoId, i: nat)
    requires i <= |repos| && r !in repos[..i] && (i < |repos| ==> repos[i] == r)
    ensures WithoutFirst(repos, r) == if i < |repos| then repos[..i] + repos[i + 1..] else repos
  {
    if repos == [] {
    } else if i == 0 {
      assert repos[..i] + repos[i + 1..] == repos[1..];
    } else {
      var rest := repos[1..];
      assert repos[..i] == [repos[0]] + rest[..i - 1];
      assert repos[0] in repos[..i] && r !in rest[..i - 1];
      WithoutFirstAt(rest, r, i - 1);
      if i < |repos| {
        assert repos[i + 1..] == rest[i..];
        assert repos[..i] + repos[i + 1..] == [repos[0]] + (rest[..i - 1] + rest[i..]);
      } else {
        assert repos == [repos[0]] + rest;
      }
    }
  }

  /** What one call does.  Sorting is not stable, so a push allows any sorted arrangement. */
  ghost predicate Next(q: Queue, e: Event, q': Queue)
  {
    match e
    case Pushed(t, accepted) =>
      && accepted == !q.Has(t)
      && (if t.repo !in q.queues then
            q' == Queue(q.queues[t.repo := [t]], q.repos + [t.repo], q.next)
          else if !accepted then
            q' == q
          else
            && t.repo in q'.queues
            && q' == Queue(q.queues[t.repo := q'.queues[t.repo]], q.repos, q.next)
            && Sorted(q'.queues[t.repo])
            && multiset(q'.queues[t.repo]) == multiset(q.queues[t.repo]) + multiset{t})
    case Popped(None) =>
      q' == q && forall r | r in q.repos :: q.Tasks(r) == []
    case Popped(Some(t)) =>
      exists i: nat :: PopsAt(q, i, t, q')
    case Requeued(t) =>
      q' == Queue(q.queues[t.repo := [t] + q.Tasks(t.repo)], q.repos, q.next)
    case Removed(r) =>
      && q'.queues == q.queues - {r}
      && q'.repos == WithoutFirst(q.repos, r)
      && q'.next == if q'.repos != [] && q.next >= |q'.repos| then 0 else q.next
  }

  ghost predicate QueueRun(q: Queue, events: seq<Event>, q': Queue)
  {
    if events == [] then q' == q
    else
      var last := |events| - 1;
      exists m :: QueueRun(q, events[..last], m) && Next(m, events[last], q')
  }

  // ----- The implementation -----

  function Insert(s: seq<Task>, t: Task): seq<Task>
  {
    if s == [] then [t]
    else if Before(s[0], t) then [s[0]] + Insert(s[1..], t)
    else [t] + s
  }

  lemma {:induction false} InsertAdds(s: seq<Task>, t: Task)
    ensures multiset(Insert(s, t)) == multiset(s) + multiset{t}
    ensures forall x :: x in Insert(s, t) <==> x == t || x in s
  {
    if s != [] && Before(s[0], t) {
      InsertAdds(s[1..], t);
      assert s == [s[0]] + s[1..];
    }
  }

  lemma SortedCons(t: Task, s: seq<Task>)
    requires Sorted(s) && forall x | x in s :: !Before(x, t)
    ensures Sorted([t] + s)
  {
  }

  lemma {:induction false} InsertKeepsSorted(s: seq<Task>, t: Task)
    requires Sorted(s)
    ensures Sorted(Insert(s, t))
  {
    if s != [] {
      forall x | x in s ensures !Before(x, s[0]) {
        var k :| 0 <= k < |s| && s[k] == x;
      }
      if Before(s[0], t) {
        InsertKeepsSorted(s[1..], t);
        InsertAdds(s[1..], t);
        SortedCons(s[0], Insert(s[1..], t));
      } else {
        SortedCons(t, s);
      }
    }
  }

  /** Stands for the library sort, of which only this contract is used. */
  function SortTasks(s: seq<Task>): (r: seq<Task>)
    ensures Sorted(r) && multiset(r) == multiset(s)
  {
    if s == [] then [] else
      var rest := SortTasks(s[1..]);
      InsertAdds(rest, s[0]);
      InsertKeepsSorted(rest, s[0]);
      assert s == [s[0]] + s[1..];
      Insert(rest, s[0])
  }

  /** Total number of tasks, counted repository by repository. */
  ghost function Total(m: map<RepoId, seq<Task>>): nat
  {
    if m == map[] then 0
    else var r :| r in m; |m[r]| + Total(m - {r})
  }

  lemma {:induction false} TotalWithout(m: map<RepoId, seq<Task>>, r: RepoId)
    requires r in m
    ensures Total(m) == |m[r]| + Total(m - {r})
  {
    var k :| k in m && Total(m) == |m[k]| + Total(m - {k});
    if k != r {
      TotalWithout(m - {k}, r);
      TotalWithout(m - {r}, k);
      assert m - {k} - {r} == m - {r} - {k};
    }
  }

  lemma {:induction false} TotalIsZeroIff(m: map<RepoId, seq<Task>>)
    ensures Total(m) == 0 <==> forall r | r in m :: m[r] == []
  {
    if r :| r in m {
      TotalWithout(m, r);
      TotalIsZeroIff(m - {r});
      assert forall k | k in m :: k == r || (k in m - {r} && (m - {r})[k] == m[k]);
    }
  }

  class SyncQueue {
    var queues: map<RepoId, seq<Task>>
    var repos: seq<RepoId>
    var next: nat

    constructor ()
      ensures View() == Empty
    {
      queues, repos, next := map[], [], 0;
    }

    ghost function View(): Queue
      reads this
    {
      Queue(queues, repos, next)
    }

    method Push(task: Task)
      modifies this
      ensures Next(old(View()), Pushed(task, !old(View()).Has(task)), View())
    {
      if task.repo !in queues {
        queues := queues[task.repo := [task]];
        repos := repos + [task.repo];
      } else {
        var tasks := queues[task.repo];
        for i := 0 to |tasks|
          invariant forall k | 0 <= k < i :: !SameWork(tasks[k], task)
        {
          if SameWork(tasks[i], task) {
            return;
          }
        }
        assert !old(View()).Has(task);
        queues := queues[task.repo := SortTasks(tasks + [task])];
      }
    }

    method Pop() returns (task: Option<Task>)
      modifies this
      ensures Next(old(View()), Popped(task), View())
    {
      ghost var q := View();
      var n := |repos|;
      if n == 0 {
        return None;
      }
      for i := 0 to n
        invariant View() == q
        invariant forall j: nat | j < i :: q.Tasks(repos[q.Slot(j)]) == []
      {
        var idx := (next + i) % n;
        var repo := repos[idx];
        var tasks := if repo in queues then queues[repo] else [];
        if |tasks| > 0 {
          queues := queues[repo := tasks[1..]];
          next := (idx + 1) % n;
          assert PopsAt(q, i, tasks[0], View());
          return Some(tasks[0]);
        }
      }
      forall r | r in repos ensures q.Tasks(r) == [] {
        var k :| 0 <= k < n && repos[k] == r;
        var j := EverySlotIsVisited(q, k);
      }
      return None;
    }

    method Requeue(task: Task)
      modifies this
      ensures Next(old(View()), Requeued(task), View())
    {
      var tasks := if task.repo in queues then queues[task.repo] else [];
      queues := queues[task.repo := [task] + tasks];
    }

    method HasPending(repo: RepoId, path: Path, hash: Hash) returns (found: bool)
      ensures found <==> exists t | t in View().Tasks(repo) ::
                           t.path == path && t.kind == Download && t.hash == hash
    {
      if repo !in queues {
        return false;
      }
      var tasks := queues[repo];
      for i := 0 to |tasks|
        invariant forall k | 0 <= k < i ::
                    !(tasks[k].path == path && tasks[k].kind == Download && tasks[k].hash == hash)
      {
        if tasks[i].path == path && tasks[i].kind == Download && tasks[i].hash == hash {
          return true;
        }
      }
      return false;
    }

    method RemoveRepository(repo: RepoId)
      modifies this
      ensures Next(old(View()), Removed(repo), View())
    {
      queues := queues - {repo};
      ghost var found := |repos|;
      for i := 0 to |repos|
        invariant repos == old(repos) && queues == old(queues) - {repo} && next == old(next)
        invariant repo !in repos[..i] && found == |repos|
      {
        if repos[i] == repo {
          found := i;
          repos := repos[..i] + repos[i + 1..];
          break;
        }
      }
      WithoutFirstAt(old(repos), repo, found);
      if |repos| > 0 && next >= |repos| {
        next := 0;
      }
    }

    method Size() returns (total: nat)
      ensures total == Total(queues)
    {
      total := 0;
      var rest := queues;
      while rest != map[]
        invariant total + Total(rest) == Total(queues)
        decreases rest.Keys
      {
        var r :| r in rest;
        TotalWithout(rest, r);
        total := total + |rest[r]|;
        rest := rest - {r};
      }
    }
  }

  lemma EverySlotIsVisited(q: Queue, k: nat) returns (j: nat)
    requires k < |q.repos|
    ensures j < |q.repos| && q.Slot(j) == k
  {
    var n := |q.repos|;
    var start := q.next % n;
    j := if k >= start then k - start else k + n - start;
    assert q.next == n * (q.next / n) + start;
    SlotFrom(q.next / n, start, j, n);
    assert q.next + j == n * (q.next / n) + (start + j);
  }

  lemma SlotFrom(laps: nat, start: nat, j: nat, n: nat)
    requires start < n && j < n
    ensures (n * laps + (start + j)) % n == if start + j < n then start + j else start + j - n
  {
    var x := if start + j < n then start + j else start + j - n;
    var l := if start + j < n then laps else laps + 1;
    assert n * (laps + 1) == n * laps + n;
    RemainderIsUnique(l, x, n);
  }
}
