/** What every run of the sync queue keeps: no stranded task, fairness between
    repositories, priority order and conservation of tasks. */
module QueueRuns {
  import opened Base
  import opened TaskQueue

  // ----- Well-formedness and stranding -----

  ghost predicate Serves(e: Event, r: RepoId)
  {
    e.Popped? && e.result.Some? && e.result.value.repo == r
  }

  ghost predicate NoRepeats(repos: seq<RepoId>)
  {
    forall i, j | 0 <= i < j < |repos| :: repos[i] != repos[j]
  }

  ghost predicate WellFormed(q: Queue)
  {
    && NoRepeats(q.repos)
    && (forall r :: r in q.repos <==> r in q.queues)
    && (if q.repos == [] then q.next == 0 else q.next < |q.repos|)
    && (forall r | r in q.queues :: forall t | t in q.queues[r] :: t.repo == r)
  }

  /** The one call the dispatcher must not make: requeueing into a repository that is gone. */
  ghost predicate Strands(q: Queue, e: Event)
  {
    e.Requeued? && e.task.repo !in q.queues
  }

  lemma NoRepeatsCons(x: RepoId, s: seq<RepoId>)
    requires NoRepeats(s) && x !in s
    ensures NoRepeats([x] + s)
  {
  }

  lemma {:induction false} RemovalShape(repos: seq<RepoId>, r: RepoId)
    requires NoRepeats(repos)
    ensures NoRepeats(WithoutFirst(repos, r))
    ensures forall x :: x in WithoutFirst(repos, r) <==> x in repos && x != r
    ensures |repos| - 1 <= |WithoutFirst(repos, r)| <= |repos|
  {
    if repos != [] {
      assert repos == [repos[0]] + repos[1..];
      assert repos[0] !in repos[1..];
      if repos[0] != r {
        RemovalShape(repos[1..], r);
        NoRepeatsCons(repos[0], WithoutFirst(repos[1..], r));
      }
    }
  }

  lemma PushKeepsWellFormed(q: Queue, t: Task, accepted: bool, q': Queue)
    requires WellFormed(q) && Next(q, Pushed(t, accepted), q')
    ensures WellFormed(q')
  {
    if t.repo in q.queues && accepted {
      forall x | x in q'.queues[t.repo] ensures x.repo == t.repo {
        assert x in multiset(q'.queues[t.repo]);
        assert x == t || x in multiset(q.queues[t.repo]);
      }
    }
  }

  lemma PopKeepsWellFormed(q: Queue, t: Task, q': Queue)
    requires WellFormed(q) && Next(q, Popped(Some(t)), q')
    ensures WellFormed(q')
  {
    var i: nat :| PopsAt(q, i, t, q');
  }

  /** Calls keep the queue well formed, with exactly one exception. */
  lemma WellFormedIff(q: Queue, e: Event, q': Queue)
    requires WellFormed(q) && Next(q, e, q')
    ensures WellFormed(q') <==> !Strands(q, e)
  {
    match e {
      case Pushed(t, accepted) => PushKeepsWellFormed(q, t, accepted, q');
      case Popped(None) =>
      case Popped(Some(t)) => PopKeepsWellFormed(q, t, q');
      case Requeued(t) =>
        assert t.repo !in q.queues ==> t.repo in q'.queues && t.repo !in q'.repos;
      case Removed(r) => RemovalShape(q.repos, r);
    }
  }

  /** Every task is filed under its own repository, listed or not ... */
  ghost predicate Filed(q: Queue)
  {
    forall r | r in q.queues :: forall t | t in q.queues[r] :: t.repo == r
  }

  /** ... whatever is called. */
  lemma NextKeepsFiled(q: Queue, e: Event, q': Queue)
    requires Filed(q) && Next(q, e, q')
    ensures Filed(q')
  {
    match e {
      case Pushed(t, accepted) =>
        if t.repo in q.queues && accepted {
          forall x | x in q'.queues[t.repo] ensures x.repo == t.repo {
            assert x in multiset(q'.queues[t.repo]);
            assert x == t || x in multiset(q.queues[t.repo]);
          }
        }
      case Popped(Some(t)) =>
        var i: nat :| PopsAt(q, i, t, q');
      case _ =>
    }
  }

  /** Pop comes back empty-handed exactly when no listed repository has a task ... */
  lemma PopIsNoneIff(q: Queue, result: Option<Task>, q': Queue)
    requires Next(q, Popped(result), q')
    ensures result == None <==> forall r | r in q.repos :: q.Tasks(r) == []
  {
  }

  /** ... which, for a well-formed queue, is when its size is 0. */
  lemma PopIsNoneWhenEmpty(q: Queue, result: Option<Task>, q': Queue)
    requires WellFormed(q) && Next(q, Popped(result), q')
    ensures result == None <==> Total(q.queues) == 0
  {
    TotalIsZeroIff(q.queues);
    PopIsNoneIff(q, result, q');
    assert forall r | r in q.queues :: q.Tasks(r) == q.queues[r];
  }

  /** A run in which no requeue strands its task. */
  ghost predicate DisciplinedRun(q: Queue, events: seq<Event>, q': Queue)
  {
    if events == [] then q' == q
    else
      var last := |events| - 1;
      exists m :: DisciplinedRun(q, events[..last], m) && Next(m, events[last], q') && !Strands(m, events[last])
  }

  lemma {:induction false} DisciplinedRunStaysWellFormed(q: Queue, events: seq<Event>, q': Queue)
    requires WellFormed(q) && DisciplinedRun(q, events, q')
    ensures WellFormed(q')
  {
    if events != [] {
      var last := |events| - 1;
      var m :| DisciplinedRun(q, events[..last], m) && Next(m, events[last], q') && !Strands(m, events[last]);
      DisciplinedRunStaysWellFormed(q, events[..last], m);
      WellFormedIff(m, events[last], q');
    }
  }

  ghost predicate Tagged(q: Queue)
  {
    forall r | r in q.repos :: forall t | t in q.Tasks(r) :: t.repo == r
  }

  ghost predicate Stranded(q: Queue, r: RepoId)
  {
    r in q.queues && r !in q.repos
  }

  /** The exception is permanent: until the repository is removed again, no pop serves it,
      whatever else is pushed, popped or requeued. */
  lemma {:induction false} StrandedForever(q: Queue, events: seq<Event>, q': Queue, r: RepoId)
    requires Stranded(q, r) && QueueRun(q, events, q')
    requires Removed(r) !in events
    requires Tagged(q)
    ensures Stranded(q', r)
    ensures Tagged(q')
    ensures forall e | e in events :: !Serves(e, r)
  {
    if events != [] {
      var last := |events| - 1;
      var m :| QueueRun(q, events[..last], m) && Next(m, events[last], q');
      StrandedForever(q, events[..last], m, r);
      assert events[last] in events;
      StrandedStep(m, events[last], q', r);
      assert events == events[..last] + [events[last]];
    }
  }

  lemma {:induction false} RemovalIsSubset(repos: seq<RepoId>, r: RepoId)
    ensures forall x | x in WithoutFirst(repos, r) :: x in repos
  {
    if repos != [] && repos[0] != r {
      RemovalIsSubset(repos[1..], r);
    }
  }

  lemma StrandedPush(q: Queue, t: Task, accepted: bool, q': Queue, r: RepoId)
    requires Stranded(q, r) && Tagged(q) && Next(q, Pushed(t, accepted), q')
    ensures Stranded(q', r) && Tagged(q')
  {
    forall x, y | x in q'.repos && y in q'.Tasks(x) ensures y.repo == x {
      if x == t.repo && t.repo in q.queues && accepted {
        assert y in multiset(q'.queues[x]);
        assert y == t || y in multiset(q.queues[x]);
      }
    }
  }

  lemma StrandedPop(q: Queue, t: Task, q': Queue, r: RepoId)
    requires Stranded(q, r) && Tagged(q) && Next(q, Popped(Some(t)), q')
    ensures Stranded(q', r) && Tagged(q') && t.repo != r
  {
    var i: nat :| PopsAt(q, i, t, q');
    var x := q.repos[q.Slot(i)];
    assert x in q.repos && t in q.Tasks(x);
  }

  lemma StrandedStep(q: Queue, e: Event, q': Queue, r: RepoId)
    requires Stranded(q, r) && Next(q, e, q') && e != Removed(r)
    requires Tagged(q)
    ensures Stranded(q', r)
    ensures Tagged(q')
    ensures !Serves(e, r)
  {
    match e {
      case Pushed(t, accepted) => StrandedPush(q, t, accepted, q', r);
      case Popped(None) =>
      case Popped(Some(t)) => StrandedPop(q, t, q', r);
      case Requeued(t) =>
      case Removed(x) => RemovalIsSubset(q.repos, x);
    }
  }

  /** Such a state is reachable: the repository goes away between a pop and its requeue. */
  lemma RemovalBeforeRequeueStrands(t: Task)
    ensures var q1 := Queue(map[t.repo := [t]], [t.repo], 0);
            var q2 := Queue(map[t.repo := []], [t.repo], 0);
            var q3 := Queue(map[], [], 0);
            var q4 := Queue(map[t.repo := [t]], [], 0);
            && Next(Empty, Pushed(t, true), q1) && Next(q1, Popped(Some(t)), q2)
            && Next(q2, Removed(t.repo), q3) && Next(q3, Requeued(t), q4)
            && Stranded(q4, t.repo) && Next(q4, Popped(None), q4) && Total(q4.queues) == 1
  {
    var q1 := Queue(map[t.repo := [t]], [t.repo], 0);
    var q2 := Queue(map[t.repo := []], [t.repo], 0);
    var q4 := Queue(map[t.repo := [t]], [], 0);
    assert [t] + [] == [t];
    assert q1.Slot(0) == 0 && [t][1..] == [];
    assert q1.queues[t.repo := []] == q2.queues;
    assert PopsAt(q1, 0, t, q2);
    assert q2.queues - {t.repo} == map[];
    TotalWithout(q4.queues, t.repo);
    assert q4.queues - {t.repo} == map[];
  }

  // ----- Round-robin fairness -----

  function IndexOf(repos: seq<RepoId>, r: RepoId): (i: nat)
    requires r in repos
    ensures i < |repos| && repos[i] == r && r !in repos[..i]
  {
    if repos[0] == r then 0 else
      assert repos == [repos[0]] + repos[1..];
      1 + IndexOf(repos[1..], r)
  }

  /** How many repositories the round visits before `r`. */
  function Distance(q: Queue, r: RepoId): int
    requires r in q.repos
  {
    var i := IndexOf(q.repos, r);
    if i >= q.next then i - q.next else i + |q.repos| - q.next
  }

  lemma SlotInRound(q: Queue, i: nat)
    requires q.repos != [] && q.next < |q.repos| && i < |q.repos|
    ensures q.Slot(i) == if q.next + i < |q.repos| then q.next + i else q.next + i - |q.repos|
  {
    SlotFrom(0, q.next, i, |q.repos|);
  }

  lemma DistanceSlot(q: Queue, r: RepoId)
    requires WellFormed(q) && r in q.repos
    ensures 0 <= Distance(q, r) < |q.repos| && q.Slot(Distance(q, r)) == IndexOf(q.repos, r)
  {
    SlotInRound(q, Distance(q, r));
  }

  lemma RoundAdvances(q: Queue, i: nat, d: nat)
    requires q.repos != [] && q.next < |q.repos| && i < d < |q.repos|
    ensures var next' := (q.Slot(i) + 1) % |q.repos|;
            (if q.Slot(d) >= next' then q.Slot(d) - next' else q.Slot(d) + |q.repos| - next') == d - i - 1
  {
    SlotInRound(q, i);
    SlotInRound(q, d);
    SlotFrom(0, q.Slot(i), 1, |q.repos|);
  }

  lemma PassedOver(q: Queue, i: nat, t: Task, q': Queue, r: RepoId)
    requires WellFormed(q) && r in q.repos && q.Tasks(r) != [] && PopsAt(q, i, t, q') && t.repo != r
    ensures q'.repos == q.repos && q'.Tasks(r) == q.Tasks(r) && Distance(q', r) < Distance(q, r)
  {
    var d := Distance(q, r);
    DistanceSlot(q, r);
    assert q.repos[q.Slot(d)] == r && t in q.Tasks(q.repos[q.Slot(i)]) && q.repos[q.Slot(i)] != r;
    assert i < d;
    RoundAdvances(q, i, d);
  }

  /** A pop that passes `r` over brings `r` strictly closer. */
  lemma PopApproaches(q: Queue, result: Option<Task>, q': Queue, r: RepoId)
    requires WellFormed(q) && r in q.repos && q.Tasks(r) != [] && Next(q, Popped(result), q')
    ensures result.Some?
    ensures result.value.repo != r ==>
              q'.repos == q.repos && q'.Tasks(r) == q.Tasks(r) && Distance(q', r) < Distance(q, r)
  {
    if result.Some? && result.value.repo != r {
      var i: nat :| PopsAt(q, i, result.value, q');
      PassedOver(q, i, result.value, q', r);
    }
  }

  function PopCount(events: seq<Event>): nat
  {
    if events == [] then 0
    else PopCount(events[..|events| - 1]) + if events[|events| - 1].Popped? then 1 else 0
  }

  lemma {:induction false} IndexIsStable(repos: seq<RepoId>, x: RepoId, r: RepoId)
    requires r in repos
    ensures r in repos + [x] && IndexOf(repos + [x], r) == IndexOf(repos, r)
  {
    assert repos[IndexOf(repos, r)] == (repos + [x])[IndexOf(repos, r)];
    if repos[0] != r {
      assert repos == [repos[0]] + repos[1..];
      assert (repos + [x])[1..] == repos[1..] + [x];
      IndexIsStable(repos[1..], x, r);
    }
  }

  lemma FairnessStep(q: Queue, e: Event, q': Queue, r: RepoId)
    requires WellFormed(q) && Next(q, e, q') && !Strands(q, e) && !e.Removed?
    requires r in q.repos && q.Tasks(r) != [] && !Serves(e, r)
    ensures WellFormed(q') && r in q'.repos && q'.Tasks(r) != []
    ensures Distance(q', r) + (if e.Popped? then 1 else 0)
            <= Distance(q, r) + (|q'.repos| - |q.repos|)
  {
    WellFormedIff(q, e, q');
    match e {
      case Pushed(t, accepted) =>
        if t.repo !in q.queues {
          IndexIsStable(q.repos, t.repo, r);
        } else if accepted && t.repo == r {
          assert t in multiset(q'.queues[r]);
        }
      case Popped(result) =>
        PopApproaches(q, result, q', r);
      case Requeued(t) =>
    }
  }

  /** While nothing is removed, a repository with a pending task is served within as many
      pops as there are repositories, counting those registered meanwhile. */
  lemma ServedWithinARound(q: Queue, events: seq<Event>, q': Queue, r: RepoId)
    requires WellFormed(q) && DisciplinedRun(q, events, q')
    requires forall e | e in events :: !e.Removed?
    requires r in q.repos && q.Tasks(r) != []
    requires PopCount(events) >= |q'.repos|
    ensures exists e | e in events :: Serves(e, r)
  {
    if forall e | e in events :: !Serves(e, r) {
      DistanceSlot(q, r);
      UnservedMeansFewPops(q, events, q', r);
      DistanceSlot(q', r);
    }
  }

  lemma {:induction false} UnservedMeansFewPops(q: Queue, events: seq<Event>, q': Queue, r: RepoId)
    requires WellFormed(q) && DisciplinedRun(q, events, q')
    requires r in q.repos && q.Tasks(r) != []
    requires forall e | e in events :: !e.Removed? && !Serves(e, r)
    ensures WellFormed(q') && r in q'.repos && q'.Tasks(r) != []
    ensures PopCount(events) + Distance(q', r) <= Distance(q, r) + (|q'.repos| - |q.repos|)
  {
    if events != [] {
      var last := |events| - 1;
      var m :| DisciplinedRun(q, events[..last], m) && Next(m, events[last], q') && !Strands(m, events[last]);
      UnservedMeansFewPops(q, events[..last], m, r);
      assert events[last] in events;
      FairnessStep(m, events[last], q', r);
    }
  }

  // ----- Priority order, de-duplication, conservation -----

  ghost function Entering(e: Event, r: RepoId): multiset<Task>
  {
    if (e.Requeued? || (e.Pushed? && e.accepted)) && e.task.repo == r then multiset{e.task} else multiset{}
  }

  ghost function Leaving(e: Event, r: RepoId): seq<Task>
  {
    if Serves(e, r) then [e.result.value] else []
  }

  /** Tasks that entered the queue of `r`. */
  ghost function Entered(events: seq<Event>, r: RepoId): multiset<Task>
  {
    if events == [] then multiset{}
    else Entered(events[..|events| - 1], r) + Entering(events[|events| - 1], r)
  }

  /** Tasks that pops took from `r`, in the order they were taken. */
  ghost function TakenFrom(events: seq<Event>, r: RepoId): seq<Task>
  {
    if events == [] then []
    else TakenFrom(events[..|events| - 1], r) + Leaving(events[|events| - 1], r)
  }

  lemma PopConserves(q: Queue, t: Task, q': Queue, r: RepoId)
    requires WellFormed(q) && Next(q, Popped(Some(t)), q')
    ensures (if t.repo == r then [t] else []) + q'.Tasks(r) == q.Tasks(r)
  {
    var i: nat :| PopsAt(q, i, t, q');
    var x := q.repos[q.Slot(i)];
    assert q.Tasks(x) == [t] + q.Tasks(x)[1..];
    assert t in q.Tasks(x) && t.repo == x;
  }

  lemma StepKeepsQueueOrder(q: Queue, e: Event, q': Queue, r: RepoId)
    requires WellFormed(q) && Next(q, e, q') && e != Removed(r)
    requires Entering(e, r) == multiset{}
    ensures Leaving(e, r) + q'.Tasks(r) == q.Tasks(r)
  {
    if e.Popped? && e.result.Some? {
      PopConserves(q, e.result.value, q', r);
    } else if e.Pushed? || e.Requeued? {
      assert e.task in multiset{e.task};
    }
  }

  lemma StepConserves(q: Queue, e: Event, q': Queue, r: RepoId)
    requires WellFormed(q) && Next(q, e, q') && e != Removed(r)
    ensures multiset(q'.Tasks(r)) + multiset(Leaving(e, r)) == multiset(q.Tasks(r)) + Entering(e, r)
  {
    if Entering(e, r) == multiset{} {
      StepKeepsQueueOrder(q, e, q', r);
      assert multiset(Leaving(e, r) + q'.Tasks(r)) == multiset(q.Tasks(r));
    } else if e.Pushed? && r !in q.queues {
      assert q'.Tasks(r) == [e.task] && q.Tasks(r) == [];
    } else if e.Requeued? {
      assert q'.Tasks(r) == [e.task] + q.Tasks(r);
    }
  }

  lemma LastStep(q: Queue, events: seq<Event>, q': Queue) returns (m: Queue)
    requires WellFormed(q) && DisciplinedRun(q, events, q') && events != []
    ensures WellFormed(m) && DisciplinedRun(q, events[..|events| - 1], m)
    ensures Next(m, events[|events| - 1], q')
  {
    var last := |events| - 1;
    m :| DisciplinedRun(q, events[..last], m) && Next(m, events[last], q') && !Strands(m, events[last]);
    DisciplinedRunStaysWellFormed(q, events[..last], m);
  }

  lemma Chain(now: multiset<Task>, left: multiset<Task>, mid: multiset<Task>, came: multiset<Task>,
              taken: multiset<Task>, start: multiset<Task>, entered: multiset<Task>)
    requires now + left == mid + came && mid + taken == start + entered
    ensures now + (taken + left) == start + (entered + came)
  {
    assert now + (taken + left) == (now + left) + taken;
    assert (mid + came) + taken == (mid + taken) + came;
  }

  /** No task is lost or invented: taken plus remaining equals initial plus entered. */
  lemma {:induction false} TasksAreConserved(q: Queue, events: seq<Event>, q': Queue, r: RepoId)
    requires WellFormed(q) && DisciplinedRun(q, events, q')
    requires Removed(r) !in events
    ensures multiset(q'.Tasks(r)) + multiset(TakenFrom(events, r)) == multiset(q.Tasks(r)) + Entered(events, r)
  {
    if events != [] {
      var m := LastStep(q, events, q');
      var init, e := events[..|events| - 1], events[|events| - 1];
      assert Removed(r) !in init && e != Removed(r);
      TasksAreConserved(q, init, m, r);
      StepConserves(m, e, q', r);
      assert multiset(TakenFrom(events, r)) == multiset(TakenFrom(init, r)) + multiset(Leaving(e, r));
      Chain(multiset(q'.Tasks(r)), multiset(Leaving(e, r)), multiset(m.Tasks(r)), Entering(e, r),
            multiset(TakenFrom(init, r)), multiset(q.Tasks(r)), Entered(init, r));
    }
  }

  ghost predicate Ordered(q: Queue)
  {
    forall r :: Sorted(q.Tasks(r)) && Distinct(q.Tasks(r))
  }

  lemma DistinctIsUpToOrder(s: seq<Task>, t: Task, s': seq<Task>)
    requires Distinct(s) && forall x | x in s :: !SameWork(x, t)
    requires multiset(s') == multiset(s) + multiset{t}
    ensures Distinct(s')
  {
    var w := s + [t];
    assert multiset(w) == multiset(s');
    forall i, j | 0 <= i < j < |s'| ensures !SameWork(s'[i], s'[j]) {
      if SameWork(s'[i], s'[j]) {
        assert s'[i] in multiset(s') && s'[j] in multiset(s');
        assert s'[i] in w && s'[j] in w;
        var a :| 0 <= a < |w| && w[a] == s'[i];
        var b :| 0 <= b < |w| && w[b] == s'[j];
        assert a == b;
        TwiceInMultiset(s', i, j);
        OnceInMultiset(w, a);
      }
    }
  }

  lemma TwiceInMultiset(s: seq<Task>, i: nat, j: nat)
    requires i < j < |s| && s[i] == s[j]
    ensures multiset(s)[s[i]] >= 2
  {
    assert s == s[..j] + [s[j]] + s[j + 1..];
    assert s[..j][i] == s[i] && s[i] in s[..j];
  }

  lemma OnceInMultiset(s: seq<Task>, a: nat)
    requires a < |s| && Distinct(s)
    ensures multiset(s)[s[a]] == 1
  {
    assert s == s[..a] + [s[a]] + s[a + 1..];
    assert s[a] !in s[..a] && s[a] !in s[a + 1..];
  }

  /** Pushes and pops keep every repository sorted and free of duplicate work. */
  lemma {:induction false} RunStaysOrdered(q: Queue, events: seq<Event>, q': Queue)
    requires Ordered(q) && QueueRun(q, events, q')
    requires forall e | e in events :: e.Pushed? || e.Popped?
    ensures Ordered(q')
  {
    if events != [] {
      var last := |events| - 1;
      var m :| QueueRun(q, events[..last], m) && Next(m, events[last], q');
      RunStaysOrdered(q, events[..last], m);
      assert events[last] in events;
      OrderedStep(m, events[last], q');
    }
  }

  lemma OrderedStep(q: Queue, e: Event, q': Queue)
    requires Ordered(q) && Next(q, e, q') && (e.Pushed? || e.Popped?)
    ensures Ordered(q')
  {
    forall r ensures Sorted(q'.Tasks(r)) && Distinct(q'.Tasks(r)) {
      assert Sorted(q.Tasks(r)) && Distinct(q.Tasks(r));
      if e.Pushed? && e.accepted && e.task.repo == r && r in q.queues {
        DistinctIsUpToOrder(q.Tasks(r), e.task, q'.Tasks(r));
      } else if e.Popped? && e.result.Some? {
        var i: nat :| PopsAt(q, i, e.result.value, q');
      }
    }
  }

  lemma EmptySum(a: multiset<Task>, b: multiset<Task>)
    requires a + b == multiset{}
    ensures a == multiset{} && b == multiset{}
  {
    assert a <= a + b && b <= a + b;
  }

  lemma Regroup(a: seq<Task>, b: seq<Task>, c: seq<Task>)
    ensures (a + b) + c == a + (b + c)
  {
  }

  /** While nothing enters `r`, pops take its queue front to back. */
  lemma {:induction false} TakenInQueueOrder(q: Queue, events: seq<Event>, q': Queue, r: RepoId)
    requires WellFormed(q) && DisciplinedRun(q, events, q')
    requires Entered(events, r) == multiset{} && Removed(r) !in events
    ensures TakenFrom(events, r) + q'.Tasks(r) == q.Tasks(r)
  {
    if events != [] {
      var m := LastStep(q, events, q');
      var init, e := events[..|events| - 1], events[|events| - 1];
      assert Removed(r) !in init && e != Removed(r);
      EmptySum(Entered(init, r), Entering(e, r));
      TakenInQueueOrder(q, init, m, r);
      StepKeepsQueueOrder(m, e, q', r);
      Regroup(TakenFrom(init, r), Leaving(e, r), q'.Tasks(r));
    }
  }

  lemma SortedPrefix(a: seq<Task>, b: seq<Task>)
    requires Sorted(a + b)
    ensures Sorted(a) && forall t, u | t in a && u in b :: !Before(u, t)
  {
    var s := a + b;
    forall i, j | 0 <= i < j < |a| ensures !Before(a[j], a[i]) {
      assert a[i] == s[i] && a[j] == s[j];
    }
    forall t, u | t in a && u in b ensures !Before(u, t) {
      var i :| 0 <= i < |a| && a[i] == t;
      var j :| 0 <= j < |b| && b[j] == u;
      assert s[i] == t && s[|a| + j] == u;
    }
  }

  /** Smaller, or as small and not younger. */
  lemma NotBeforeIff(t: Task, u: Task)
    ensures !Before(u, t) <==> t.size < u.size || (t.size == u.size && t.timestamp <= u.timestamp)
  {
  }

  /** Smallest first, and the oldest first among equals. */
  ghost predicate SmallestFirst(s: seq<Task>)
  {
    forall i, j | 0 <= i < j < |s| ::
      s[i].size < s[j].size || (s[i].size == s[j].size && s[i].timestamp <= s[j].timestamp)
  }

  /** Nothing in `left` is smaller, or as small and older, than anything in `taken`. */
  ghost predicate NoneLeftComesFirst(taken: seq<Task>, left: seq<Task>)
  {
    forall t, u | t in taken && u in left :: t.size < u.size || (t.size == u.size && t.timestamp <= u.timestamp)
  }

  lemma SortedInFields(taken: seq<Task>, left: seq<Task>)
    requires Sorted(taken + left)
    ensures SmallestFirst(taken) && NoneLeftComesFirst(taken, left)
  {
    SortedPrefix(taken, left);
    forall t, u | t in taken && u in left { NotBeforeIff(t, u); }
  }

  /** So the tasks taken from an ordered repository come out smallest and oldest first. */
  lemma TakenSmallestFirst(q: Queue, events: seq<Event>, q': Queue, r: RepoId)
    requires WellFormed(q) && Ordered(q) && DisciplinedRun(q, events, q')
    requires Entered(events, r) == multiset{} && Removed(r) !in events
    ensures SmallestFirst(TakenFrom(events, r)) && NoneLeftComesFirst(TakenFrom(events, r), q'.Tasks(r))
  {
    TakenInQueueOrder(q, events, q', r);
    assert Sorted(q.Tasks(r));
    SortedInFields(TakenFrom(events, r), q'.Tasks(r));
  }

  /** After any pushes and pops of a new queue, every repository has its tasks smallest and oldest
      first, and no two for the same path, kind and hash. */
  lemma EveryQueueIsOrdered(events: seq<Event>, q: Queue, r: RepoId)
    requires QueueRun(Empty, events, q) && forall e | e in events :: e.Pushed? || e.Popped?
    ensures SmallestFirst(q.Tasks(r))
    ensures forall i, j | 0 <= i < j < |q.Tasks(r)| ::
              var t, u := q.Tasks(r)[i], q.Tasks(r)[j];
              t.path != u.path || t.kind != u.kind || t.hash != u.hash
  {
    RunStaysOrdered(Empty, events, q);
    assert Sorted(q.Tasks(r)) && Distinct(q.Tasks(r));
    assert q.Tasks(r) + [] == q.Tasks(r);
    SortedInFields(q.Tasks(r), []);
  }

  /** A push is dropped exactly when its repository has a task for the same path, kind and hash;
      any other puts the repository in order, whatever it was before. */
  lemma PushEffect(q: Queue, t: Task, accepted: bool, q': Queue)
    requires Next(q, Pushed(t, accepted), q')
    ensures accepted <==> forall x | x in q.Tasks(t.repo) :: x.path != t.path || x.kind != t.kind || x.hash != t.hash
    ensures !accepted ==> q' == q
    ensures accepted ==>
              && multiset(q'.Tasks(t.repo)) == multiset(q.Tasks(t.repo)) + multiset{t}
              && SmallestFirst(q'.Tasks(t.repo))
    ensures forall r | r != t.repo :: q'.Tasks(r) == q.Tasks(r)
    ensures q'.next == q.next && q'.repos == if t.repo in q.queues then q.repos else q.repos + [t.repo]
  {
    assert q.Has(t) <==> exists x | x in q.Tasks(t.repo) :: x.path == t.path && x.kind == t.kind && x.hash == t.hash;
    if accepted {
      assert q'.Tasks(t.repo) + [] == q'.Tasks(t.repo);
      SortedInFields(q'.Tasks(t.repo), []);
    }
    if t.repo !in q.queues {
      assert multiset([t]) == multiset{} + multiset{t};
    }
  }

  /** A task that was put back is the next that its repository gives out. */
  lemma RequeuedComesNext(q: Queue, t: Task, q1: Queue, u: Task, q2: Queue)
    requires Filed(q) && Next(q, Requeued(t), q1) && Next(q1, Popped(Some(u)), q2) && u.repo == t.repo
    ensures u == t && q2.Tasks(t.repo) == q.Tasks(t.repo)
  {
    NextKeepsFiled(q, Requeued(t), q1);
    var i: nat :| PopsAt(q1, i, u, q2);
    var r := q1.repos[q1.Slot(i)];
    assert u in q1.Tasks(r) && r == t.repo;
  }

  /** A removed repository goes from the round, which keeps its order and, where it can, its place. */
  lemma RemovalEffect(q: Queue, r: RepoId, q': Queue)
    requires WellFormed(q) && Next(q, Removed(r), q')
    ensures r !in q'.repos && q'.Tasks(r) == [] && forall x | x != r :: q'.Tasks(x) == q.Tasks(x)
    ensures forall x, y | x in q'.repos && y in q'.repos ::
              x in q.repos && y in q.repos
              && (IndexOf(q'.repos, x) < IndexOf(q'.repos, y) <==> IndexOf(q.repos, x) < IndexOf(q.repos, y))
    ensures q'.next == if q.next < |q'.repos| || q'.repos == [] then q.next else 0
  {
    RemovalShape(q.repos, r);
    forall x, y | x in q'.repos && y in q'.repos
      ensures x in q.repos && y in q.repos
              && (IndexOf(q'.repos, x) < IndexOf(q'.repos, y) <==> IndexOf(q.repos, x) < IndexOf(q.repos, y))
    {
      RemovalKeepsOrder(q.repos, r, x, y);
    }
  }

  lemma {:induction false} RemovalKeepsOrder(repos: seq<RepoId>, r: RepoId, x: RepoId, y: RepoId)
    requires NoRepeats(repos) && x in repos && y in repos && x != r && y != r
    ensures x in WithoutFirst(repos, r) && y in WithoutFirst(repos, r)
    ensures IndexOf(WithoutFirst(repos, r), x) < IndexOf(WithoutFirst(repos, r), y)
            <==> IndexOf(repos, x) < IndexOf(repos, y)
  {
    RemovalShape(repos, r);
    var rest := repos[1..];
    assert repos == [repos[0]] + rest;
    if repos[0] != r {
      var shorter := WithoutFirst(rest, r);
      assert WithoutFirst(repos, r) == [repos[0]] + shorter && ([repos[0]] + shorter)[1..] == shorter;
      if x != repos[0] && y != repos[0] {
        RemovalKeepsOrder(rest, r, x, y);
      }
    }
  }
}
