/** The queue processor: one dispatching loop, one goroutine per running task, and two nested
    semaphores, as an interleaving of atomic steps. */
module Dispatcher {
  import opened Base
  import opened TaskQueue

  /** Where the dispatching loop stands, and the task it holds. */
  datatype Phase =
    | Idle
    | Got(task: Task)
    | AwaitingGlobal(task: Task)
    | AwaitingRepo(task: Task)
    | Stopped

  datatype Caps = Caps(global: nat, repo: nat)

  /** `running` goroutines hold both tokens; `releasing` ones have given back the repository
      token only.  The last four fields record what became of every popped task. */
  datatype State = State(
    phase: Phase, stop: bool, semaphores: set<RepoId>,
    running: seq<Task>, releasing: seq<Task>,
    globalHeld: int, repoHeld: multiset<RepoId>,
    popped: multiset<Task>, executed: multiset<Task>, requeued: multiset<Task>, dropped: multiset<Task>)

  datatype Step =
    | PopTask(task: Task)
    | RequeueWithoutSemaphore
    | FindSemaphore
    | AcquireGlobal
    | AcquireRepoAndSpawn
    | Quit
    | ReleaseRepo(i: nat)
    | ReleaseGlobal(i: nat)
    | SignalStop
    | CreateSemaphore(repo: RepoId)

  function RemoveAt(s: seq<Task>, i: nat): seq<Task>
    requires i < |s|
  {
    s[..i] + s[i + 1..]
  }

  predicate Enabled(c: Caps, d: State, step: Step)
  {
    match step
    case PopTask(t) => d.phase.Idle? && !d.stop
    case RequeueWithoutSemaphore => d.phase.Got? && d.phase.task.repo !in d.semaphores
    case FindSemaphore => d.phase.Got? && d.phase.task.repo in d.semaphores
    case AcquireGlobal => d.phase.AwaitingGlobal? && d.globalHeld < c.global
    case AcquireRepoAndSpawn => d.phase.AwaitingRepo? && d.repoHeld[d.phase.task.repo] < c.repo
    case Quit => d.stop && (d.phase.Idle? || d.phase.AwaitingGlobal? || d.phase.AwaitingRepo?)
    case ReleaseRepo(i) => i < |d.running|
    case ReleaseGlobal(i) => i < |d.releasing|
    case SignalStop => true
    case CreateSemaphore(r) => true
  }

  function Apply(c: Caps, d: State, step: Step): State
    requires Enabled(c, d, step)
  {
    match step
    case PopTask(t) => d.(phase := Got(t), popped := d.popped + multiset{t})
    case RequeueWithoutSemaphore => d.(phase := Idle, requeued := d.requeued + multiset{d.phase.task})
    case FindSemaphore => d.(phase := AwaitingGlobal(d.phase.task))
    case AcquireGlobal => d.(phase := AwaitingRepo(d.phase.task), globalHeld := d.globalHeld + 1)
    case AcquireRepoAndSpawn =>
      d.(phase := Idle, running := d.running + [d.phase.task],
         repoHeld := d.repoHeld + multiset{d.phase.task.repo})
    case Quit =>
      if d.phase.Idle? then d.(phase := Stopped)
      else
        d.(phase := Stopped, dropped := d.dropped + multiset{d.phase.task},
           globalHeld := if d.phase.AwaitingRepo? then d.globalHeld - 1 else d.globalHeld)
    case ReleaseRepo(i) =>
      d.(running := RemoveAt(d.running, i), releasing := d.releasing + [d.running[i]],
         executed := d.executed + multiset{d.running[i]},
         repoHeld := d.repoHeld - multiset{d.running[i].repo})
    case ReleaseGlobal(i) =>
      d.(releasing := RemoveAt(d.releasing, i), globalHeld := d.globalHeld - 1)
    case SignalStop => d.(stop := true)
    case CreateSemaphore(r) => d.(semaphores := d.semaphores + {r})
  }

  const Start := State(Idle, false, {}, [], [], 0, multiset{}, multiset{}, multiset{}, multiset{}, multiset{})

  // ----- What every interleaving keeps -----

  ghost function RepoOf(s: seq<Task>): multiset<RepoId>
  {
    if s == [] then multiset{} else RepoOf(s[..|s| - 1]) + multiset{s[|s| - 1].repo}
  }

  function InDispatch(p: Phase): multiset<Task>
  {
    if p.Idle? || p.Stopped? then multiset{} else multiset{p.task}
  }

  ghost predicate TokensMatch(d: State)
  {
    && d.globalHeld == |d.running| + |d.releasing| + (if d.phase.AwaitingRepo? then 1 else 0)
    && d.repoHeld == RepoOf(d.running)
  }

  ghost predicate WithinCaps(c: Caps, d: State)
  {
    d.globalHeld <= c.global && forall r :: d.repoHeld[r] <= c.repo
  }

  /** Every popped task is in dispatch, running, executed, requeued or dropped. */
  ghost predicate TasksAccounted(d: State)
  {
    && (forall t :: Accounted(d, t))
    && (d.dropped != multiset{} ==> d.stop && d.phase.Stopped?)
  }

  ghost predicate Inv(c: Caps, d: State)
  {
    TokensMatch(d) && WithinCaps(c, d) && TasksAccounted(d)
  }

  lemma RepoOfSnoc(s: seq<Task>, t: Task)
    ensures RepoOf(s + [t]) == RepoOf(s) + multiset{t.repo}
  {
    assert (s + [t])[..|s|] == s;
  }

  lemma RemoveBeforeLast(s: seq<Task>, i: nat, t: Task)
    requires i < |s|
    ensures RemoveAt(s + [t], i) == RemoveAt(s, i) + [t]
  {
  }

  lemma {:induction false} RemoveAtRepos(s: seq<Task>, i: nat)
    requires i < |s|
    ensures RepoOf(s) == RepoOf(RemoveAt(s, i)) + multiset{s[i].repo}
  {
    var init, t := s[..|s| - 1], s[|s| - 1];
    assert s == init + [t];
    RepoOfSnoc(init, t);
    if i == |init| {
      assert RemoveAt(s, i) == init;
    } else {
      RemoveAtRepos(init, i);
      RemoveBeforeLast(init, i, t);
      RepoOfSnoc(RemoveAt(init, i), t);
    }
  }

  lemma RemoveAtTasks(s: seq<Task>, i: nat)
    requires i < |s|
    ensures multiset(s) == multiset(RemoveAt(s, i)) + multiset{s[i]}
  {
    assert s == s[..i] + [s[i]] + s[i + 1..];
  }

  lemma {:induction false} RepoOfHas(s: seq<Task>, r: RepoId) returns (i: nat)
    requires RepoOf(s)[r] > 0
    ensures i < |s| && s[i].repo == r
  {
    var last := |s| - 1;
    if s[last].repo == r {
      i := last;
    } else {
      i := RepoOfHas(s[..last], r);
    }
  }

  lemma SpawnKeepsTokens(c: Caps, d: State)
    requires TokensMatch(d) && WithinCaps(c, d) && Enabled(c, d, AcquireRepoAndSpawn)
    ensures TokensMatch(Apply(c, d, AcquireRepoAndSpawn)) && WithinCaps(c, Apply(c, d, AcquireRepoAndSpawn))
  {
    var t := d.phase.task;
    RepoOfSnoc(d.running, t);
  }

  lemma FinishKeepsTokens(c: Caps, d: State, i: nat)
    requires TokensMatch(d) && WithinCaps(c, d) && Enabled(c, d, ReleaseRepo(i))
    ensures TokensMatch(Apply(c, d, ReleaseRepo(i))) && WithinCaps(c, Apply(c, d, ReleaseRepo(i)))
  {
    RemoveAtRepos(d.running, i);
    var r := d.running[i].repo;
    assert RepoOf(RemoveAt(d.running, i)) + multiset{r} - multiset{r} == RepoOf(RemoveAt(d.running, i));
  }

  lemma StepKeepsTokens(c: Caps, d: State, step: Step)
    requires TokensMatch(d) && WithinCaps(c, d) && Enabled(c, d, step)
    ensures TokensMatch(Apply(c, d, step)) && WithinCaps(c, Apply(c, d, step))
  {
    match step {
      case AcquireRepoAndSpawn => SpawnKeepsTokens(c, d);
      case ReleaseRepo(i) => FinishKeepsTokens(c, d, i);
      case _ =>
    }
  }

  ghost predicate Accounted(d: State, t: Task)
  {
    d.popped[t] == InDispatch(d.phase)[t] + multiset(d.running)[t] + d.executed[t] + d.requeued[t] + d.dropped[t]
  }

  lemma StepAccountsFor(c: Caps, d: State, step: Step, t: Task)
    requires Accounted(d, t) && Enabled(c, d, step)
    ensures Accounted(Apply(c, d, step), t)
  {
    if step.ReleaseRepo? {
      RemoveAtTasks(d.running, step.i);
    } else if step.AcquireRepoAndSpawn? {
      assert multiset(d.running + [d.phase.task]) == multiset(d.running) + multiset{d.phase.task};
    }
  }

  lemma StepKeepsAccount(c: Caps, d: State, step: Step)
    requires TasksAccounted(d) && Enabled(c, d, step)
    ensures TasksAccounted(Apply(c, d, step))
  {
    forall t ensures Accounted(Apply(c, d, step), t) {
      assert Accounted(d, t);
      StepAccountsFor(c, d, step, t);
    }
  }

  ghost predicate Run(c: Caps, d: State, steps: seq<Step>, d': State)
  {
    if steps == [] then d' == d
    else
      var last := |steps| - 1;
      exists m :: Run(c, d, steps[..last], m) && Enabled(c, m, steps[last]) && d' == Apply(c, m, steps[last])
  }

  /** In every interleaving from the start, tokens match goroutines, neither capacity is
      exceeded in tasks running, and no popped task is unaccounted for. */
  lemma {:induction false} EveryRunIsSafe(c: Caps, steps: seq<Step>, d: State)
    requires Run(c, Start, steps, d)
    ensures Inv(c, d)
    ensures |d.running| <= c.global && forall r :: RepoOf(d.running)[r] <= c.repo
  {
    if steps != [] {
      var last := |steps| - 1;
      var m :| Run(c, Start, steps[..last], m) && Enabled(c, m, steps[last]) && d == Apply(c, m, steps[last]);
      EveryRunIsSafe(c, steps[..last], m);
      StepKeepsTokens(c, m, steps[last]);
      StepKeepsAccount(c, m, steps[last]);
    }
  }

  // ----- A blocked dispatcher -----

  predicate Blocked(c: Caps, d: State)
  {
    || (d.phase.AwaitingGlobal? && d.globalHeld >= c.global)
    || (d.phase.AwaitingRepo? && d.repoHeld[d.phase.task.repo] >= c.repo)
  }

  /** The dispatcher goes on exactly while a token is left: none of the global ones is kept from the
      tasks at work, and none of a repository's from its own. */
  lemma ProceedsIff(c: Caps, d: State)
    requires Inv(c, d)
    ensures d.phase.AwaitingGlobal? ==> (Enabled(c, d, AcquireGlobal) <==> |d.running| + |d.releasing| < c.global)
    ensures d.phase.AwaitingRepo? ==>
              (Enabled(c, d, AcquireRepoAndSpawn) <==> RepoOf(d.running)[d.phase.task.repo] < c.repo)
    ensures d.phase.AwaitingGlobal? || d.phase.AwaitingRepo? ==> (Enabled(c, d, Quit) <==> d.stop)
    ensures forall t :: Enabled(c, d, PopTask(t)) <==> d.phase.Idle? && !d.stop
  {
  }

  predicate Finishing(step: Step) { step.ReleaseRepo? || step.ReleaseGlobal? }

  lemma FreedFromRepo(c: Caps, d: State) returns (step: Step)
    requires c.repo > 0 && Inv(c, d) && Blocked(c, d) && d.phase.AwaitingRepo?
    ensures |d.running| > 0 && step.ReleaseRepo? && Enabled(c, d, step)
    ensures Apply(c, d, step).phase == d.phase && !Blocked(c, Apply(c, d, step))
  {
    var i := RepoOfHas(d.running, d.phase.task.repo);
    step := ReleaseRepo(i);
  }

  /** The dispatcher never waits for a token it holds itself: some running task holds one that
      would free it, and at most two finishing steps do. */
  lemma BlockedIsFreedByFinishing(c: Caps, d: State) returns (steps: seq<Step>, d': State)
    requires c.global > 0 && c.repo > 0 && Inv(c, d) && Blocked(c, d)
    ensures |d.running| + |d.releasing| > 0
    ensures 1 <= |steps| <= 2 && (forall s | s in steps :: Finishing(s))
    ensures Run(c, d, steps, d') && d'.phase == d.phase && !Blocked(c, d')
  {
    if d.phase.AwaitingRepo? {
      var step := FreedFromRepo(c, d);
      OneStep(c, d, step);
      steps, d' := [step], Apply(c, d, step);
    } else if d.releasing != [] {
      OneStep(c, d, ReleaseGlobal(0));
      steps, d' := [ReleaseGlobal(0)], Apply(c, d, ReleaseGlobal(0));
    } else {
      d' := TwoSteps(c, d);
      steps := [ReleaseRepo(0)] + [ReleaseGlobal(0)];
    }
  }

  lemma TwoSteps(c: Caps, d: State) returns (d': State)
    requires d.running != []
    ensures Run(c, d, [ReleaseRepo(0)] + [ReleaseGlobal(0)], d')
    ensures d'.phase == d.phase && d'.globalHeld == d.globalHeld - 1
  {
    var m := Apply(c, d, ReleaseRepo(0));
    OneStep(c, d, ReleaseRepo(0));
    Extend(c, d, [ReleaseRepo(0)], m, ReleaseGlobal(0));
    d' := Apply(c, m, ReleaseGlobal(0));
  }

  lemma Extend(c: Caps, d: State, steps: seq<Step>, m: State, step: Step)
    requires Run(c, d, steps, m) && Enabled(c, m, step)
    ensures Run(c, d, steps + [step], Apply(c, m, step))
  {
    assert (steps + [step])[..|steps|] == steps;
  }

  lemma OneStep(c: Caps, d: State, step: Step)
    requires Enabled(c, d, step)
    ensures Run(c, d, [step], Apply(c, d, step))
  {
    assert [step][..0] == [];
    assert Run(c, d, [step][..0], d);
  }
}
