/**
 * The scheduler's steps in their imperative form, and the exact reach of its queue limit:
 * because the depth check and the push are separate steps, concurrent submitters overshoot it.
 */
module SchedulerSteps {
  import opened Scheduler

  // ----- How far the queue can overshoot -----

  ghost predicate Reachable(c: Config, s: State) {
    exists run :: Possible(c, Initial(c), run) && Exec(c, Initial(c), run) == s
  }

  lemma {:induction false} ExecAppend(c: Config, s: State, run: seq<Action>, a: Action)
    requires Possible(c, s, run) && Enabled(c, Exec(c, s, run), a)
    ensures Possible(c, s, run + [a])
    ensures Exec(c, s, run + [a]) == Apply(c, Exec(c, s, run), a)
    decreases |run|
  {
    var longer := run + [a];
    if run == [] {
      assert longer[1..] == [];
    } else {
      ExecAppend(c, Apply(c, s, run[0]), run[1..], a);
      assert longer[1..] == run[1..] + [a];
    }
  }

  lemma ReachStep(c: Config, s: State, a: Action)
    requires Reachable(c, s) && Enabled(c, s, a)
    ensures Reachable(c, Apply(c, s, a))
  {
    var run :| Possible(c, Initial(c), run) && Exec(c, Initial(c), run) == s;
    ExecAppend(c, Initial(c), run, a);
  }

  function FilledJobs(pushed: nat, n: nat): (r: seq<Job>)
    ensures |r| == n
    ensures forall i :: 0 <= i < n ==> r[i] == Job(i, if i < pushed then Queued else Checked)
  {
    seq(n, (i: nat) => Job(i, if i < pushed then Queued else Checked))
  }

  /** Jobs 0 to n - 1 have passed the check, and those below `pushed` are in the queue. */
  function Filled(c: Config, pushed: nat, n: nat): State {
    State(c.maxConcurrent, seq(pushed, (i: nat) => i), {}, FilledJobs(pushed, n), {})
  }

  lemma {:induction false} FilledChecked(pushed: nat, n: nat)
    requires pushed <= n
    ensures Count(FilledJobs(pushed, n), IsChecked) == n - pushed
  {
    if n > 0 {
      var jobs := FilledJobs(pushed, n);
      if pushed == n {
        assert jobs[..n - 1] == FilledJobs(n - 1, n - 1);
        FilledChecked(n - 1, n - 1);
      } else {
        assert jobs[..n - 1] == FilledJobs(pushed, n - 1);
        FilledChecked(pushed, n - 1);
      }
    }
  }

  lemma CheckOne(c: Config, pushed: nat, n: nat)
    requires pushed <= n && pushed < c.maxQueue && n - pushed < c.submitters
    requires Reachable(c, Filled(c, pushed, n))
    ensures Reachable(c, Filled(c, pushed, n + 1))
  {
    var s := Filled(c, pushed, n);
    FilledChecked(pushed, n);
    ReachStep(c, s, Check(n));
    assert s.jobs + [Job(n, Checked)] == FilledJobs(pushed, n + 1);
  }

  lemma PushOne(c: Config, pushed: nat, n: nat)
    requires pushed < n && Reachable(c, Filled(c, pushed, n))
    ensures Reachable(c, Filled(c, pushed + 1, n))
  {
    var s := Filled(c, pushed, n);
    ReachStep(c, s, Push(pushed));
    assert Move(s, Push(pushed)) == FilledJobs(pushed + 1, n);
    assert s.queue + [pushed] == seq(pushed + 1, (i: nat) => i);
  }

  lemma {:induction false} FillOneByOne(c: Config, n: nat)
    requires ValidConfig(c) && n <= c.maxQueue
    ensures Reachable(c, Filled(c, n, n))
  {
    if n == 0 {
      assert Possible(c, Initial(c), []) && Exec(c, Initial(c), []) == Initial(c);
      assert Filled(c, 0, 0) == Initial(c);
    } else {
      FillOneByOne(c, n - 1);
      CheckOne(c, n - 1, n - 1);
      PushOne(c, n - 1, n);
    }
  }

  lemma {:induction false} CheckMany(c: Config, pushed: nat, k: nat)
    requires ValidConfig(c) && pushed < c.maxQueue && k <= c.submitters
    ensures Reachable(c, Filled(c, pushed, pushed + k))
  {
    if k == 0 {
      FillOneByOne(c, pushed);
    } else {
      CheckMany(c, pushed, k - 1);
      CheckOne(c, pushed, pushed + k - 1);
    }
  }

  lemma {:induction false} PushMany(c: Config, pushed: nat, k: nat, n: nat)
    requires pushed + k <= n && Reachable(c, Filled(c, pushed, n))
    ensures Reachable(c, Filled(c, pushed + k, n))
  {
    if k > 0 {
      PushMany(c, pushed, k - 1, n);
      PushOne(c, pushed + k - 1, n);
    }
  }

  /** The bound of `LimitsHold` is attained: some interleaving fills the queue to it. */
  lemma OvershootReached(c: Config)
    requires ValidConfig(c) && c.maxQueue >= 1
    ensures exists s :: Reachable(c, s) && |s.queue| == c.maxQueue + c.submitters - 1
  {
    var pushed := c.maxQueue - 1;
    CheckMany(c, pushed, c.submitters);
    PushMany(c, pushed, c.submitters, pushed + c.submitters);
    assert |Filled(c, pushed + c.submitters, pushed + c.submitters).queue| == pushed + c.submitters;
  }

  /** The queue limit is kept in every interleaving exactly when submissions do not overlap. */
  lemma QueueLimitKeptIff(c: Config)
    requires ValidConfig(c)
    ensures (forall s :: Reachable(c, s) ==> |s.queue| <= c.maxQueue) <==> c.submitters == 1 || c.maxQueue == 0
  {
    if c.submitters > 1 && c.maxQueue >= 1 {
      OvershootReached(c);
    } else {
      forall s | Reachable(c, s)
        ensures |s.queue| <= c.maxQueue
      {
        var run :| Possible(c, Initial(c), run) && Exec(c, Initial(c), run) == s;
        LimitsHold(c, run);
      }
    }
  }

  // ----- How many streams can be open -----

  function Below(n: nat): (r: set<nat>)
    ensures |r| == n && forall i :: i in r ==> i < n
  {
    if n == 0 then {} else Below(n - 1) + {n - 1}
  }

  function DoneJobs(n: nat): (r: seq<Job>)
    ensures |r| == n
    ensures forall i :: 0 <= i < n ==> r[i] == Job(i, Done)
  {
    seq(n, (i: nat) => Job(i, Done))
  }

  /** Jobs 0 to n - 1 are done, and none of their streams has been dropped. */
  function Streaming(c: Config, n: nat): State {
    State(c.maxConcurrent, [], {}, DoneJobs(n), Below(n))
  }

  lemma {:induction false} DoneJobsCount(n: nat)
    ensures Count(DoneJobs(n), IsChecked) == 0
  {
    if n > 0 {
      DoneJobsCount(n - 1);
      assert DoneJobs(n)[..n - 1] == DoneJobs(n - 1);
    }
  }

  /** One more job on the way, alone: in phase `p`, with what it holds there. */
  function Alone(c: Config, n: nat, p: Phase): State
    requires ValidConfig(c)
  {
    State(
      if HoldsPermit(p) then c.maxConcurrent - 1 else c.maxConcurrent,
      if Waits(p) then [n] else [],
      if Runs(p) then {n} else {},
      DoneJobs(n) + [Job(n, p)],
      Below(if WasDelivered(p) then n + 1 else n))
  }

  lemma AloneJobs(c: Config, n: nat, a: Action)
    requires ValidConfig(c) && MovesJob(a) && a.job == n
    ensures Alone(c, n, Before(a)).jobs[n] == Job(n, Before(a))
    ensures Move(Alone(c, n, Before(a)), a) == DoneJobs(n) + [Job(n, After(a))]
  {
  }

  lemma AloneEnables(c: Config, n: nat, a: Action)
    requires ValidConfig(c) && MovesJob(a) && a.job == n
    ensures Enabled(c, Alone(c, n, Before(a)), a)
  {
    AloneJobs(c, n, a);
  }

  lemma AloneQueue(c: Config, n: nat, a: Action)
    requires ValidConfig(c) && MovesJob(a) && a.job == n
    requires Enabled(c, Alone(c, n, Before(a)), a)
    ensures Apply(c, Alone(c, n, Before(a)), a).queue == Alone(c, n, After(a)).queue
  {
    AloneJobs(c, n, a);
    assert Retain([n], n) == [];
  }

  lemma AloneActive(c: Config, n: nat, a: Action)
    requires ValidConfig(c) && MovesJob(a) && a.job == n
    requires Enabled(c, Alone(c, n, Before(a)), a)
    ensures Apply(c, Alone(c, n, Before(a)), a).active == Alone(c, n, After(a)).active
  {
    AloneJobs(c, n, a);
  }

  lemma AloneOpen(c: Config, n: nat, a: Action)
    requires ValidConfig(c) && MovesJob(a) && a.job == n && (a.Deliver? ==> a.streamed)
    requires Enabled(c, Alone(c, n, Before(a)), a)
    ensures Apply(c, Alone(c, n, Before(a)), a).open == Alone(c, n, After(a)).open
  {
  }

  lemma AlonePermits(c: Config, n: nat, a: Action)
    requires ValidConfig(c) && MovesJob(a) && a.job == n
    requires Enabled(c, Alone(c, n, Before(a)), a)
    ensures Apply(c, Alone(c, n, Before(a)), a).permits == Alone(c, n, After(a)).permits
    ensures Apply(c, Alone(c, n, Before(a)), a).jobs == Move(Alone(c, n, Before(a)), a)
  {
  }

  lemma AloneStep(c: Config, n: nat, a: Action)
    requires ValidConfig(c) && MovesJob(a) && a.job == n && (a.Deliver? ==> a.streamed)
    ensures Enabled(c, Alone(c, n, Before(a)), a)
    ensures Apply(c, Alone(c, n, Before(a)), a) == Alone(c, n, After(a))
  {
    AloneEnables(c, n, a);
    AloneJobs(c, n, a);
    AloneQueue(c, n, a);
    AloneActive(c, n, a);
    AloneOpen(c, n, a);
    AlonePermits(c, n, a);
  }

  lemma NextActionFits(p: Phase, n: nat)
    requires p != Done
    ensures var a := NextAction(p, n);
      MovesJob(a) && a.job == n && Before(a) == p && Rank(After(a)) < Rank(p) && (a.Deliver? ==> a.streamed)
  {
  }

  lemma AloneGoesOn(c: Config, n: nat, p: Phase, q: Phase)
    requires ValidConfig(c) && p != Done && q == After(NextAction(p, n))
    requires Reachable(c, Alone(c, n, p))
    ensures Reachable(c, Alone(c, n, q))
  {
    NextActionFits(p, n);
    AloneStep(c, n, NextAction(p, n));
    ReachStep(c, Alone(c, n, p), NextAction(p, n));
  }

  lemma {:induction false} AloneFinishes(c: Config, n: nat, p: Phase)
    requires ValidConfig(c) && Reachable(c, Alone(c, n, p))
    ensures Reachable(c, Alone(c, n, Done))
    decreases Rank(p)
  {
    if p != Done {
      NextActionFits(p, n);
      var q := After(NextAction(p, n));
      AloneGoesOn(c, n, p, q);
      AloneFinishes(c, n, q);
    }
  }

  lemma StreamingAccepts(c: Config, n: nat)
    requires ValidConfig(c) && c.maxQueue >= 1
    ensures Enabled(c, Streaming(c, n), Check(n))
    ensures Apply(c, Streaming(c, n), Check(n)) == Alone(c, n, Checked)
  {
    DoneJobsCount(n);
  }

  lemma AloneDone(c: Config, n: nat)
    requires ValidConfig(c)
    ensures Alone(c, n, Done) == Streaming(c, n + 1)
  {
    assert DoneJobs(n) + [Job(n, Done)] == DoneJobs(n + 1);
  }

  /** After any number of jobs, one more runs through and leaves its stream open. */
  lemma OneMoreStream(c: Config, n: nat)
    requires ValidConfig(c) && c.maxQueue >= 1 && Reachable(c, Streaming(c, n))
    ensures Reachable(c, Streaming(c, n + 1))
  {
    StreamingAccepts(c, n);
    ReachStep(c, Streaming(c, n), Check(n));
    AloneFinishes(c, n, Checked);
    AloneDone(c, n);
  }

  lemma {:induction false} StreamingReached(c: Config, n: nat)
    requires ValidConfig(c) && c.maxQueue >= 1
    ensures Reachable(c, Streaming(c, n))
  {
    if n == 0 {
      assert Possible(c, Initial(c), []) && Exec(c, Initial(c), []) == Initial(c);
      assert Streaming(c, 0) == Initial(c);
    } else {
      StreamingReached(c, n - 1);
      OneMoreStream(c, n - 1);
    }
  }

  /** Any number of streams can be open while no job is active and every permit is free. */
  lemma AnyNumberOfStreamsOpen(c: Config, n: nat)
    requires ValidConfig(c) && c.maxQueue >= 1
    ensures exists s :: Reachable(c, s) && |s.open| == n && s.active == {} && s.permits == c.maxConcurrent
  {
    StreamingReached(c, n);
    assert |Streaming(c, n).open| == n;
  }

  /**
   * The concurrency limit bounds the streams being produced in no configuration that accepts
   * jobs at all: it bounds their creation only.
   */
  lemma StreamsLimitedIff(c: Config)
    requires ValidConfig(c)
    ensures (forall s :: Reachable(c, s) ==> |s.open| <= c.maxConcurrent) <==> c.maxQueue == 0
  {
    if c.maxQueue >= 1 {
      AnyNumberOfStreamsOpen(c, c.maxConcurrent + 1);
    } else {
      forall s | Reachable(c, s)
        ensures |s.open| <= c.maxConcurrent
      {
        var run :| Possible(c, Initial(c), run) && Exec(c, Initial(c), run) == s;
        InitialInv(c);
        RunKeepsInv(c, Initial(c), run);
        assert s.open == {};
      }
    }
  }

  // ----- When a request id comes twice -----

  /** Two jobs of request id 0: the first is active, the second in phase `p`. */
  function Twins(c: Config, p: Phase): State
    requires c.maxConcurrent >= 2
  {
    State(
      if HoldsPermit(p) then c.maxConcurrent - 2 else c.maxConcurrent - 1,
      if Waits(p) then [0] else [],
      {0},
      [Job(0, Active), Job(0, p)],
      {})
  }

  lemma TwinStep(c: Config, a: Action)
    requires c.maxConcurrent >= 2 && (a == Push(1) || a == Acquire(1) || a == Dequeue(1) || a == Activate(1))
    ensures Enabled(c, Twins(c, Before(a)), a)
    ensures Apply(c, Twins(c, Before(a)), a) == Twins(c, After(a))
  {
    var s := Twins(c, Before(a));
    assert Move(s, a) == [Job(0, Active), Job(0, After(a))];
    assert Retain([0], 0) == [];
  }

  lemma TwinsReach(c: Config, a: Action)
    requires c.maxConcurrent >= 2 && (a == Push(1) || a == Acquire(1) || a == Dequeue(1) || a == Activate(1))
    requires Reachable(c, Twins(c, Before(a)))
    ensures Reachable(c, Twins(c, After(a)))
  {
    TwinStep(c, a);
    ReachStep(c, Twins(c, Before(a)), a);
  }

  lemma FirstActive(c: Config)
    requires ValidConfig(c) && c.maxQueue >= 1
    ensures Reachable(c, Alone(c, 0, Active))
  {
    StreamingReached(c, 0);
    StreamingAccepts(c, 0);
    ReachStep(c, Streaming(c, 0), Check(0));
    AloneGoesOn(c, 0, Checked, Queued);
    AloneGoesOn(c, 0, Queued, Acquired);
    AloneGoesOn(c, 0, Acquired, Dequeued);
    AloneGoesOn(c, 0, Dequeued, Active);
  }

  lemma SecondAccepted(c: Config)
    requires c.maxConcurrent >= 2 && c.submitters >= 1 && c.maxQueue >= 1
    ensures Enabled(c, Alone(c, 0, Active), Check(0))
    ensures Apply(c, Alone(c, 0, Active), Check(0)) == Twins(c, Checked)
  {
    var s := Alone(c, 0, Active);
    assert s.jobs == [Job(0, Active)];
    assert [Job(0, Active)][..0] == [];
    assert Count(s.jobs, IsChecked) == 0;
    assert s.jobs + [Job(0, Checked)] == [Job(0, Active), Job(0, Checked)];
  }

  lemma BothActive(c: Config)
    requires c.maxConcurrent >= 2 && c.submitters >= 1 && c.maxQueue >= 1
    ensures Reachable(c, Twins(c, Active))
  {
    FirstActive(c);
    SecondAccepted(c);
    ReachStep(c, Alone(c, 0, Active), Check(0));
    TwinsReach(c, Push(1));
    TwinsReach(c, Acquire(1));
    TwinsReach(c, Dequeue(1));
    TwinsReach(c, Activate(1));
  }

  function FirstGone(c: Config): State
    requires c.maxConcurrent >= 2
  {
    State(c.maxConcurrent - 2, [], {}, [Job(0, Removed), Job(0, Active)], {0})
  }

  lemma FirstLeaves(c: Config)
    requires c.maxConcurrent >= 2
    ensures var s := Twins(c, Active);
      && Enabled(c, s, Deliver(0, true)) && Enabled(c, Apply(c, s, Deliver(0, true)), Deactivate(0))
      && Apply(c, Apply(c, s, Deliver(0, true)), Deactivate(0)) == FirstGone(c)
  {
    var s := Twins(c, Active);
    var t := Apply(c, s, Deliver(0, true));
    assert t.jobs == [Job(0, Delivered), Job(0, Active)];
    assert Move(t, Deactivate(0)) == [Job(0, Removed), Job(0, Active)];
  }

  /**
   * What distinct ids are needed for: with one id submitted twice, the end of the first job
   * takes the second, which is still running, out of the active map.
   */
  lemma RepeatedIdVanishes(c: Config)
    requires c.maxConcurrent >= 2 && c.submitters >= 1 && c.maxQueue >= 1
    ensures exists s :: Reachable(c, s) && s.active == {} && Job(0, Active) in s.jobs
  {
    BothActive(c);
    FirstLeaves(c);
    var s := Twins(c, Active);
    ReachStep(c, s, Deliver(0, true));
    ReachStep(c, Apply(c, s, Deliver(0, true)), Deactivate(0));
    assert FirstGone(c).jobs[1] == Job(0, Active);
  }

  // ----- The steps as methods -----

  class NodeScheduler {
    const config: Config
    var permits: nat
    var queue: seq<RequestId>
    var active: set<RequestId>
    /** The submitters past their check and the tasks spawned by them. */
    ghost var jobs: seq<Job>
    /** The streams that their callers have not dropped yet. */
    ghost var open: set<nat>

    ghost function View(): State
      reads this
    {
      State(permits, queue, active, jobs, open)
    }

    /** `new`: at least one job may run. */
    constructor (maxConcurrent: nat, maxQueue: nat, submitters: nat)
      ensures config == Config(if maxConcurrent < 1 then 1 else maxConcurrent, maxQueue, submitters)
      ensures View() == Initial(config)
    {
      var atLeastOne := if maxConcurrent < 1 then 1 else maxConcurrent;
      config := Config(atLeastOne, maxQueue, submitters);
      permits := atLeastOne;
      queue, active, jobs, open := [], {}, [], {};
    }

    /** The first lock of `submit`: the queue may be full. */
    method CheckDepth(id: RequestId) returns (full: bool)
      requires Enabled(config, View(), Check(id))
      modifies this
      ensures View() == Apply(config, old(View()), Check(id))
      ensures full <==> |queue| >= config.maxQueue
    {
      if |queue| >= config.maxQueue {
        return true;
      }
      jobs := jobs + [Job(id, Checked)];
      return false;
    }

    /** The second lock of `submit`, and the spawn. */
    method PushBack(id: RequestId, ghost j: nat)
      requires Enabled(config, View(), Push(j)) && jobs[j].id == id
      modifies this
      ensures View() == Apply(config, old(View()), Push(j))
    {
      queue := queue + [id];
      jobs := Move(View(), Push(j));
    }

    method AcquirePermit(ghost j: nat)
      requires Enabled(config, View(), Acquire(j))
      modifies this
      ensures View() == Apply(config, old(View()), Acquire(j))
    {
      permits := permits - 1;
      jobs := Move(View(), Acquire(j));
    }

    method RemoveFromQueue(id: RequestId, ghost j: nat)
      requires Enabled(config, View(), Dequeue(j)) && jobs[j].id == id
      modifies this
      ensures View() == Apply(config, old(View()), Dequeue(j))
    {
      queue := Retain(queue, id);
      jobs := Move(View(), Dequeue(j));
    }

    method MarkActive(id: RequestId, ghost j: nat)
      requires Enabled(config, View(), Activate(j)) && jobs[j].id == id
      modifies this
      ensures View() == Apply(config, old(View()), Activate(j))
    {
      active := active + {id};
      jobs := Move(View(), Activate(j));
    }

    /** The stream, or the error of its creation, has gone to the caller, if it still listens. */
    method SendResult(streamed: bool, ghost j: nat)
      requires Enabled(config, View(), Deliver(j, streamed))
      modifies this
      ensures View() == Apply(config, old(View()), Deliver(j, streamed))
    {
      jobs := Move(View(), Deliver(j, streamed));
      if streamed {
        open := open + {j};
      }
    }

    method RemoveFromActive(id: RequestId, ghost j: nat)
      requires Enabled(config, View(), Deactivate(j)) && jobs[j].id == id
      modifies this
      ensures View() == Apply(config, old(View()), Deactivate(j))
    {
      active := active - {id};
      jobs := Move(View(), Deactivate(j));
    }

    method DropPermit(ghost j: nat)
      requires Enabled(config, View(), Drop(j))
      modifies this
      ensures View() == Apply(config, old(View()), Drop(j))
    {
      permits := permits + 1;
      jobs := Move(View(), Drop(j));
    }
  }
}
