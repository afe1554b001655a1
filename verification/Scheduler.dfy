/**
 * The node scheduler: submitters and the tasks they spawn share a semaphore, a queue and a
 * map of active jobs. One step is one lock or semaphore operation; a run is any interleaving
 * of enabled steps. Checking the queue depth and pushing are two steps, and a permit is
 * given back once the job's stream has been delivered, not once its caller has read and
 * dropped it.
 */
module Scheduler {
  import opened Collections

  type RequestId = nat

  /** Where a job is between the depth check of its submitter and the end of its task. */
  datatype Phase =
    | Checked     // the submitter saw room in the queue and has not pushed yet
    | Queued      // pushed, waiting for a permit
    | Acquired    // holds a permit, still in the queue
    | Dequeued
    | Active      // in the active map, running its work
    | Delivered   // the stream (or error) has been sent, still in the active map
    | Removed
    | Done        // the permit is back

  datatype Job = Job(id: RequestId, phase: Phase)

  /** `open` are the jobs whose stream has been handed over and not been dropped by its caller. */
  datatype State = State(
    permits: nat,
    queue: seq<RequestId>,
    active: set<RequestId>,
    jobs: seq<Job>,
    open: set<nat>)

  /** `submitters` is how many callers may be inside `submit` at once. */
  datatype Config = Config(maxConcurrent: nat, maxQueue: nat, submitters: nat)

  predicate ValidConfig(c: Config) {
    c.maxConcurrent >= 1 && c.submitters >= 1
  }

  datatype Action =
    | Check(id: RequestId)
    | Push(job: nat)
    | Acquire(job: nat)
    | Dequeue(job: nat)
    | Activate(job: nat)
    | Deliver(job: nat, streamed: bool) // false for an error, or a caller that is gone
    | Deactivate(job: nat)
    | Drop(job: nat)
    | Consume(job: nat)                 // the caller has read the stream and drops it

  function Initial(c: Config): State {
    State(c.maxConcurrent, [], {}, [], {})
  }

  // ----- Steps -----

  function Retain(queue: seq<RequestId>, id: RequestId): (r: seq<RequestId>)
    ensures |r| <= |queue|
    ensures forall x :: x in r <==> x in queue && x != id
  {
    if queue == [] then []
    else if queue[0] == id then Retain(queue[1..], id)
    else [queue[0]] + Retain(queue[1..], id)
  }

  /** The steps of submitters and tasks on a job; the others start one or are its caller's. */
  predicate MovesJob(a: Action) {
    !a.Check? && !a.Consume?
  }

  /** The phase in which a job must be for the action, and the one in which it is afterwards. */
  function Before(a: Action): Phase
    requires MovesJob(a)
  {
    match a
    case Push(_) => Checked
    case Acquire(_) => Queued
    case Dequeue(_) => Acquired
    case Activate(_) => Dequeued
    case Deliver(_, _) => Active
    case Deactivate(_) => Delivered
    case Drop(_) => Removed
  }

  function After(a: Action): Phase
    requires MovesJob(a)
  {
    match a
    case Push(_) => Queued
    case Acquire(_) => Acquired
    case Dequeue(_) => Dequeued
    case Activate(_) => Active
    case Deliver(_, _) => Delivered
    case Deactivate(_) => Removed
    case Drop(_) => Done
  }

  predicate IsChecked(p: Phase) { p == Checked }

  function Count(jobs: seq<Job>, p: Phase -> bool): nat {
    if jobs == [] then 0
    else Count(jobs[..|jobs| - 1], p) + if p(jobs[|jobs| - 1].phase) then 1 else 0
  }

  predicate Enabled(c: Config, s: State, a: Action) {
    if a.Check? then Count(s.jobs, IsChecked) < c.submitters
    else if a.Consume? then a.job in s.open
    else a.job < |s.jobs| && s.jobs[a.job].phase == Before(a) && (a.Acquire? ==> s.permits > 0)
  }

  function Move(s: State, a: Action): seq<Job>
    requires MovesJob(a) && a.job < |s.jobs|
  {
    s.jobs[a.job := s.jobs[a.job].(phase := After(a))]
  }

  function Apply(c: Config, s: State, a: Action): State
    requires Enabled(c, s, a)
  {
    match a
    case Check(id) => if |s.queue| >= c.maxQueue then s else s.(jobs := s.jobs + [Job(id, Checked)])
    case Push(j) => s.(jobs := Move(s, a), queue := s.queue + [s.jobs[j].id])
    case Acquire(_) => s.(jobs := Move(s, a), permits := s.permits - 1)
    case Dequeue(j) => s.(jobs := Move(s, a), queue := Retain(s.queue, s.jobs[j].id))
    case Activate(j) => s.(jobs := Move(s, a), active := s.active + {s.jobs[j].id})
    case Deliver(j, streamed) => s.(jobs := Move(s, a), open := if streamed then s.open + {j} else s.open)
    case Deactivate(j) => s.(jobs := Move(s, a), active := s.active - {s.jobs[j].id})
    case Drop(_) => s.(jobs := Move(s, a), permits := s.permits + 1)
    case Consume(j) => s.(open := s.open - {j})
  }

  /** The interleaving `run` is possible from `s`. */
  predicate Possible(c: Config, s: State, run: seq<Action>)
    decreases |run|
  {
    run == [] || (Enabled(c, s, run[0]) && Possible(c, Apply(c, s, run[0]), run[1..]))
  }

  function Exec(c: Config, s: State, run: seq<Action>): State
    requires Possible(c, s, run)
    decreases |run|
  {
    if run == [] then s else Exec(c, Apply(c, s, run[0]), run[1..])
  }

  // ----- Counting jobs by phase -----

  predicate Waits(p: Phase) { p == Queued || p == Acquired }
  predicate Runs(p: Phase) { p == Active || p == Delivered }
  predicate WasDelivered(p: Phase) { p == Delivered || p == Removed || p == Done }
  predicate IsUndelivered(p: Phase) { !WasDelivered(p) }
  predicate HoldsPermit(p: Phase) { p == Acquired || p == Dequeued || p == Active || p == Delivered || p == Removed }

  lemma CountAppend(jobs: seq<Job>, j: Job, p: Phase -> bool)
    ensures Count(jobs + [j], p) == Count(jobs, p) + if p(j.phase) then 1 else 0
  {
    assert (jobs + [j])[..|jobs|] == jobs;
  }

  lemma {:induction false} CountUpdate(jobs: seq<Job>, i: nat, j: Job, p: Phase -> bool)
    requires i < |jobs|
    ensures Count(jobs[i := j], p)
            == Count(jobs, p) - (if p(jobs[i].phase) then 1 else 0) + (if p(j.phase) then 1 else 0)
  {
    var n := |jobs| - 1;
    if i < n {
      CountUpdate(jobs[..n], i, j, p);
      assert jobs[i := j][..n] == jobs[..n][i := j];
    } else {
      assert jobs[i := j][..n] == jobs[..n];
    }
  }

  function Ids(jobs: seq<Job>, p: Phase -> bool): set<RequestId> {
    set j | j in jobs && p(j.phase) :: j.id
  }

  lemma {:induction false} IdsBound(jobs: seq<Job>, p: Phase -> bool)
    ensures |Ids(jobs, p)| <= Count(jobs, p)
  {
    if jobs != [] {
      var front, last := jobs[..|jobs| - 1], jobs[|jobs| - 1];
      IdsBound(front, p);
      assert jobs == front + [last];
      assert Ids(jobs, p) == Ids(front, p) + if p(last.phase) then {last.id} else {};
    }
  }

  lemma {:induction false} CountImplies(jobs: seq<Job>, p: Phase -> bool, q: Phase -> bool)
    requires forall x :: p(x) ==> q(x)
    ensures Count(jobs, p) <= Count(jobs, q)
  {
    if jobs != [] {
      CountImplies(jobs[..|jobs| - 1], p, q);
    }
  }

  // ----- Safety -----

  ghost predicate Inv(c: Config, s: State) {
    && s.permits + Count(s.jobs, HoldsPermit) == c.maxConcurrent
    && |s.queue| + Count(s.jobs, IsChecked) < c.maxQueue + c.submitters
    && (c.maxQueue == 0 ==> s.jobs == [] && s.queue == [])
    && (forall x :: x in s.queue ==> x in Ids(s.jobs, Waits))
    && s.active <= Ids(s.jobs, Runs)
    && (forall j :: j in s.open ==> j < |s.jobs| && WasDelivered(s.jobs[j].phase))
  }

  lemma InitialInv(c: Config)
    requires ValidConfig(c)
    ensures Inv(c, Initial(c))
  {
  }

  /** A move keeps the ids of a phase class, but for the moved job's. */
  lemma MoveIds(s: State, a: Action, p: Phase -> bool, x: RequestId)
    requires MovesJob(a) && a.job < |s.jobs|
    ensures x in Ids(s.jobs, p) && (x != s.jobs[a.job].id || p(After(a))) ==> x in Ids(Move(s, a), p)
  {
    if x in Ids(s.jobs, p) {
      var j :| j in s.jobs && p(j.phase) && j.id == x;
      var i :| 0 <= i < |s.jobs| && s.jobs[i] == j;
      if i != a.job {
        assert Move(s, a)[i] == j;
      } else {
        assert Move(s, a)[i].id == x;
      }
    }
  }

  lemma MovedIn(s: State, a: Action, p: Phase -> bool)
    requires MovesJob(a) && a.job < |s.jobs| && p(After(a))
    ensures s.jobs[a.job].id in Ids(Move(s, a), p)
  {
    assert Move(s, a)[a.job] in Move(s, a);
  }

  lemma MoveCounts(s: State, a: Action, p: Phase -> bool)
    requires MovesJob(a) && a.job < |s.jobs|
    ensures Count(Move(s, a), p)
            == Count(s.jobs, p) - (if p(s.jobs[a.job].phase) then 1 else 0) + (if p(After(a)) then 1 else 0)
  {
    CountUpdate(s.jobs, a.job, s.jobs[a.job].(phase := After(a)), p);
  }

  lemma StepKeepsPermits(c: Config, s: State, a: Action)
    requires Inv(c, s) && Enabled(c, s, a)
    ensures var t := Apply(c, s, a); t.permits + Count(t.jobs, HoldsPermit) == c.maxConcurrent
  {
    if a.Check? {
      CountAppend(s.jobs, Job(a.id, Checked), HoldsPermit);
    } else if MovesJob(a) {
      MoveCounts(s, a, HoldsPermit);
    }
  }

  lemma StepKeepsSlots(c: Config, s: State, a: Action)
    requires ValidConfig(c) && Inv(c, s) && Enabled(c, s, a)
    ensures var t := Apply(c, s, a);
      && |t.queue| + Count(t.jobs, IsChecked) < c.maxQueue + c.submitters
      && (c.maxQueue == 0 ==> t.jobs == [] && t.queue == [])
  {
    if a.Check? {
      CountAppend(s.jobs, Job(a.id, Checked), IsChecked);
    } else if MovesJob(a) {
      MoveCounts(s, a, IsChecked);
    }
  }

  lemma StepKeepsOpen(c: Config, s: State, a: Action)
    requires Inv(c, s) && Enabled(c, s, a)
    ensures var t := Apply(c, s, a); forall j :: j in t.open ==> j < |t.jobs| && WasDelivered(t.jobs[j].phase)
  {
  }

  /** A job that was not in the phase class takes no id out of it by moving. */
  lemma KeptIds(s: State, a: Action, p: Phase -> bool, x: RequestId)
    requires MovesJob(a) && a.job < |s.jobs| && !p(s.jobs[a.job].phase) && x in Ids(s.jobs, p)
    ensures x in Ids(Move(s, a), p)
  {
    var j :| j in s.jobs && p(j.phase) && j.id == x;
    var i :| 0 <= i < |s.jobs| && s.jobs[i] == j;
    assert Move(s, a)[i] == j;
  }

  lemma StepKeepsIds(c: Config, s: State, a: Action)
    requires Inv(c, s) && Enabled(c, s, a)
    ensures var t := Apply(c, s, a);
      && (forall x :: x in t.queue ==> x in Ids(t.jobs, Waits))
      && t.active <= Ids(t.jobs, Runs)
  {
    var t := Apply(c, s, a);
    if a.Check? {
      assert forall j :: j in s.jobs ==> j in t.jobs;
    } else if MovesJob(a) {
      forall x | x in t.queue
        ensures x in Ids(t.jobs, Waits)
      {
        MoveIds(s, a, Waits, x);
        if a.Push? || a.Acquire? {
          MovedIn(s, a, Waits);
        }
        if !a.Push? && !a.Acquire? && !a.Dequeue? {
          KeptIds(s, a, Waits, x);
        }
      }
      forall x | x in t.active
        ensures x in Ids(t.jobs, Runs)
      {
        MoveIds(s, a, Runs, x);
        if a.Activate? || a.Deliver? {
          MovedIn(s, a, Runs);
        }
        if !a.Activate? && !a.Deliver? && !a.Deactivate? {
          KeptIds(s, a, Runs, x);
        }
      }
    }
  }

  lemma StepKeepsInv(c: Config, s: State, a: Action)
    requires ValidConfig(c) && Inv(c, s) && Enabled(c, s, a)
    ensures Inv(c, Apply(c, s, a))
  {
    StepKeepsPermits(c, s, a);
    StepKeepsSlots(c, s, a);
    StepKeepsIds(c, s, a);
    StepKeepsOpen(c, s, a);
  }

  lemma {:induction false} RunKeepsInv(c: Config, s: State, run: seq<Action>)
    requires ValidConfig(c) && Inv(c, s) && Possible(c, s, run)
    ensures Inv(c, Exec(c, s, run))
    decreases |run|
  {
    if run != [] {
      StepKeepsInv(c, s, run[0]);
      RunKeepsInv(c, Apply(c, s, run[0]), run[1..]);
    }
  }

  /**
   * In every interleaving, whatever request ids are submitted, no more jobs are active than
   * there are permits, and with `k` concurrent submitters the queue exceeds its limit by at
   * most `k - 1`.
   */
  lemma LimitsHold(c: Config, run: seq<Action>)
    requires ValidConfig(c) && Possible(c, Initial(c), run)
    ensures var s := Exec(c, Initial(c), run);
      && |s.active| <= c.maxConcurrent
      && s.permits <= c.maxConcurrent
      && |s.queue| <= c.maxQueue + c.submitters - 1
      && (c.maxQueue == 0 ==> s.queue == [])
  {
    InitialInv(c);
    RunKeepsInv(c, Initial(c), run);
    var s := Exec(c, Initial(c), run);
    SubsetSize(s.active, Ids(s.jobs, Runs));
    IdsBound(s.jobs, Runs);
    CountImplies(s.jobs, Runs, HoldsPermit);
  }

  /**
   * Whatever request ids are submitted, repeated ones too: every id in the queue is that of a
   * waiting job, and every id in the active map that of a running one.
   */
  lemma ShownAreInPhase(c: Config, run: seq<Action>)
    requires ValidConfig(c) && Possible(c, Initial(c), run)
    ensures var s := Exec(c, Initial(c), run);
      && (forall x :: x in s.queue ==> exists j :: j in s.jobs && j.id == x && Waits(j.phase))
      && (forall x :: x in s.active ==> exists j :: j in s.jobs && j.id == x && Runs(j.phase))
  {
    InitialInv(c);
    RunKeepsInv(c, Initial(c), run);
    var s := Exec(c, Initial(c), run);
    assert forall x :: x in Ids(s.jobs, Waits) ==> exists j :: j in s.jobs && j.id == x && Waits(j.phase);
    assert forall x :: x in Ids(s.jobs, Runs) ==> exists j :: j in s.jobs && j.id == x && Runs(j.phase);
  }

  // ----- Every job in exactly one place -----

  predicate DistinctIds(jobs: seq<Job>) {
    forall i, j :: 0 <= i < j < |jobs| ==> jobs[i].id != jobs[j].id
  }

  predicate Placed(s: State, j: Job) {
    (j.id in s.queue <==> Waits(j.phase)) && (j.id in s.active <==> Runs(j.phase))
  }

  /** The queue and the active map show exactly the jobs that are in those phases. */
  predicate Faithful(s: State) {
    NoRepeats(s.queue) && forall i :: 0 <= i < |s.jobs| ==> Placed(s, s.jobs[i])
  }

  lemma {:induction false} RetainNoRepeats(queue: seq<RequestId>, id: RequestId)
    requires NoRepeats(queue)
    ensures NoRepeats(Retain(queue, id))
  {
    if queue != [] {
      RetainNoRepeats(queue[1..], id);
      assert forall k :: 0 <= k < |queue[1..]| ==> queue[1..][k] != queue[0];
      assert queue[0] !in Retain(queue[1..], id);
    }
  }

  lemma StepPlaces(c: Config, s: State, a: Action, i: nat)
    requires MovesJob(a) && Enabled(c, s, a) && Faithful(s) && DistinctIds(s.jobs) && i < |s.jobs|
    ensures Placed(Apply(c, s, a), Move(s, a)[i])
  {
    assert Placed(s, s.jobs[i]) && Placed(s, s.jobs[a.job]);
    if i != a.job {
      assert Move(s, a)[i] == s.jobs[i] && s.jobs[i].id != s.jobs[a.job].id;
    }
  }

  lemma StepRepeatsNothing(c: Config, s: State, a: Action)
    requires Enabled(c, s, a) && Faithful(s)
    ensures NoRepeats(Apply(c, s, a).queue)
  {
    if a.Push? {
      assert Placed(s, s.jobs[a.job]);
    } else if a.Dequeue? {
      RetainNoRepeats(s.queue, s.jobs[a.job].id);
    }
  }

  /** A new job's id is nowhere yet. */
  lemma CheckPlaces(c: Config, s: State, a: Action)
    requires a.Check? && Inv(c, s) && Enabled(c, s, a) && Faithful(s) && DistinctIds(Apply(c, s, a).jobs)
    ensures Faithful(Apply(c, s, a))
  {
    var t := Apply(c, s, a);
    if t != s {
      assert forall i :: 0 <= i < |s.jobs| ==> t.jobs[i] == s.jobs[i];
      assert t.jobs[|s.jobs|].id == a.id;
      assert forall j :: j in s.jobs ==> j.id != a.id;
      assert Placed(t, Job(a.id, Checked));
      assert forall i :: 0 <= i < |s.jobs| ==> Placed(s, s.jobs[i]) == Placed(t, t.jobs[i]);
    }
  }

  lemma StepKeepsIdsInPlace(c: Config, s: State, a: Action)
    requires Enabled(c, s, a) && DistinctIds(Apply(c, s, a).jobs)
    ensures DistinctIds(s.jobs)
  {
    var t := Apply(c, s, a);
    assert |s.jobs| <= |t.jobs| && forall i :: 0 <= i < |s.jobs| ==> t.jobs[i].id == s.jobs[i].id;
  }

  lemma StepStaysFaithful(c: Config, s: State, a: Action)
    requires Inv(c, s) && Enabled(c, s, a) && Faithful(s) && DistinctIds(Apply(c, s, a).jobs)
    ensures Faithful(Apply(c, s, a))
  {
    if a.Check? {
      CheckPlaces(c, s, a);
    } else if MovesJob(a) {
      StepKeepsIdsInPlace(c, s, a);
      StepRepeatsNothing(c, s, a);
      assert Apply(c, s, a).jobs == Move(s, a);
      forall i | 0 <= i < |s.jobs|
        ensures Placed(Apply(c, s, a), Move(s, a)[i])
      {
        StepPlaces(c, s, a, i);
      }
    }
  }

  lemma {:induction false} RunStaysFaithful(c: Config, s: State, run: seq<Action>)
    requires ValidConfig(c) && Inv(c, s) && (DistinctIds(s.jobs) ==> Faithful(s)) && Possible(c, s, run)
    ensures DistinctIds(Exec(c, s, run).jobs) ==> Faithful(Exec(c, s, run))
    decreases |run|
  {
    if run != [] {
      var t := Apply(c, s, run[0]);
      StepKeepsInv(c, s, run[0]);
      if DistinctIds(t.jobs) {
        StepKeepsIdsInPlace(c, s, run[0]);
        StepStaysFaithful(c, s, run[0]);
      }
      RunStaysFaithful(c, t, run[1..]);
    }
  }

  /**
   * As long as request ids are not reused, every job is at any time in the queue (while it
   * waits), in the active map (while it runs) or in neither, never in both or twice.
   */
  lemma OnePlaceEach(c: Config, run: seq<Action>)
    requires ValidConfig(c) && Possible(c, Initial(c), run)
    requires DistinctIds(Exec(c, Initial(c), run).jobs)
    ensures Faithful(Exec(c, Initial(c), run))
    ensures var s := Exec(c, Initial(c), run); forall x :: x in s.queue ==> x !in s.active
  {
    InitialInv(c);
    RunStaysFaithful(c, Initial(c), run);
    RunKeepsInv(c, Initial(c), run);
    var s := Exec(c, Initial(c), run);
    forall x | x in s.queue
      ensures x !in s.active
    {
      var j :| j in s.jobs && Waits(j.phase) && j.id == x;
      var i :| 0 <= i < |s.jobs| && s.jobs[i] == j;
      assert Placed(s, s.jobs[i]);
    }
  }

  // ----- Draining -----

  function Rank(p: Phase): nat {
    match p
    case Checked => 7
    case Queued => 6
    case Acquired => 5
    case Dequeued => 4
    case Active => 3
    case Delivered => 2
    case Removed => 1
    case Done => 0
  }

  /** The number of steps that all jobs together still have to take. */
  function Remaining(jobs: seq<Job>): nat {
    if jobs == [] then 0 else Remaining(jobs[..|jobs| - 1]) + Rank(jobs[|jobs| - 1].phase)
  }

  lemma {:induction false} RemainingUpdate(jobs: seq<Job>, i: nat, j: Job)
    requires i < |jobs|
    ensures Remaining(jobs[i := j]) == Remaining(jobs) - Rank(jobs[i].phase) + Rank(j.phase)
  {
    var n := |jobs| - 1;
    if i < n {
      RemainingUpdate(jobs[..n], i, j);
      assert jobs[i := j][..n] == jobs[..n][i := j];
    } else {
      assert jobs[i := j][..n] == jobs[..n];
    }
  }

  lemma {:induction false} NothingRemains(jobs: seq<Job>)
    requires forall i :: 0 <= i < |jobs| ==> jobs[i].phase == Done
    ensures Remaining(jobs) == 0 && Count(jobs, HoldsPermit) == 0
    ensures Ids(jobs, Waits) == {} && Ids(jobs, Runs) == {}
  {
    if jobs != [] {
      NothingRemains(jobs[..|jobs| - 1]);
    }
  }

  lemma {:induction false} NoHolder(jobs: seq<Job>)
    requires forall i :: 0 <= i < |jobs| ==> !HoldsPermit(jobs[i].phase)
    ensures Count(jobs, HoldsPermit) == 0
  {
    if jobs != [] {
      NoHolder(jobs[..|jobs| - 1]);
    }
  }

  /** Nothing goes on but what callers may do: submit, or drop a stream. */
  ghost predicate Stuck(c: Config, s: State) {
    forall a: Action :: MovesJob(a) ==> !Enabled(c, s, a)
  }

  /** The next action of a job. */
  function NextAction(p: Phase, i: nat): Action
    requires p != Done
  {
    match p
    case Checked => Push(i)
    case Queued => Acquire(i)
    case Acquired => Dequeue(i)
    case Dequeued => Activate(i)
    case Active => Deliver(i, true)
    case Delivered => Deactivate(i)
    case Removed => Drop(i)
  }

  /** No deadlock: a state in which nothing moves has finished every job. */
  lemma StuckMeansDone(c: Config, s: State)
    requires ValidConfig(c) && Inv(c, s) && Stuck(c, s)
    ensures forall i :: 0 <= i < |s.jobs| ==> s.jobs[i].phase == Done
  {
    forall i | 0 <= i < |s.jobs|
      ensures s.jobs[i].phase == Done || s.jobs[i].phase == Queued
    {
      if s.jobs[i].phase != Done {
        assert !Enabled(c, s, NextAction(s.jobs[i].phase, i));
      }
    }
    NoHolder(s.jobs);
    forall i | 0 <= i < |s.jobs|
      ensures s.jobs[i].phase == Done
    {
      assert !Enabled(c, s, Acquire(i));
    }
  }

  predicate NoSubmission(run: seq<Action>) {
    forall i :: 0 <= i < |run| ==> !run[i].Check?
  }

  /** How many steps of a run move a job. */
  function Moves(run: seq<Action>): nat {
    if run == [] then 0 else (if MovesJob(run[0]) then 1 else 0) + Moves(run[1..])
  }

  /** How many streams are dropped in a run. */
  function Consumed(run: seq<Action>): nat {
    if run == [] then 0 else (if run[0].Consume? then 1 else 0) + Consumed(run[1..])
  }

  lemma {:induction false} MovesAndConsumed(run: seq<Action>)
    requires NoSubmission(run)
    ensures |run| == Moves(run) + Consumed(run)
    decreases |run|
  {
    if run != [] {
      MovesAndConsumed(run[1..]);
    }
  }

  lemma MoveTakesOne(c: Config, s: State, a: Action)
    requires MovesJob(a) && Enabled(c, s, a)
    ensures Remaining(Apply(c, s, a).jobs) + 1 == Remaining(s.jobs)
  {
    RemainingUpdate(s.jobs, a.job, s.jobs[a.job].(phase := After(a)));
  }

  /** Every step of a submitter or task takes exactly one off what remains. */
  lemma {:induction false} StepsAreCounted(c: Config, s: State, run: seq<Action>)
    requires Possible(c, s, run) && NoSubmission(run)
    ensures Moves(run) + Remaining(Exec(c, s, run).jobs) == Remaining(s.jobs)
    decreases |run|
  {
    if run != [] {
      var a := run[0];
      if MovesJob(a) {
        MoveTakesOne(c, s, a);
      }
      StepsAreCounted(c, Apply(c, s, a), run[1..]);
    }
  }

  /** The streams that are open or may still be handed over. */
  function StreamsLeft(s: State): nat {
    |s.open| + Count(s.jobs, IsUndelivered)
  }

  lemma StepLeavesStreams(c: Config, s: State, a: Action)
    requires !a.Check? && Enabled(c, s, a)
    ensures StreamsLeft(Apply(c, s, a)) + (if a.Consume? then 1 else 0) <= StreamsLeft(s)
  {
    if MovesJob(a) {
      MoveCounts(s, a, IsUndelivered);
    }
  }

  /** No stream is dropped twice. */
  lemma {:induction false} ConsumesAreBounded(c: Config, s: State, run: seq<Action>)
    requires Possible(c, s, run) && NoSubmission(run)
    ensures Consumed(run) + StreamsLeft(Exec(c, s, run)) <= StreamsLeft(s)
    decreases |run|
  {
    if run != [] {
      StepLeavesStreams(c, s, run[0]);
      ConsumesAreBounded(c, Apply(c, s, run[0]), run[1..]);
    }
  }

  lemma HasElement(queue: seq<RequestId>)
    ensures queue != [] ==> exists x :: x in queue
  {
    if queue != [] {
      assert queue[0] in queue;
    }
  }

  lemma DoneIsEmpty(c: Config, s: State)
    requires Inv(c, s) && forall i :: 0 <= i < |s.jobs| ==> s.jobs[i].phase == Done
    ensures Remaining(s.jobs) == 0 && s.permits == c.maxConcurrent && s.queue == [] && s.active == {}
  {
    NothingRemains(s.jobs);
    assert forall x :: x !in s.queue;
    HasElement(s.queue);
  }

  /**
   * Once nobody submits any more, every run is bounded by the steps that remain and the
   * streams that are left, and when it leaves the tasks nothing to do it has taken all those
   * steps: every job is done, all permits are free, and queue and active map are empty,
   * whether or not the callers have dropped their streams.
   */
  lemma DrainsCompletely(c: Config, before: seq<Action>, run: seq<Action>)
    requires ValidConfig(c) && Possible(c, Initial(c), before)
    requires Possible(c, Exec(c, Initial(c), before), run) && NoSubmission(run)
    ensures var s := Exec(c, Initial(c), before); var t := Exec(c, s, run);
      && |run| <= Remaining(s.jobs) + StreamsLeft(s)
      && (Stuck(c, t) ==>
        && Moves(run) == Remaining(s.jobs)
        && (forall i :: 0 <= i < |t.jobs| ==> t.jobs[i].phase == Done)
        && t.permits == c.maxConcurrent && t.queue == [] && t.active == {})
  {
    var s := Exec(c, Initial(c), before);
    var t := Exec(c, s, run);
    InitialInv(c);
    RunKeepsInv(c, Initial(c), before);
    RunKeepsInv(c, s, run);
    StepsAreCounted(c, s, run);
    ConsumesAreBounded(c, s, run);
    MovesAndConsumed(run);
    if Stuck(c, t) {
      StuckMeansDone(c, t);
      DoneIsEmpty(c, t);
    }
  }
}
