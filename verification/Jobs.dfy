/**
 * The job store and its deadline sweep. Every store call is one step, so handlers may run
 * between the sweep's lookup of overdue jobs and its two marks on each of them, and neither
 * `mark` nor `complete` looks at the status it overwrites.
 */
module Jobs {
  import opened Collections
  import opened Machine
  import opened Options

  type RequestId = nat
  datatype Status = Dispatched | Acked | Completed | TimedOut | Failed

  datatype Metrics = Metrics(inputTokens: nat, outputTokens: nat, latency: nat, fallbackFrom: Option<string>)

  datatype Job = Job(model: string, status: Status, deadline: Uint64, metrics: Metrics)

  type Store = map<RequestId, Job>

  // ----- Single calls -----

  function NoMetrics(): Metrics {
    Metrics(0, 0, 0, None)
  }

  /** `JobRecord::dispatched`: the deadline saturates. */
  function NewJob(model: string, now: Uint64, timeout: Uint64): Job {
    Job(model, Dispatched, SaturatingAdd(now, timeout), NoMetrics())
  }

  predicate IsTerminal(s: Status) {
    s == Completed || s == Failed
  }

  function Push(store: Store, id: RequestId, job: Job): Store {
    if id in store then store else store[id := job]
  }

  function Mark(store: Store, id: RequestId, status: Status): Store {
    if id in store then store[id := store[id].(status := status)] else store
  }

  function Complete(store: Store, id: RequestId, metrics: Metrics): Store {
    if id in store then store[id := store[id].(status := Completed, metrics := metrics)] else store
  }

  /** The in-memory filter of `due`. */
  predicate IsDue(job: Job, now: Uint64) {
    !IsTerminal(job.status) && job.status != TimedOut && job.deadline <= now
  }

  function DueIds(store: Store, now: Uint64): set<RequestId> {
    set id | id in store && IsDue(store[id], now)
  }

  /**
   * A new job is dispatched, without metrics, and due from the end of its timeout on, or from
   * the last millisecond there is.
   */
  lemma NewJobDueIff(model: string, now: Uint64, timeout: Uint64, clock: Uint64)
    ensures var job := NewJob(model, now, timeout);
      && job.model == model && job.status == Dispatched && job.metrics == Metrics(0, 0, 0, None)
      && (now + timeout < 0x1_0000_0000_0000_0000 ==> (IsDue(job, clock) <==> clock >= now + timeout))
      && (now + timeout >= 0x1_0000_0000_0000_0000 ==> (IsDue(job, clock) <==> clock == 0xFFFF_FFFF_FFFF_FFFF))
  {
  }

  // ----- The SQL filter -----

  function StatusText(s: Status): string {
    match s
    case Dispatched => "Dispatched"
    case Acked => "Acked"
    case Completed => "Completed"
    case TimedOut => "TimedOut"
    case Failed => "Failed"
  }

  function StatusFromText(t: string): Option<Status> {
    if t == "Dispatched" then Some(Dispatched)
    else if t == "Acked" then Some(Acked)
    else if t == "Completed" then Some(Completed)
    else if t == "TimedOut" then Some(TimedOut)
    else if t == "Failed" then Some(Failed)
    else None
  }

  /** `status IN ('Dispatched', 'Acked') AND deadline_ms <= $1`, both numbers cast to `i64`. */
  predicate SqlIsDue(job: Job, now: Uint64) {
    (StatusText(job.status) == "Dispatched" || StatusText(job.status) == "Acked")
    && WrapI64(job.deadline) <= WrapI64(now)
  }

  /** `from_str` gives a status for its own text and for no other. */
  lemma StatusTextRoundTrip(s: Status, t: string)
    ensures StatusFromText(t) == Some(s) <==> t == StatusText(s)
  {
    var a, b, c, d, e := "Dispatched", "Acked", "Completed", "TimedOut", "Failed";
    assert a[0] == 'D' && b[0] == 'A' && c[0] == 'C' && d[0] == 'T' && e[0] == 'F';
  }

  lemma StatusTextInjective(s: Status, t: Status)
    ensures StatusText(s) == StatusText(t) <==> s == t
  {
    StatusTextRoundTrip(s, StatusText(s));
    StatusTextRoundTrip(t, StatusText(s));
  }

  lemma WrapI64Sign(n: Uint64)
    ensures WrapI64(n) == if n < I64 then n else n - U64
  {
  }

  /**
   * The two backends agree on an unfinished job exactly when its deadline and the clock lie
   * on the same side of 2^63.
   */
  lemma FiltersAgreeIff(job: Job, now: Uint64)
    ensures (IsDue(job, now) <==> SqlIsDue(job, now)) <==>
      (job.status != Dispatched && job.status != Acked) || (job.deadline < I64 <==> now < I64)
  {
    StatusTextInjective(job.status, Dispatched);
    StatusTextInjective(job.status, Acked);
    WrapI64Sign(job.deadline);
    WrapI64Sign(now);
  }

  /** A timeout that saturates the deadline: never due in memory, due at once in SQL. */
  lemma SaturatedDeadlineDiffers(model: string, now: Uint64)
    requires now < I64
    ensures var job := NewJob(model, now, U64 - 1);
      !IsDue(job, now) && SqlIsDue(job, now)
  {
    var job := NewJob(model, now, U64 - 1);
    assert job.deadline == U64 - 1;
    WrapI64Sign(now);
    WrapI64Sign(U64 - 1);
  }

  // ----- The sweep among the handlers -----

  /** `due` is what the sweep found; `next` is the job at hand, `half` whether its first mark is set. */
  datatype Sweeper = Idle | Sweeping(due: seq<RequestId>, next: nat, half: bool)

  /** `stranded` are the jobs on which a sweep has broken off between its two marks. */
  datatype State = State(store: Store, sweeper: Sweeper, stranded: set<RequestId>)

  /** The sweep's steps, and the store calls that request handlers make. */
  datatype Action =
    | StartSweep(now: Uint64, found: seq<RequestId>)
    | MarkTimedOut
    | MarkFailed
    | FinishSweep
    | AbortSweep // a store call has failed, or the process has ended
    | HandlerPush(id: RequestId, job: Job)
    | HandlerComplete(id: RequestId, metrics: Metrics)
    | HandlerFail(id: RequestId)

  ghost predicate Enabled(s: State, a: Action) {
    match a
    case StartSweep(now, found) => s.sweeper.Idle? && Lists(found, DueIds(s.store, now))
    case MarkTimedOut => s.sweeper.Sweeping? && s.sweeper.next < |s.sweeper.due| && !s.sweeper.half
    case MarkFailed => s.sweeper.Sweeping? && s.sweeper.next < |s.sweeper.due| && s.sweeper.half
    case AbortSweep => s.sweeper.Sweeping?
    case FinishSweep => s.sweeper.Sweeping? && s.sweeper.next == |s.sweeper.due| && !s.sweeper.half
    case HandlerPush(_, job) => job.status == Dispatched
    case _ => true
  }

  predicate BetweenMarks(s: State, id: RequestId) {
    s.sweeper.Sweeping? && s.sweeper.half && s.sweeper.next < |s.sweeper.due| && s.sweeper.due[s.sweeper.next] == id
  }

  /** The job that a sweep breaking off now would leave between its marks. */
  function Stranding(s: State): set<RequestId> {
    if s.sweeper.Sweeping? && s.sweeper.half && s.sweeper.next < |s.sweeper.due| then {s.sweeper.due[s.sweeper.next]}
    else {}
  }

  function Apply(s: State, a: Action): State
    requires Enabled(s, a)
  {
    match a
    case StartSweep(now, found) => s.(sweeper := Sweeping(found, 0, false))
    case MarkTimedOut =>
      s.(store := Mark(s.store, s.sweeper.due[s.sweeper.next], TimedOut), sweeper := s.sweeper.(half := true))
    case MarkFailed =>
      s.(store := Mark(s.store, s.sweeper.due[s.sweeper.next], Failed),
         sweeper := s.sweeper.(half := false, next := s.sweeper.next + 1))
    case FinishSweep => s.(sweeper := Idle)
    case AbortSweep => s.(sweeper := Idle, stranded := s.stranded + Stranding(s))
    case HandlerPush(id, job) => s.(store := Push(s.store, id, job))
    case HandlerComplete(id, metrics) => s.(store := Complete(s.store, id, metrics))
    case HandlerFail(id) => s.(store := Mark(s.store, id, Failed))
  }

  ghost predicate Possible(s: State, run: seq<Action>)
    decreases |run|
  {
    run == [] || (Enabled(s, run[0]) && Possible(Apply(s, run[0]), run[1..]))
  }

  function Exec(s: State, run: seq<Action>): State
    requires Possible(s, run)
    decreases |run|
  {
    if run == [] then s else Exec(Apply(s, run[0]), run[1..])
  }

  // ----- What every run keeps -----

  /**
   * A job is `TimedOut` only between the two marks of a sweep on it, or where a sweep broke
   * off there, and the jobs that the sweep has passed are terminal.
   */
  predicate Inv(s: State) {
    && (forall id :: id in s.store && s.store[id].status == TimedOut ==> BetweenMarks(s, id) || id in s.stranded)
    && (s.sweeper.Sweeping? ==>
      && s.sweeper.next <= |s.sweeper.due|
      && (s.sweeper.half ==> s.sweeper.next < |s.sweeper.due|)
      && NoRepeats(s.sweeper.due)
      && (forall i :: 0 <= i < |s.sweeper.due| ==> s.sweeper.due[i] in s.store)
      && (forall i :: 0 <= i < s.sweeper.next ==> IsTerminal(s.store[s.sweeper.due[i]].status)))
  }

  lemma StepKeepsInv(s: State, a: Action)
    requires Inv(s) && Enabled(s, a)
    ensures Inv(Apply(s, a))
  {
    match a
    case StartSweep(now, found) =>
      assert forall i :: 0 <= i < |found| ==> found[i] in DueIds(s.store, now);
    case _ =>
  }

  /** From a store without `TimedOut` jobs, with no sweep under way. */
  lemma {:induction false} RunKeepsInv(s: State, run: seq<Action>)
    requires Inv(s) && Possible(s, run)
    ensures Inv(Exec(s, run))
    decreases |run|
  {
    if run != [] {
      StepKeepsInv(s, run[0]);
      RunKeepsInv(Apply(s, run[0]), run[1..]);
    }
  }

  function Start(store: Store): State {
    State(store, Idle, {})
  }

  predicate NoAbort(run: seq<Action>) {
    forall i :: 0 <= i < |run| ==> !run[i].AbortSweep?
  }

  lemma {:induction false} NoneStranded(s: State, run: seq<Action>)
    requires Possible(s, run) && NoAbort(run)
    ensures Exec(s, run).stranded == s.stranded
    decreases |run|
  {
    if run != [] {
      NoneStranded(Apply(s, run[0]), run[1..]);
    }
  }

  /**
   * In every interleaving of sweeps with request handlers: when no sweep is between its two
   * marks, nothing is `TimedOut` but what a sweep that broke off has left so (nothing at all,
   * if none broke off), and when a sweep is about to return every job that it found is
   * completed or failed.
   */
  lemma SweepSettlesItsJobs(store: Store, run: seq<Action>)
    requires forall id :: id in store ==> store[id].status != TimedOut
    requires Possible(Start(store), run)
    ensures var s := Exec(Start(store), run);
      && (s.sweeper.Idle? || !s.sweeper.half ==>
        forall id :: id in s.store && s.store[id].status == TimedOut ==> id in s.stranded)
      && (NoAbort(run) ==> s.stranded == {})
      && (Enabled(s, FinishSweep) ==>
        forall i :: 0 <= i < |s.sweeper.due| ==>
          s.sweeper.due[i] in s.store && IsTerminal(s.store[s.sweeper.due[i]].status))
  {
    RunKeepsInv(Start(store), run);
    if NoAbort(run) {
      NoneStranded(Start(store), run);
    }
  }

  predicate IsSweepStep(a: Action) {
    a.StartSweep? || a.MarkTimedOut? || a.MarkFailed? || a.FinishSweep? || a.AbortSweep?
  }

  /** The jobs that the sweep has still to mark as failed. */
  function Pending(s: State): seq<RequestId> {
    if s.sweeper.Sweeping? && s.sweeper.next <= |s.sweeper.due| then s.sweeper.due[s.sweeper.next..] else []
  }

  /** A sweep touches only statuses, and only those of jobs it found. */
  lemma SweepTouchesOnlyItsJobs(s: State, a: Action, id: RequestId)
    requires Enabled(s, a) && IsSweepStep(a)
    ensures Apply(s, a).store.Keys == s.store.Keys
    ensures id in s.store ==> Apply(s, a).store[id] == s.store[id].(status := Apply(s, a).store[id].status)
    ensures id in s.store && id !in Pending(s) ==> Apply(s, a).store[id] == s.store[id]
  {
    if a.MarkTimedOut? || a.MarkFailed? {
      assert Pending(s)[0] == s.sweeper.due[s.sweeper.next];
    }
  }

  lemma PendingTail(s: State)
    requires Enabled(s, MarkFailed)
    ensures Pending(s) == [s.sweeper.due[s.sweeper.next]] + Pending(Apply(s, MarkFailed))
  {
  }

  // ----- Jobs outside every sweep -----

  function Lookup(store: Store, id: RequestId): Option<Job> {
    if id in store then Some(store[id]) else None
  }

  /** What one action of a handler makes of a job. */
  function HandlerEffect(job: Option<Job>, a: Action, id: RequestId): Option<Job> {
    match a
    case HandlerPush(i, pushed) => if i == id && job.None? then Some(pushed) else job
    case HandlerComplete(i, metrics) =>
      if i == id && job.Some? then Some(job.value.(status := Completed, metrics := metrics)) else job
    case HandlerFail(i) => if i == id && job.Some? then Some(job.value.(status := Failed)) else job
    case _ => job
  }

  function HandlersAlone(job: Option<Job>, run: seq<Action>, id: RequestId): Option<Job>
    decreases |run|
  {
    if run == [] then job else HandlersAlone(HandlerEffect(job, run[0], id), run[1..], id)
  }

  predicate NeverFound(run: seq<Action>, id: RequestId) {
    forall i :: 0 <= i < |run| && run[i].StartSweep? ==> id !in run[i].found
  }

  lemma StepOutsideSweep(s: State, a: Action, id: RequestId)
    requires Enabled(s, a) && id !in Pending(s) && NeverFound([a], id)
    ensures Lookup(Apply(s, a).store, id) == HandlerEffect(Lookup(s.store, id), a, id)
    ensures id !in Pending(Apply(s, a))
  {
    assert [a][0] == a;
    if IsSweepStep(a) {
      SweepTouchesOnlyItsJobs(s, a, id);
      if a.MarkFailed? {
        PendingTail(s);
      }
    }
  }

  /**
   * Over every run with any number of sweeps: a job that none of them found is, status and
   * metrics and all, what the handlers alone make of it.
   */
  lemma {:induction false} SweepsLeaveOthersAlone(s: State, run: seq<Action>, id: RequestId)
    requires Possible(s, run) && id !in Pending(s) && NeverFound(run, id)
    ensures Lookup(Exec(s, run).store, id) == HandlersAlone(Lookup(s.store, id), run, id)
    decreases |run|
  {
    if run != [] {
      assert NeverFound([run[0]], id);
      StepOutsideSweep(s, run[0], id);
      assert NeverFound(run[1..], id);
      SweepsLeaveOthersAlone(Apply(s, run[0]), run[1..], id);
    }
  }

  // ----- A sweep that breaks off -----

  predicate NoHandlerOn(run: seq<Action>, id: RequestId) {
    forall i :: 0 <= i < |run| ==>
      (run[i].HandlerComplete? || run[i].HandlerFail? ==> run[i].id != id)
  }

  /**
   * A job that a sweep has left `TimedOut` is found by no later sweep, and stays as it is until
   * a handler completes or fails it.
   */
  lemma {:induction false} StrandedForGood(s: State, run: seq<Action>, id: RequestId)
    requires Possible(s, run) && NoHandlerOn(run, id)
    requires id in s.store && s.store[id].status == TimedOut && id !in Pending(s)
    ensures NeverFound(run, id)
    ensures id in Exec(s, run).store && Exec(s, run).store[id] == s.store[id]
    decreases |run|
  {
    if run != [] {
      var a, t := run[0], Apply(s, run[0]);
      assert a.StartSweep? ==> (id in a.found <==> id in DueIds(s.store, a.now));
      assert NeverFound([a], id);
      StepOutsideSweep(s, a, id);
      StrandedForGood(t, run[1..], id);
      assert forall i :: 1 <= i < |run| ==> run[i] == run[1..][i - 1];
    }
  }

  /** Breaking off between the marks strands the job at hand: nothing is pending any more. */
  lemma AbortStrands(s: State, id: RequestId)
    requires Inv(s) && BetweenMarks(s, id)
    ensures Enabled(s, AbortSweep)
    ensures var t := Apply(s, AbortSweep);
      t.store == s.store && id in t.store && id in t.stranded && Pending(t) == []
  {
  }

  // ----- When a completion survives -----

  predicate MarksJob(s: State, a: Action, id: RequestId) {
    && (a.MarkTimedOut? || a.MarkFailed?)
    && s.sweeper.Sweeping? && s.sweeper.next < |s.sweeper.due| && s.sweeper.due[s.sweeper.next] == id
  }

  /** How many marks sweeps make on a job in a run. */
  function Marks(s: State, run: seq<Action>, id: RequestId): nat
    requires Possible(s, run)
    decreases |run|
  {
    if run == [] then 0
    else (if MarksJob(s, run[0], id) then 1 else 0) + Marks(Apply(s, run[0]), run[1..], id)
  }

  /** The sweep that is under way comes to its end, and is the first to do so. */
  predicate SweepFinishes(run: seq<Action>)
    decreases |run|
  {
    run != [] && !run[0].AbortSweep? && (run[0].FinishSweep? || SweepFinishes(run[1..]))
  }

  lemma StepStatus(s: State, a: Action, id: RequestId)
    requires Enabled(s, a) && NoHandlerOn([a], id) && id in s.store
    ensures id in Apply(s, a).store
    ensures !MarksJob(s, a, id) ==> Apply(s, a).store[id].status == s.store[id].status
    ensures MarksJob(s, a, id) ==> Apply(s, a).store[id].status == if a.MarkFailed? then Failed else TimedOut
  {
    assert [a][0] == a;
  }

  /** Without its handlers a job is completed afterwards exactly if it was before and no sweep marked it. */
  lemma {:induction false} CompletedIffUnmarked(s: State, run: seq<Action>, id: RequestId)
    requires Possible(s, run) && NoHandlerOn(run, id) && id in s.store
    ensures id in Exec(s, run).store
    ensures Exec(s, run).store[id].status == Completed <==> s.store[id].status == Completed && Marks(s, run, id) == 0
    decreases |run|
  {
    if run != [] {
      assert NoHandlerOn([run[0]], id);
      StepStatus(s, run[0], id);
      CompletedIffUnmarked(Apply(s, run[0]), run[1..], id);
    }
  }

  lemma StepLeavesOthers(s: State, a: Action, id: RequestId)
    requires Inv(s) && Enabled(s, a) && NoHandlerOn([a], id) && id in s.store
    ensures id in Apply(s, a).store
    ensures id !in Pending(s) ==> Apply(s, a).store[id].status == s.store[id].status
    ensures id !in Pending(s) && IsTerminal(s.store[id].status) ==> id !in Pending(Apply(s, a))
    ensures id in Pending(s) && !a.AbortSweep? ==> id in Pending(Apply(s, a)) || Apply(s, a).store[id].status == Failed
  {
    assert [a][0] == a;
    if IsSweepStep(a) {
      SweepTouchesOnlyItsJobs(s, a, id);
      if a.MarkFailed? {
        PendingTail(s);
      } else if a.StartSweep? {
        assert Pending(Apply(s, a)) == a.found;
        assert id in a.found ==> id in DueIds(s.store, a.now);
      } else if a.MarkTimedOut? {
        assert Pending(Apply(s, a)) == Pending(s);
      }
    }
  }

  lemma {:induction false} TerminalOutsideStays(s: State, run: seq<Action>, id: RequestId)
    requires Inv(s) && Possible(s, run) && NoHandlerOn(run, id)
    requires id in s.store && IsTerminal(s.store[id].status) && id !in Pending(s)
    ensures id in Exec(s, run).store && Exec(s, run).store[id].status == s.store[id].status
    decreases |run|
  {
    if run != [] {
      assert NoHandlerOn([run[0]], id);
      StepLeavesOthers(s, run[0], id);
      StepKeepsInv(s, run[0]);
      TerminalOutsideStays(Apply(s, run[0]), run[1..], id);
    }
  }

  lemma {:induction false} PendingFails(s: State, run: seq<Action>, id: RequestId)
    requires Inv(s) && Possible(s, run) && NoHandlerOn(run, id)
    requires id in s.store && id in Pending(s) && SweepFinishes(run)
    ensures id in Exec(s, run).store && Exec(s, run).store[id].status == Failed
    decreases |run|
  {
    var t := Apply(s, run[0]);
    assert NoHandlerOn([run[0]], id);
    StepLeavesOthers(s, run[0], id);
    StepKeepsInv(s, run[0]);
    if id in Pending(t) {
      PendingFails(t, run[1..], id);
    } else {
      TerminalOutsideStays(t, run[1..], id);
    }
  }

  /**
   * Exactly when a completion survives, if no handler touches the job again: when no sweep
   * marks it afterwards. It is safe from every sweep if it is not among the jobs still pending
   * in the one under way; if it is among them and that sweep comes to its end, it is failed.
   */
  lemma CompletionSurvivesIff(s: State, run: seq<Action>, id: RequestId)
    requires Inv(s) && Possible(s, run) && NoHandlerOn(run, id)
    requires id in s.store && s.store[id].status == Completed
    ensures id in Exec(s, run).store
    ensures Exec(s, run).store[id].status == Completed <==> Marks(s, run, id) == 0
    ensures id !in Pending(s) ==> Exec(s, run).store[id].status == Completed
    ensures id in Pending(s) && SweepFinishes(run) ==> Exec(s, run).store[id].status == Failed
  {
    CompletedIffUnmarked(s, run, id);
    if id !in Pending(s) {
      TerminalOutsideStays(s, run, id);
    } else if SweepFinishes(run) {
      PendingFails(s, run, id);
    }
  }

  /** The race, step by step: found due, completed by its handler, and failed by the sweep. */
  lemma CompletionLost(id: RequestId, job: Job, now: Uint64, metrics: Metrics)
    requires IsDue(job, now)
    ensures var s := Start(map[id := job]);
      var run := [StartSweep(now, [id]), HandlerComplete(id, metrics), MarkTimedOut, MarkFailed, FinishSweep];
      && Possible(s, run)
      && Exec(s, run).store == map[id := job.(status := Failed, metrics := metrics)]
  {
    var s0 := Start(map[id := job]);
    assert Lists([id], DueIds(s0.store, now));
    var r4: seq<Action> := [FinishSweep];
    var r3 := [MarkFailed, FinishSweep];
    var r2 := [MarkTimedOut, MarkFailed, FinishSweep];
    var r1 := [HandlerComplete(id, metrics), MarkTimedOut, MarkFailed, FinishSweep];
    var r0 := [StartSweep(now, [id]), HandlerComplete(id, metrics), MarkTimedOut, MarkFailed, FinishSweep];
    assert r0[1..] == r1 && r1[1..] == r2 && r2[1..] == r3 && r3[1..] == r4 && r4[1..] == [];
    var s1 := Apply(s0, r0[0]);
    var s2 := Apply(s1, r1[0]);
    var s3 := Apply(s2, r2[0]);
    var s4 := Apply(s3, r3[0]);
    var s5 := Apply(s4, r4[0]);
    assert Possible(s5, []) && Possible(s4, r4) && Possible(s3, r3) && Possible(s2, r2) && Possible(s1, r1);
    assert Exec(s0, r0) == Exec(s1, r1) == Exec(s2, r2) == Exec(s3, r3) == Exec(s4, r4) == s5;
    assert s5.store == map[id := job.(status := Failed, metrics := metrics)];
  }

  // ----- The store, and the sweep undisturbed -----

  /** What an undisturbed sweep leaves. */
  function Swept(store: Store, now: Uint64): Store {
    map id | id in store :: if IsDue(store[id], now) then store[id].(status := Failed) else store[id]
  }

  /** The two marks on each of `n` jobs. */
  function Marking(n: nat): seq<Action> {
    if n == 0 then [] else [MarkTimedOut, MarkFailed] + Marking(n - 1)
  }

  /** A sweep with nothing in between. */
  function SweepRun(now: Uint64, found: seq<RequestId>): seq<Action> {
    [StartSweep(now, found)] + (Marking(|found|) + [FinishSweep])
  }

  function FailedAt(store: Store, ids: seq<RequestId>): Store {
    map id | id in store :: if id in ids then store[id].(status := Failed) else store[id]
  }

  lemma PossibleCons(s: State, a: Action, run: seq<Action>)
    requires Enabled(s, a) && Possible(Apply(s, a), run)
    ensures Possible(s, [a] + run) && Exec(s, [a] + run) == Exec(Apply(s, a), run)
  {
    assert ([a] + run)[1..] == run;
  }

  /** Both marks on the job at hand. */
  lemma MarkOne(s: State)
    requires s.sweeper.Sweeping? && !s.sweeper.half && s.sweeper.next < |s.sweeper.due|
    requires s.sweeper.due[s.sweeper.next] in s.store
    ensures Enabled(s, MarkTimedOut) && Enabled(Apply(s, MarkTimedOut), MarkFailed)
    ensures var id := s.sweeper.due[s.sweeper.next];
      Apply(Apply(s, MarkTimedOut), MarkFailed) ==
      s.(store := s.store[id := s.store[id].(status := Failed)], sweeper := s.sweeper.(next := s.sweeper.next + 1))
  {
  }

  lemma FailedAtStep(store: Store, id: RequestId, rest: seq<RequestId>)
    requires id in store
    ensures FailedAt(store[id := store[id].(status := Failed)], rest) == FailedAt(store, [id] + rest)
  {
  }

  lemma {:induction false} SweepRunsToItsEnd(s: State)
    requires s.sweeper.Sweeping? && !s.sweeper.half && s.sweeper.next <= |s.sweeper.due|
    requires forall i :: 0 <= i < |s.sweeper.due| ==> s.sweeper.due[i] in s.store
    ensures var run := Marking(|s.sweeper.due| - s.sweeper.next) + [FinishSweep];
      && Possible(s, run)
      && Exec(s, run) == s.(store := FailedAt(s.store, s.sweeper.due[s.sweeper.next..]), sweeper := Idle)
    decreases |s.sweeper.due| - s.sweeper.next
  {
    var due, next := s.sweeper.due, s.sweeper.next;
    if next == |due| {
      assert FailedAt(s.store, due[next..]) == s.store;
      PossibleCons(s, FinishSweep, []);
      assert Marking(0) + [FinishSweep] == [FinishSweep] + [];
    } else {
      var t := Apply(s, MarkTimedOut);
      var u := Apply(t, MarkFailed);
      MarkOne(s);
      SweepRunsToItsEnd(u);
      var rest := Marking(|due| - next - 1) + [FinishSweep];
      PossibleCons(t, MarkFailed, rest);
      PossibleCons(s, MarkTimedOut, [MarkFailed] + rest);
      assert Marking(|due| - next) + [FinishSweep] == [MarkTimedOut] + ([MarkFailed] + rest);
      FailedAtStep(s.store, due[next], due[next + 1..]);
      assert due[next..] == [due[next]] + due[next + 1..];
    }
  }

  /**
   * The undisturbed sweep is a run of the machine above: for every order in which the due jobs
   * are found, the lookup, the two marks on each of them and the end are possible, and leave
   * exactly this store.
   */
  lemma SweptIsRun(store: Store, now: Uint64, found: seq<RequestId>)
    requires Lists(found, DueIds(store, now))
    ensures Possible(Start(store), SweepRun(now, found))
    ensures Exec(Start(store), SweepRun(now, found)) == Start(Swept(store, now))
  {
    var s := Start(store);
    assert forall i :: 0 <= i < |found| ==> found[i] in DueIds(store, now);
    var t := Apply(s, StartSweep(now, found));
    SweepRunsToItsEnd(t);
    PossibleCons(s, StartSweep(now, found), Marking(|found|) + [FinishSweep]);
    assert found[0..] == found;
    assert FailedAt(store, found) == Swept(store, now);
  }

  /**
   * What it leaves: the due jobs have failed and keep all else, the others are as they were,
   * nothing is due any more, and no job is newly `TimedOut`.
   */
  lemma SweptSettles(store: Store, now: Uint64)
    ensures Swept(store, now).Keys == store.Keys
    ensures forall id :: id in DueIds(store, now) ==> Swept(store, now)[id] == store[id].(status := Failed)
    ensures forall id :: id in store && id !in DueIds(store, now) ==> Swept(store, now)[id] == store[id]
    ensures DueIds(Swept(store, now), now) == {}
    ensures forall id :: id in store && Swept(store, now)[id].status == TimedOut ==> store[id].status == TimedOut
  {
  }

  class InMemoryJobStore {
    var jobs: Store

    constructor ()
      ensures jobs == map[]
    {
      jobs := map[];
    }

    method PushJob(id: RequestId, job: Job)
      modifies this
      ensures jobs == Push(old(jobs), id, job)
    {
      if id !in jobs {
        jobs := jobs[id := job];
      }
    }

    method MarkJob(id: RequestId, status: Status)
      modifies this
      ensures jobs == Mark(old(jobs), id, status)
    {
      if id in jobs {
        jobs := jobs[id := jobs[id].(status := status)];
      }
    }

    method CompleteJob(id: RequestId, metrics: Metrics)
      modifies this
      ensures jobs == Complete(old(jobs), id, metrics)
    {
      if id in jobs {
        var job := jobs[id].(status := Completed);
        job := job.(metrics := metrics);
        jobs := jobs[id := job];
      }
    }

    method Due(now: Uint64) returns (found: seq<RequestId>)
      ensures Lists(found, DueIds(jobs, now))
    {
      found := [];
      var rest := jobs.Keys;
      while rest != {}
        invariant rest <= jobs.Keys
        invariant NoRepeats(found)
        invariant forall id :: id in found <==> id in DueIds(jobs, now) && id !in rest
        decreases |rest|
      {
        var id :| id in rest;
        if IsDue(jobs[id], now) {
          found := found + [id];
        }
        rest := rest - {id};
      }
    }

    /** `sweep`, without anything in between. */
    method Sweep(now: Uint64)
      modifies this
      ensures jobs == Swept(old(jobs), now)
      ensures DueIds(jobs, now) == {}
      ensures forall id :: id in jobs ==> jobs[id].status == if id in DueIds(old(jobs), now) then Failed else old(jobs)[id].status
    {
      var due := Due(now);
      for i := 0 to |due|
        invariant jobs.Keys == old(jobs).Keys
        invariant forall id :: id in jobs && id !in due[..i] ==> jobs[id] == old(jobs)[id]
        invariant forall id :: id in due[..i] ==> id in jobs && jobs[id] == old(jobs)[id].(status := Failed)
      {
        assert due[..i + 1] == due[..i] + [due[i]];
        assert due[i] in due;
        assert due[i] !in due[..i];
        MarkJob(due[i], TimedOut);
        MarkJob(due[i], Failed);
      }
      assert due[..|due|] == due;
    }
  }
}
