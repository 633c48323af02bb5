/**
 The dispatch protocol of the job runtime as a state machine over its atomic
 steps. Every submission enqueues its job and then starts one runner thread;
 runners are serialised by a lock, and the one that holds it takes jobs until it
 finds the queue empty. The worker is assumed to take one queued job per call, to
 drop it from the queue even when its handler raises, and to report whether there
 was one.
 */
module JobDispatch {

  type Job = string

  /** A submitter before the enqueue, between enqueue and thread start, and after. */
  datatype Submitter = Ready(job: Job) | Enqueued | Returned

  /** A runner before the lock, asking for a job, running one, leaving the loop, and gone. */
  datatype Runner = Waiting | Asking | Running(job: Job) | Leaving | Exited

  datatype System = System(
    submitters: seq<Submitter>,
    runners: seq<Runner>,
    holder: int,             // index of the runner that holds the dispatch lock, or -1
    queue: seq<Job>,
    finished: seq<Job>)

  datatype Action =
    | Enqueue(s: nat)
    | Start(s: nat)
    | Acquire(r: nat)
    | Claim(r: nat, at: nat)   // the worker picks any queued job
    | FindNone(r: nat)
    | Finish(r: nat)           // with a result or with an exception
    | Release(r: nat)

  const UNLOCKED := -1

  predicate Enabled(y: System, a: Action) {
    match a
    case Enqueue(s) => s < |y.submitters| && y.submitters[s].Ready?
    case Start(s) => s < |y.submitters| && y.submitters[s].Enqueued?
    case Acquire(r) => r < |y.runners| && y.runners[r].Waiting? && y.holder == UNLOCKED
    case Claim(r, at) => r < |y.runners| && y.runners[r].Asking? && at < |y.queue|
    case FindNone(r) => r < |y.runners| && y.runners[r].Asking? && y.queue == []
    case Finish(r) => r < |y.runners| && y.runners[r].Running?
    case Release(r) => r < |y.runners| && y.runners[r].Leaving?
  }

  function Step(y: System, a: Action): System
    requires Enabled(y, a)
  {
    match a
    case Enqueue(s) =>
      y.(submitters := y.submitters[s := Enqueued], queue := y.queue + [y.submitters[s].job])
    case Start(s) =>
      y.(submitters := y.submitters[s := Returned], runners := y.runners + [Waiting])
    case Acquire(r) =>
      y.(runners := y.runners[r := Asking], holder := r)
    case Claim(r, at) =>
      y.(runners := y.runners[r := Running(y.queue[at])], queue := y.queue[..at] + y.queue[at + 1..])
    case FindNone(r) =>
      y.(runners := y.runners[r := Leaving])
    case Finish(r) =>
      y.(runners := y.runners[r := Asking], finished := y.finished + [y.runners[r].job])
    case Release(r) =>
      y.(runners := y.runners[r := Exited], holder := UNLOCKED)
  }

  /** No thread yet, nothing queued, and some submissions to come. */
  predicate Initial(y: System) {
    && (forall s :: 0 <= s < |y.submitters| ==> y.submitters[s].Ready?)
    && y.runners == [] && y.holder == UNLOCKED && y.queue == [] && y.finished == []
  }

  // ---------------------------------------------------------------------------
  // Invariants
  // ---------------------------------------------------------------------------

  predicate InLoop(r: Runner) {
    r.Asking? || r.Running? || r.Leaving?
  }

  /** Only the holder of the lock is between acquire and release. */
  ghost predicate Serialised(y: System) {
    && (y.holder == UNLOCKED || 0 <= y.holder < |y.runners|)
    && forall r :: 0 <= r < |y.runners| ==> (InLoop(y.runners[r]) <==> r == y.holder)
  }

  /** A runner that has yet to look at the queue once more before it exits. */
  predicate WillLook(r: Runner) {
    r.Waiting? || r.Asking? || r.Running?
  }

  /** Someone will still look at the queue: a runner, or a submitter about to start one. */
  ghost predicate Covered(y: System) {
    || (exists s :: 0 <= s < |y.submitters| && y.submitters[s].Enqueued?)
    || (exists r :: 0 <= r < |y.runners| && WillLook(y.runners[r]))
  }

  /** A wake-up is never lost: a queued job always has someone coming for it. */
  ghost predicate Awake(y: System) {
    y.queue != [] ==> Covered(y)
  }

  /** How often job `j` is still to be submitted, and how often it is being run. */
  function ToSubmit(xs: seq<Submitter>, j: Job): nat {
    if xs == [] then 0
    else ToSubmit(xs[..|xs| - 1], j) + if xs[|xs| - 1] == Ready(j) then 1 else 0
  }

  function InHand(xs: seq<Runner>, j: Job): nat {
    if xs == [] then 0
    else InHand(xs[..|xs| - 1], j) + if xs[|xs| - 1] == Running(j) then 1 else 0
  }

  /** The copies of a job in the system, wherever they are. */
  function Copies(y: System, j: Job): nat {
    ToSubmit(y.submitters, j) + multiset(y.queue)[j] + InHand(y.runners, j) + multiset(y.finished)[j]
  }

  lemma {:induction false} ToSubmitUpdate(xs: seq<Submitter>, s: nat, x: Submitter, j: Job)
    requires s < |xs|
    ensures ToSubmit(xs[s := x], j) ==
            ToSubmit(xs, j) - (if xs[s] == Ready(j) then 1 else 0) + if x == Ready(j) then 1 else 0
  {
    var n := |xs| - 1;
    if s < n {
      ToSubmitUpdate(xs[..n], s, x, j);
      assert xs[s := x][..n] == xs[..n][s := x];
    } else {
      assert xs[s := x][..n] == xs[..n];
    }
  }

  lemma {:induction false} InHandUpdate(xs: seq<Runner>, r: nat, x: Runner, j: Job)
    requires r < |xs|
    ensures InHand(xs[r := x], j) ==
            InHand(xs, j) - (if xs[r] == Running(j) then 1 else 0) + if x == Running(j) then 1 else 0
  {
    var n := |xs| - 1;
    if r < n {
      InHandUpdate(xs[..n], r, x, j);
      assert xs[r := x][..n] == xs[..n][r := x];
    } else {
      assert xs[r := x][..n] == xs[..n];
    }
  }

  /** No step loses or duplicates a job. */
  lemma JobsAreConserved(y: System, a: Action, j: Job)
    requires Enabled(y, a)
    ensures Copies(Step(y, a), j) == Copies(y, j)
  {
    match a
    case Enqueue(s) =>
      ToSubmitUpdate(y.submitters, s, Enqueued, j);
    case Start(s) =>
      ToSubmitUpdate(y.submitters, s, Returned, j);
      assert (y.runners + [Waiting])[..|y.runners|] == y.runners;
    case Acquire(r) =>
      InHandUpdate(y.runners, r, Asking, j);
    case Claim(r, at) =>
      InHandUpdate(y.runners, r, Running(y.queue[at]), j);
      assert y.queue == y.queue[..at] + [y.queue[at]] + y.queue[at + 1..];
    case FindNone(r) =>
      InHandUpdate(y.runners, r, Leaving, j);
    case Finish(r) =>
      InHandUpdate(y.runners, r, Asking, j);
    case Release(r) =>
      InHandUpdate(y.runners, r, Exited, j);
  }

  ghost predicate Inv(y: System) {
    Serialised(y) && Awake(y)
  }

  lemma SerialisedStep(y: System, a: Action)
    requires Serialised(y) && Enabled(y, a)
    ensures Serialised(Step(y, a))
  {
  }

  lemma AwakeStep(y: System, a: Action)
    requires Awake(y) && Enabled(y, a)
    ensures Awake(Step(y, a))
  {
    var z := Step(y, a);
    match a
    case Enqueue(s) =>
      assert z.submitters[s].Enqueued?;
    case Start(s) =>
      assert WillLook(z.runners[|y.runners|]);
    case FindNone(r) =>
    case Acquire(r) =>
      assert WillLook(z.runners[r]);
    case Claim(r, at) =>
      assert WillLook(z.runners[r]);
    case Finish(r) =>
      assert WillLook(z.runners[r]);
    case Release(r) =>
      if q :| 0 <= q < |y.runners| && WillLook(y.runners[q]) {
        assert WillLook(z.runners[q]);
      } else if Covered(y) {
        var s :| 0 <= s < |y.submitters| && y.submitters[s].Enqueued?;
        assert z.submitters[s].Enqueued?;
      }
  }

  // ---------------------------------------------------------------------------
  // Runs
  // ---------------------------------------------------------------------------

  ghost predicate IsRun(states: seq<System>, actions: seq<Action>) {
    && |states| == |actions| + 1
    && forall i :: 0 <= i < |actions| ==> Enabled(states[i], actions[i]) && states[i + 1] == Step(states[i], actions[i])
  }

  lemma {:induction false} RunKeepsInv(states: seq<System>, actions: seq<Action>, n: nat)
    requires IsRun(states, actions) && Initial(states[0]) && n <= |actions|
    ensures Inv(states[n]) && forall j :: Copies(states[n], j) == Copies(states[0], j)
  {
    if n > 0 {
      RunKeepsInv(states, actions, n - 1);
      SerialisedStep(states[n - 1], actions[n - 1]);
      AwakeStep(states[n - 1], actions[n - 1]);
      forall j
        ensures Copies(states[n], j) == Copies(states[n - 1], j)
      {
        JobsAreConserved(states[n - 1], actions[n - 1], j);
      }
    }
  }

  /** At most one runner is ever inside the worker, in every interleaving. */
  lemma WorkerIsExclusive(states: seq<System>, actions: seq<Action>, n: nat, p: nat, q: nat)
    requires IsRun(states, actions) && Initial(states[0]) && n <= |actions|
    requires p < |states[n].runners| && q < |states[n].runners|
    requires InLoop(states[n].runners[p]) && InLoop(states[n].runners[q])
    ensures p == q
  {
    RunKeepsInv(states, actions, n);
  }

  /** All submitters have returned and all runners have exited. */
  predicate Quiet(y: System) {
    && (forall s :: 0 <= s < |y.submitters| ==> y.submitters[s].Returned?)
    && (forall r :: 0 <= r < |y.runners| ==> y.runners[r].Exited?)
  }

  lemma {:induction false} NothingToSubmit(xs: seq<Submitter>, j: Job)
    requires forall s :: 0 <= s < |xs| ==> !xs[s].Ready?
    ensures ToSubmit(xs, j) == 0
  {
    if xs != [] {
      NothingToSubmit(xs[..|xs| - 1], j);
    }
  }

  lemma {:induction false} NothingInHand(xs: seq<Runner>, j: Job)
    requires forall r :: 0 <= r < |xs| ==> !xs[r].Running?
    ensures InHand(xs, j) == 0
  {
    if xs != [] {
      NothingInHand(xs[..|xs| - 1], j);
    }
  }

  /** Every submitted job was run once for each time it was submitted, and no other job was. */
  ghost predicate AllDone(first: System, last: System) {
    last.queue == [] && forall j :: multiset(last.finished)[j] == ToSubmit(first.submitters, j)
  }

  /** Once all threads are done, so is the work. */
  lemma QuietMeansDone(states: seq<System>, actions: seq<Action>, n: nat)
    requires IsRun(states, actions) && Initial(states[0]) && n <= |actions| && Quiet(states[n])
    ensures AllDone(states[0], states[n])
  {
    RunKeepsInv(states, actions, n);
    forall j
      ensures multiset(states[n].finished)[j] == ToSubmit(states[0].submitters, j)
    {
      NothingToSubmit(states[n].submitters, j);
      NothingInHand(states[n].runners, j);
      NothingInHand(states[0].runners, j);
      assert Copies(states[n], j) == Copies(states[0], j);
    }
  }

  /** No thread can take a step any more. */
  ghost predicate Stuck(y: System) {
    forall a :: !Enabled(y, a)
  }

  /** No deadlock: as long as some thread is not done, some step can be taken. */
  lemma SomeStepIsEnabled(y: System) returns (a: Action)
    requires Serialised(y) && !Quiet(y)
    ensures Enabled(y, a)
  {
    if s :| 0 <= s < |y.submitters| && !y.submitters[s].Returned? {
      a := if y.submitters[s].Ready? then Enqueue(s) else Start(s);
    } else {
      var r :| 0 <= r < |y.runners| && !y.runners[r].Exited?;
      var h := if y.holder == UNLOCKED then r else y.holder;
      assert y.holder == UNLOCKED ==> y.runners[r].Waiting?;
      assert y.holder != UNLOCKED ==> InLoop(y.runners[h]);
      if y.runners[h].Waiting? {
        a := Acquire(h);
      } else if y.runners[h].Asking? {
        a := if y.queue == [] then FindNone(h) else Claim(h, 0);
      } else {
        a := if y.runners[h].Running? then Finish(h) else Release(h);
      }
    }
  }

  /** No thread waits for another, but for the lock: each may take its next step at any time. */
  lemma ThreadsMoveFreely(y: System, i: nat)
    requires Serialised(y)
    ensures i < |y.submitters| && y.submitters[i].Ready? ==> Enabled(y, Enqueue(i))
    ensures i < |y.submitters| && y.submitters[i].Enqueued? ==> Enabled(y, Start(i))
    ensures i < |y.runners| ==>
              match y.runners[i]
              case Waiting => (forall r :: 0 <= r < |y.runners| ==> !InLoop(y.runners[r])) ==> Enabled(y, Acquire(i))
              case Asking => if y.queue == [] then Enabled(y, FindNone(i))
                             else forall at :: 0 <= at < |y.queue| ==> Enabled(y, Claim(i, at))
              case Running(_) => Enabled(y, Finish(i))
              case Leaving => Enabled(y, Release(i))
              case Exited => true
  {
    assert y.holder != UNLOCKED ==> InLoop(y.runners[y.holder]);
  }

  // ---------------------------------------------------------------------------
  // Termination
  // ---------------------------------------------------------------------------

  function SubmitterWork(s: Submitter): nat {
    match s
    case Ready(_) => 7
    case Enqueued => 4
    case Returned => 0
  }

  function RunnerWork(r: Runner): nat {
    match r
    case Waiting => 3
    case Asking => 2
    case Running(_) => 3
    case Leaving => 1
    case Exited => 0
  }

  function SubmittersWork(xs: seq<Submitter>): nat {
    if xs == [] then 0 else SubmittersWork(xs[..|xs| - 1]) + SubmitterWork(xs[|xs| - 1])
  }

  function RunnersWork(xs: seq<Runner>): nat {
    if xs == [] then 0 else RunnersWork(xs[..|xs| - 1]) + RunnerWork(xs[|xs| - 1])
  }

  /** An upper bound on the number of steps that are still to come. */
  function Work(y: System): nat {
    SubmittersWork(y.submitters) + 2 * |y.queue| + RunnersWork(y.runners)
  }

  lemma {:induction false} SubmittersWorkUpdate(xs: seq<Submitter>, s: nat, x: Submitter)
    requires s < |xs|
    ensures SubmittersWork(xs[s := x]) == SubmittersWork(xs) - SubmitterWork(xs[s]) + SubmitterWork(x)
  {
    var n := |xs| - 1;
    if s < n {
      SubmittersWorkUpdate(xs[..n], s, x);
      assert xs[s := x][..n] == xs[..n][s := x];
    } else {
      assert xs[s := x][..n] == xs[..n];
    }
  }

  lemma {:induction false} RunnersWorkUpdate(xs: seq<Runner>, r: nat, x: Runner)
    requires r < |xs|
    ensures RunnersWork(xs[r := x]) == RunnersWork(xs) - RunnerWork(xs[r]) + RunnerWork(x)
  {
    var n := |xs| - 1;
    if r < n {
      RunnersWorkUpdate(xs[..n], r, x);
      assert xs[r := x][..n] == xs[..n][r := x];
    } else {
      assert xs[r := x][..n] == xs[..n];
    }
  }

  lemma StepDoesWork(y: System, a: Action)
    requires Enabled(y, a)
    ensures Work(Step(y, a)) < Work(y)
  {
    match a
    case Enqueue(s) => SubmittersWorkUpdate(y.submitters, s, Enqueued);
    case Start(s) =>
      SubmittersWorkUpdate(y.submitters, s, Returned);
      assert (y.runners + [Waiting])[..|y.runners|] == y.runners;
    case Acquire(r) => RunnersWorkUpdate(y.runners, r, Asking);
    case Claim(r, at) => RunnersWorkUpdate(y.runners, r, Running(y.queue[at]));
    case FindNone(r) => RunnersWorkUpdate(y.runners, r, Leaving);
    case Finish(r) => RunnersWorkUpdate(y.runners, r, Asking);
    case Release(r) => RunnersWorkUpdate(y.runners, r, Exited);
  }

  lemma {:induction false} RunIsBounded(states: seq<System>, actions: seq<Action>, n: nat)
    requires IsRun(states, actions) && n <= |actions|
    ensures n + Work(states[n]) <= Work(states[0])
  {
    if n > 0 {
      RunIsBounded(states, actions, n - 1);
      StepDoesWork(states[n - 1], actions[n - 1]);
    }
  }

  lemma {:induction false} InitialWork(xs: seq<Submitter>)
    requires forall s :: 0 <= s < |xs| ==> xs[s].Ready?
    ensures SubmittersWork(xs) == 7 * |xs|
  {
    if xs != [] {
      InitialWork(xs[..|xs| - 1]);
    }
  }

  /**
   Every interleaving of any submissions gets all jobs done: it takes at most
   seven steps a job, and a run that cannot be continued has run each submitted
   job exactly once and left nothing in the queue.
   */
  lemma EveryJobIsRun(states: seq<System>, actions: seq<Action>)
    requires IsRun(states, actions) && Initial(states[0])
    ensures |actions| <= 7 * |states[0].submitters|
    ensures Stuck(states[|actions|]) ==> AllDone(states[0], states[|actions|])
  {
    var last := states[|actions|];
    RunIsBounded(states, actions, |actions|);
    InitialWork(states[0].submitters);
    RunKeepsInv(states, actions, |actions|);
    if !Quiet(last) {
      var a := SomeStepIsEnabled(last);
    } else {
      QuietMeansDone(states, actions, |actions|);
    }
  }

  // ---------------------------------------------------------------------------
  // Retries
  // ---------------------------------------------------------------------------

  /** `retry_job` puts a job back into the queue and starts no runner. */
  function Retry(y: System, job: Job): System {
    y.(queue := y.queue + [job])
  }

  /** Someone will still look at the queue, or will still submit a job and then have it looked at. */
  ghost predicate Attended(y: System) {
    Covered(y) || exists s :: 0 <= s < |y.submitters| && y.submitters[s].Ready?
  }

  lemma SubmitterAttends(y: System, s: nat)
    requires s < |y.submitters| && !y.submitters[s].Returned?
    ensures Attended(y)
  {
  }

  lemma RunnerAttends(y: System, r: nat)
    requires r < |y.runners| && WillLook(y.runners[r])
    ensures Attended(y)
  {
  }

  /** Only a runner that finds the queue empty can be the last to attend it. */
  lemma AttendedStep(y: System, a: Action)
    requires Attended(y) && Enabled(y, a)
    ensures Attended(Step(y, a)) || Step(y, a).queue == []
  {
    hide Attended;
    var z := Step(y, a);
    match a
    case Enqueue(s) => SubmitterAttends(z, s);
    case Start(s) => RunnerAttends(z, |y.runners|);
    case FindNone(r) =>
    case Acquire(r) => RunnerAttends(z, r);
    case Claim(r, at) => RunnerAttends(z, r);
    case Finish(r) => RunnerAttends(z, r);
    case Release(r) => ReleaseKeepsAttended(y, r);
  }

  lemma ReleaseKeepsAttended(y: System, r: nat)
    requires Attended(y) && Enabled(y, Release(r))
    ensures Attended(Step(y, Release(r)))
  {
    var z := Step(y, Release(r));
    if s :| 0 <= s < |y.submitters| && !y.submitters[s].Returned? {
      SubmitterAttends(z, s);
    } else {
      var q :| 0 <= q < |y.runners| && WillLook(y.runners[q]);
      assert z.runners[q] == y.runners[q];
      RunnerAttends(z, q);
    }
  }

  /** An unattended queue stays as it is, and unattended. */
  lemma UnattendedStep(y: System, a: Action)
    requires !Attended(y) && Enabled(y, a)
    ensures !Attended(Step(y, a)) && Step(y, a).queue == y.queue
  {
    match a
    case Enqueue(s) => SubmitterAttends(y, s);
    case Start(s) => SubmitterAttends(y, s);
    case FindNone(r) => RunnerAttends(y, r);
    case Acquire(r) => RunnerAttends(y, r);
    case Claim(r, at) => RunnerAttends(y, r);
    case Finish(r) => RunnerAttends(y, r);
    case Release(r) =>
  }

  lemma {:induction false} AttendedRun(states: seq<System>, actions: seq<Action>, n: nat)
    requires IsRun(states, actions) && n <= |actions|
    requires Serialised(states[0]) && (states[0].queue != [] ==> Attended(states[0]))
    ensures Serialised(states[n]) && (states[n].queue != [] ==> Attended(states[n]))
  {
    hide Serialised, Attended, Step;
    if n > 0 {
      AttendedRun(states, actions, n - 1);
      SerialisedStep(states[n - 1], actions[n - 1]);
      QueueStaysAttended(states[n - 1], actions[n - 1]);
    }
  }

  lemma QueueStaysAttended(y: System, a: Action)
    requires Enabled(y, a) && (y.queue != [] ==> Attended(y))
    ensures Step(y, a).queue != [] ==> Attended(Step(y, a))
  {
    hide Attended;
    if Attended(y) {
      AttendedStep(y, a);
    } else {
      UnattendedStep(y, a);
    }
  }

  lemma {:induction false} UnattendedRun(states: seq<System>, actions: seq<Action>, n: nat)
    requires IsRun(states, actions) && n <= |actions| && !Attended(states[0])
    ensures !Attended(states[n]) && states[n].queue == states[0].queue
  {
    hide Attended, Step;
    if n > 0 {
      UnattendedRun(states, actions, n - 1);
      UnattendedStep(states[n - 1], actions[n - 1]);
    }
  }

  lemma {:induction false} CopiesStay(states: seq<System>, actions: seq<Action>, n: nat, j: Job)
    requires IsRun(states, actions) && n <= |actions|
    ensures Copies(states[n], j) == Copies(states[0], j)
  {
    hide Copies, Step;
    if n > 0 {
      CopiesStay(states, actions, n - 1, j);
      JobsAreConserved(states[n - 1], actions[n - 1], j);
    }
  }

  lemma QuietWhenStuck(y: System)
    requires Serialised(y) && Stuck(y)
    ensures Quiet(y) && !Attended(y)
  {
    if !Quiet(y) {
      var a := SomeStepIsEnabled(y);
    }
  }

  /** All that was in the system has been run, and nothing is queued. */
  ghost predicate Drained(first: System, last: System) {
    last.queue == [] && forall j :: multiset(last.finished)[j] == Copies(first, j)
  }

  /**
   Whether a retried job gets run is settled when it is retried, whatever the
   interleaving: every run from there that cannot be continued has run it, and all
   other jobs, exactly when somebody was still going to look at the queue or to
   submit. Otherwise the queue never changes again.
   */
  lemma RetryRunsExactlyWhenAttended(y: System, job: Job, states: seq<System>, actions: seq<Action>)
    requires Serialised(y) && IsRun(states, actions) && states[0] == Retry(y, job)
    ensures Stuck(states[|actions|]) ==> (Drained(states[0], states[|actions|]) <==> Attended(y))
    ensures !Attended(y) ==> states[|actions|].queue == y.queue + [job]
  {
    hide Serialised, Attended, Copies, Stuck, Step;
    var z, last := Retry(y, job), states[|actions|];
    RetryChangesNobody(y, job);
    if !Attended(y) {
      UnattendedRun(states, actions, |actions|);
    } else if Stuck(last) {
      AttendedRun(states, actions, |actions|);
      QuietWhenStuck(last);
      forall j
        ensures multiset(last.finished)[j] == Copies(z, j)
      {
        CopiesStay(states, actions, |actions|, j);
        CopiesWhenQuiet(last, j);
      }
    }
  }

  lemma RetryChangesNobody(y: System, job: Job)
    ensures Attended(Retry(y, job)) <==> Attended(y)
    ensures Serialised(Retry(y, job)) <==> Serialised(y)
  {
  }

  lemma CopiesWhenQuiet(y: System, j: Job)
    requires Quiet(y) && y.queue == []
    ensures Copies(y, j) == multiset(y.finished)[j]
  {
    NothingToSubmit(y.submitters, j);
    NothingInHand(y.runners, j);
  }

  /** From every state there is a run that ends. */
  lemma {:induction false} SomeRunEnds(y: System) returns (states: seq<System>, actions: seq<Action>)
    requires Serialised(y)
    ensures IsRun(states, actions) && states[0] == y && Stuck(states[|actions|])
    decreases Work(y)
  {
    hide Serialised, Step, Enabled, Work;
    if Stuck(y) {
      states, actions := [y], [];
    } else {
      var a :| Enabled(y, a);
      StepDoesWork(y, a);
      SerialisedStep(y, a);
      var later, rest := SomeRunEnds(Step(y, a));
      states, actions := [y] + later, [a] + rest;
      RunCons(y, a, later, rest);
    }
  }

  lemma RunCons(y: System, a: Action, states: seq<System>, actions: seq<Action>)
    requires Enabled(y, a) && IsRun(states, actions) && states[0] == Step(y, a)
    ensures IsRun([y] + states, [a] + actions)
  {
    hide Step, Enabled;
    var all, steps := [y] + states, [a] + actions;
    forall i | 0 <= i < |steps|
      ensures Enabled(all[i], steps[i]) && all[i + 1] == Step(all[i], steps[i])
    {
      if i > 0 {
        assert all[i] == states[i - 1] && all[i + 1] == states[i] && steps[i] == actions[i - 1];
      }
    }
  }

  /**
   Such a state is reached: from every start some run ends, and a job that is
   retried then, after it was run, stays in the queue with no thread to take it.
   */
  lemma RetryCanBeStranded(y: System, job: Job) returns (states: seq<System>, actions: seq<Action>)
    requires Initial(y)
    ensures IsRun(states, actions) && states[0] == y && AllDone(y, states[|actions|])
    ensures Retry(states[|actions|], job).queue == [job] && Stuck(Retry(states[|actions|], job))
  {
    hide Step;
    states, actions := SomeRunEnds(y);
    EveryJobIsRun(states, actions);
    RunKeepsInv(states, actions, |actions|);
    QuietWhenStuck(states[|actions|]);
  }
}
