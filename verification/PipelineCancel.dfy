/** When a cancelled deployment turns READY all the same. */
module PipelineCancel {
  import opened Wrappers
  import opened Pipeline
  import opened PipelineInvariants
  import opened PipelineRuns

  // The action cancels d: the cancel handler accepts, or a push aborts the deployment in flight.
  predicate Stops(s: State, a: Action, d: DeploymentId) {
    match a
    case Cancel(e) => e == d && CancelDeployment(s, d).1 == Cancelled
    case Push(p) => FindLatest(s.rows, p, IN_FLIGHT + {Ready}) == Some(d) && s.rows[d].status in IN_FLIGHT
    case _ => false
  }

  lemma StopEffect(s: State, a: Action, d: DeploymentId)
    requires Inv(s) && Enabled(s, a) && Stops(s, a, d)
    ensures d < |s.rows| <= |Apply(s, a).rows| && !s.rows[d].isSuccess
    ensures Apply(s, a).rows[d].status == Canceled && !Apply(s, a).rows[d].isSuccess
    ensures Published(Apply(s, a), d) && Apply(s, a).worker == s.worker
  {
  }

  // The worker runs the job of d and is past its last checkpoint, before the READY write.
  predicate CommittedTo(s: State, d: DeploymentId) {
    s.worker.Running? && s.worker.job.deployment == d && Committed(s, s.worker.job)
  }

  // How many statements a committed job still runs, the READY write included.
  function Needed(p: Point): nat {
    match p
    case MarkDeploying => 3
    case DeployCluster => 2
    case MarkReady => 1
    case _ => 0
  }

  // The worker takes its next n statements within these actions, and all of them succeed.
  predicate Succeeds(actions: seq<Action>, n: nat)
    decreases |actions|
  {
    n == 0 || (actions != [] &&
               if actions[0].WorkerStep? then actions[0].ok && Succeeds(actions[1..], n - 1)
               else Succeeds(actions[1..], n))
  }

  // ---------------------------------------------------------------------
  // A job that can no longer finish
  // ---------------------------------------------------------------------

  // d has not succeeded, and its job is gone or on its way out.
  predicate Doomed(s: State, d: DeploymentId) {
    && NotQueued(s, d) && !s.rows[d].isSuccess
    && (s.worker.Running? && s.worker.job.deployment == d ==>
          s.worker.at in {MarkFailed, MarkCanceled, CleanCluster, MarkCleaned, ClearSignal})
  }

  // Only the READY write of its own job makes d succeed.
  lemma SuccessStep(s: State, a: Action, d: DeploymentId)
    requires Inv(s) && Enabled(s, a) && d < |s.rows| && !s.rows[d].isSuccess
    ensures d < |Apply(s, a).rows|
    ensures Apply(s, a).rows[d].isSuccess ==> CommittedTo(s, d) && s.worker.at == MarkReady && a == WorkerStep(true)
  {
    StepKeepsInv(s, a);
    assert ReadyWrites(s.history, d) == 0;
    if Apply(s, a).rows[d].isSuccess {
      assert ReadyWrites(Apply(s, a).history, d) == 1;
      ReadyWriteStep(s, a, d);
    }
  }

  lemma DoomedStep(s: State, a: Action, d: DeploymentId)
    requires Inv(s) && Enabled(s, a) && Doomed(s, d)
    ensures Doomed(Apply(s, a), d)
  {
    SuccessStep(s, a, d);
    NotQueuedStep(s, a, Apply(s, a), d);
    if !a.WorkerStep? {
      EnvironmentStep(s, a);
    } else if s.worker.Running? {
      WorkerFrame(s, a.ok);
    } else if a.ok && s.queue != [] {
      assert s.queue[|s.queue| - 1] in s.queue;
    }
  }

  lemma {:induction false} DoomedForever(ttl: map<UserId, nat>, trace: seq<Action>, c: nat, k: nat, d: DeploymentId)
    requires Follows(Initial(ttl), trace) && c <= k <= |trace|
    requires Doomed(StateAt(Initial(ttl), trace, c), d)
    ensures Doomed(StateAt(Initial(ttl), trace, k), d)
    decreases k
  {
    if c < k {
      DoomedForever(ttl, trace, c, k - 1, d);
      InvAt(ttl, trace, k - 1);
      StateAtStep(Initial(ttl), trace, k - 1);
      DoomedStep(StateAt(Initial(ttl), trace, k - 1), trace[k - 1], d);
    }
  }

  // ---------------------------------------------------------------------
  // A committed job
  // ---------------------------------------------------------------------

  lemma CommittedIsHeldOnce(s: State, d: DeploymentId)
    requires Inv(s) && CommittedTo(s, d)
    ensures NotQueued(s, d) && !s.rows[d].isSuccess
  {
  }

  // One step of a run in which the job of d is committed: others leave it where it is, a failure
  // dooms it, a success brings it nearer.
  lemma CommittedStep(s: State, a: Action, s': State, d: DeploymentId)
    requires Inv(s) && Enabled(s, a) && s' == Apply(s, a) && CommittedTo(s, d)
    ensures !a.WorkerStep? ==> s'.worker == s.worker
    ensures a == WorkerStep(false) ==> Doomed(s', d)
    ensures a == WorkerStep(true) && s.worker.at != MarkReady ==>
              CommittedTo(s', d) && Needed(s'.worker.at) == Needed(s.worker.at) - 1
    ensures a == WorkerStep(true) && s.worker.at == MarkReady ==> d < |s'.rows| && s'.rows[d].isSuccess
  {
    CommittedIsHeldOnce(s, d);
    SuccessStep(s, a, d);
    NotQueuedStep(s, a, s', d);
    if !a.WorkerStep? { EnvironmentStep(s, a); }
  }

  // A committed job turns READY exactly when its remaining statements come and succeed, whatever
  // the other actors do in between: nothing reads the signal any more.
  lemma {:induction false} CommittedOutcome(ttl: map<UserId, nat>, trace: seq<Action>, c: nat, k: nat, d: DeploymentId)
    requires Follows(Initial(ttl), trace) && c <= k <= |trace|
    requires CommittedTo(StateAt(Initial(ttl), trace, c), d)
    ensures d < |StateAt(Initial(ttl), trace, k).rows|
    ensures StateAt(Initial(ttl), trace, k).rows[d].isSuccess
            <==> Succeeds(trace[c..k], Needed(StateAt(Initial(ttl), trace, c).worker.at))
    decreases k - c
  {
    var s := StateAt(Initial(ttl), trace, c);
    InvAt(ttl, trace, c);
    CommittedIsHeldOnce(s, d);
    if c < k {
      var s' := StateAt(Initial(ttl), trace, c + 1);
      StateAtStep(Initial(ttl), trace, c);
      CommittedStep(s, trace[c], s', d);
      assert trace[c..k][0] == trace[c] && trace[c..k][1..] == trace[c + 1..k];
      if CommittedTo(s', d) {
        CommittedOutcome(ttl, trace, c + 1, k, d);
      } else if trace[c] == WorkerStep(false) {
        DoomedForever(ttl, trace, c + 1, k, d);
      } else {
        Retirement(ttl, trace, c + 1, k, d);
      }
    }
  }

  // ---------------------------------------------------------------------
  // The signal stays out as long as the job is held
  // ---------------------------------------------------------------------

  predicate SignalOut(s: State, d: DeploymentId) {
    Published(s, d) || LetGo(s, d)
  }

  lemma SignalOutStep(s: State, a: Action, d: DeploymentId)
    requires Inv(s) && Enabled(s, a) && d < |s.rows| && SignalOut(s, d)
    ensures SignalOut(Apply(s, a), d) && d < |Apply(s, a).rows|
  {
    var s' := Apply(s, a);
    StepKeepsInv(s, a);
    if LetGo(s, d) {
      NotQueuedStep(s, a, s', d);
    } else if !a.WorkerStep? {
      EnvironmentStep(s, a);
    } else if s.worker.Running? {
      WorkerFrame(s, a.ok);
    }
  }

  lemma SignalOutNext(ttl: map<UserId, nat>, trace: seq<Action>, k: nat, d: DeploymentId)
    requires Follows(Initial(ttl), trace) && k < |trace|
    requires d < |StateAt(Initial(ttl), trace, k).rows| && SignalOut(StateAt(Initial(ttl), trace, k), d)
    ensures d < |StateAt(Initial(ttl), trace, k + 1).rows| && SignalOut(StateAt(Initial(ttl), trace, k + 1), d)
  {
    InvAt(ttl, trace, k);
    StateAtStep(Initial(ttl), trace, k);
    SignalOutStep(StateAt(Initial(ttl), trace, k), trace[k], d);
  }

  lemma {:induction false} SignalStaysOut(ttl: map<UserId, nat>, trace: seq<Action>, i: nat, k: nat, d: DeploymentId)
    requires Follows(Initial(ttl), trace) && i <= k <= |trace|
    requires d < |StateAt(Initial(ttl), trace, i).rows| && SignalOut(StateAt(Initial(ttl), trace, i), d)
    ensures d < |StateAt(Initial(ttl), trace, k).rows| && SignalOut(StateAt(Initial(ttl), trace, k), d)
    decreases k
  {
    if i < k {
      SignalStaysOut(ttl, trace, i, k - 1, d);
      SignalOutNext(ttl, trace, k - 1, d);
    }
  }

  // ---------------------------------------------------------------------
  // The exact condition
  // ---------------------------------------------------------------------

  // The last checkpoint of d's job does not hear the signal that is out: the read fails, or the
  // key's 300 seconds are over.
  predicate MissesSignal(s: State, a: Action, d: DeploymentId) {
    && a.WorkerStep? && s.worker.Running? && s.worker.job.deployment == d && s.worker.at == CheckDeploy
    && Published(s, d) && (!a.ok || Lapsed(s, d))
  }

  // From action c on nothing can stop d any more, and by k its remaining statements have succeeded:
  // the cancel at i came after the last checkpoint, or that checkpoint missed the signal.
  predicate GoesThrough(s0: State, trace: seq<Action>, i: nat, c: nat, k: nat, d: DeploymentId)
    requires Follows(s0, trace) && k <= |trace|
  {
    && i <= c < k
    && (if c == i then CommittedTo(StateAt(s0, trace, i), d)
        else MissesSignal(StateAt(s0, trace, c), trace[c], d))
    && StateAt(s0, trace, c + 1).worker.Running?
    && Succeeds(trace[c + 1..k], Needed(StateAt(s0, trace, c + 1).worker.at))
  }

  lemma MissCommits(s: State, a: Action, d: DeploymentId)
    requires Enabled(s, a) && MissesSignal(s, a, d)
    ensures CommittedTo(Apply(s, a), d)
  {
  }

  // The step into the committed points misses the signal, if it is out.
  lemma CommitMisses(s: State, a: Action, d: DeploymentId)
    requires Inv(s) && Enabled(s, a) && SignalOut(s, d)
    requires !CommittedTo(s, d) && CommittedTo(Apply(s, a), d)
    ensures MissesSignal(s, a, d)
  {
    var j := Apply(s, a).worker.job;
    assert !Committed(s, j);
    CommitStep(s, a, j);
    assert s.worker == Running(j, CheckDeploy);
  }

  lemma SuccessNext(ttl: map<UserId, nat>, trace: seq<Action>, i: nat, d: DeploymentId)
    requires Follows(Initial(ttl), trace) && i < |trace|
    requires d < |StateAt(Initial(ttl), trace, i).rows| && !StateAt(Initial(ttl), trace, i).rows[d].isSuccess
    requires !CommittedTo(StateAt(Initial(ttl), trace, i), d)
    ensures d < |StateAt(Initial(ttl), trace, i + 1).rows| && !StateAt(Initial(ttl), trace, i + 1).rows[d].isSuccess
  {
    InvAt(ttl, trace, i);
    StateAtStep(Initial(ttl), trace, i);
    SuccessStep(StateAt(Initial(ttl), trace, i), trace[i], d);
  }

  // A deployment that succeeds was committed on the way.
  lemma {:induction false} FindCommit(ttl: map<UserId, nat>, trace: seq<Action>, i: nat, k: nat, d: DeploymentId)
    returns (c: nat)
    requires Follows(Initial(ttl), trace) && i <= k <= |trace|
    requires d < |StateAt(Initial(ttl), trace, i).rows| && !StateAt(Initial(ttl), trace, i).rows[d].isSuccess
    requires !CommittedTo(StateAt(Initial(ttl), trace, i), d)
    requires d < |StateAt(Initial(ttl), trace, k).rows| && StateAt(Initial(ttl), trace, k).rows[d].isSuccess
    ensures i <= c < k
    ensures !CommittedTo(StateAt(Initial(ttl), trace, c), d) && CommittedTo(StateAt(Initial(ttl), trace, c + 1), d)
    decreases k - i
  {
    SuccessNext(ttl, trace, i, d);
    if CommittedTo(StateAt(Initial(ttl), trace, i + 1), d) {
      c := i;
    } else {
      c := FindCommit(ttl, trace, i + 1, k, d);
    }
  }

  lemma GoingThroughSucceeds(ttl: map<UserId, nat>, trace: seq<Action>, i: nat, c: nat, k: nat, d: DeploymentId)
    requires Follows(Initial(ttl), trace) && i < k <= |trace|
    requires Stops(StateAt(Initial(ttl), trace, i), trace[i], d)
    requires GoesThrough(Initial(ttl), trace, i, c, k, d)
    ensures d < |StateAt(Initial(ttl), trace, k).rows| && StateAt(Initial(ttl), trace, k).rows[d].isSuccess
  {
    InvAt(ttl, trace, i);
    StateAtStep(Initial(ttl), trace, i);
    StopEffect(StateAt(Initial(ttl), trace, i), trace[i], d);
    StateAtStep(Initial(ttl), trace, c);
    if c > i { MissCommits(StateAt(Initial(ttl), trace, c), trace[c], d); }
    CommittedOutcome(ttl, trace, c + 1, k, d);
  }

  // Where a cancelled deployment that succeeds got past its signal.
  lemma CommitAfterCancel(ttl: map<UserId, nat>, trace: seq<Action>, i: nat, k: nat, d: DeploymentId) returns (c: nat)
    requires Follows(Initial(ttl), trace) && i < k <= |trace|
    requires Stops(StateAt(Initial(ttl), trace, i), trace[i], d)
    requires d < |StateAt(Initial(ttl), trace, k).rows| && StateAt(Initial(ttl), trace, k).rows[d].isSuccess
    ensures i <= c < k && CommittedTo(StateAt(Initial(ttl), trace, c + 1), d)
    ensures if c == i then CommittedTo(StateAt(Initial(ttl), trace, i), d)
            else MissesSignal(StateAt(Initial(ttl), trace, c), trace[c], d)
  {
    InvAt(ttl, trace, i);
    StateAtStep(Initial(ttl), trace, i);
    StopEffect(StateAt(Initial(ttl), trace, i), trace[i], d);
    if CommittedTo(StateAt(Initial(ttl), trace, i + 1), d) {
      c := i;
    } else {
      c := FindCommit(ttl, trace, i + 1, k, d);
      SignalStaysOut(ttl, trace, i + 1, c, d);
      CommitMissesAt(ttl, trace, c, d);
    }
  }

  lemma CommitMissesAt(ttl: map<UserId, nat>, trace: seq<Action>, c: nat, d: DeploymentId)
    requires Follows(Initial(ttl), trace) && c < |trace| && SignalOut(StateAt(Initial(ttl), trace, c), d)
    requires !CommittedTo(StateAt(Initial(ttl), trace, c), d) && CommittedTo(StateAt(Initial(ttl), trace, c + 1), d)
    ensures MissesSignal(StateAt(Initial(ttl), trace, c), trace[c], d)
  {
    InvAt(ttl, trace, c);
    StateAtStep(Initial(ttl), trace, c);
    CommitMisses(StateAt(Initial(ttl), trace, c), trace[c], d);
  }

  lemma SuccessGoesThrough(ttl: map<UserId, nat>, trace: seq<Action>, i: nat, k: nat, d: DeploymentId) returns (c: nat)
    requires Follows(Initial(ttl), trace) && i < k <= |trace|
    requires Stops(StateAt(Initial(ttl), trace, i), trace[i], d)
    requires d < |StateAt(Initial(ttl), trace, k).rows| && StateAt(Initial(ttl), trace, k).rows[d].isSuccess
    ensures GoesThrough(Initial(ttl), trace, i, c, k, d)
  {
    c := CommitAfterCancel(ttl, trace, i, k, d);
    CommittedOutcome(ttl, trace, c + 1, k, d);
  }

  // A deployment cancelled by its owner or by a push has turned READY by step k exactly when the
  // cancel came while the worker was past the last checkpoint, or that checkpoint later missed the
  // signal, and the statements that remained then have succeeded.
  lemma CancelledTurnsReady(ttl: map<UserId, nat>, trace: seq<Action>, i: nat, k: nat, d: DeploymentId)
    requires Follows(Initial(ttl), trace) && i < k <= |trace|
    requires Stops(StateAt(Initial(ttl), trace, i), trace[i], d)
    ensures ReadyWrites(StateAt(Initial(ttl), trace, k).history, d) == 1
            <==> exists c: nat :: GoesThrough(Initial(ttl), trace, i, c, k, d)
  {
    InvAt(ttl, trace, k);
    if ReadyWrites(StateAt(Initial(ttl), trace, k).history, d) == 1 {
      var c := SuccessGoesThrough(ttl, trace, i, k, d);
    }
    if c: nat :| GoesThrough(Initial(ttl), trace, i, c, k, d) {
      GoingThroughSucceeds(ttl, trace, i, c, k, d);
    }
  }

  // ---------------------------------------------------------------------
  // A cancel that comes too late
  // ---------------------------------------------------------------------

  // The job at the tail of the queue, `left` statements before its end.
  lemma RunUntil(s0: State, trace: seq<Action>, s: State, n: nat, left: nat)
    returns (trace': seq<Action>, s': State)
    requires Follows(s0, trace) && s == Exec(s0, trace) && Runnable(s) && 1 <= n && n + left == 15
    ensures Follows(s0, trace') && s' == Exec(s0, trace') && OnTrack(s, s', left)
    ensures trace' == trace + WorkerSteps(n)
  {
    SuccessPath(s, n);
    StepsAreARun(s, n);
    RunConcat(s0, trace, WorkerSteps(n));
    trace', s' := trace + WorkerSteps(n), Exec(s, WorkerSteps(n));
  }

  // The worker is deploying the only deployment to the cluster, and no signal is out.
  predicate Deploying0(s: State) {
    |s.rows| == 1 && s.keys == map[] && CommittedTo(s, 0) && s.worker.at == DeployCluster
  }

  lemma CancelWhileDeploying(s: State)
    requires Inv(s) && Deploying0(s)
    ensures Stops(s, Cancel(0), 0)
    ensures var t := RunStep(RunStep(Apply(s, Cancel(0)), true), true);
            |t.rows| == 1 && t.rows[0].status == Ready && Signalled(t, 0)
  {
    assert Outstanding(s, s.worker.job);
    assert s.rows[0].status in IN_FLIGHT;
    var s1 := Apply(s, Cancel(0));
    assert s1.worker == s.worker && |s1.rows| == 1 && Signalled(s1, 0);
    var s2 := RunStep(s1, true);
    assert s2.worker == Running(s.worker.job, MarkReady) && s2.rows == s1.rows && s2.keys == s1.keys;
  }

  predicate NothingFails(trace: seq<Action>) {
    forall a | a in trace && a.WorkerStep? :: a.ok
  }

  lemma RunToDeploy(s0: State, t: seq<Action>, s: State, n: nat) returns (trace: seq<Action>, s': State)
    requires Follows(s0, t) && s == Exec(s0, t) && Runnable(s) && n == 12
    requires |s.rows| == 1 && s.keys == map[] && s.queue[|s.queue| - 1].deployment == 0 && NothingFails(t)
    ensures Follows(s0, trace) && s' == Exec(s0, trace) && Deploying0(s') && NothingFails(trace)
  {
    WorkerStepsSucceed(t, n);
    trace, s' := RunUntil(s0, t, s, n, 15 - n);
    assert Remaining(s'.worker.at) == 3;
  }

  lemma UntilDeploying(n: nat) returns (trace: seq<Action>)
    requires n == 12
    ensures Follows(Initial(map[]), trace) && Deploying0(Exec(Initial(map[]), trace))
    ensures NothingFails(trace)
  {
    var s0 := Initial(map[]);
    OnePush(s0);
    var t1 := ThenStep(s0, [], s0, Push(DEMO));
    var s;
    trace, s := RunToDeploy(s0, t1, Exec(s0, t1), n);
  }

  lemma CancelAndFinish(s0: State, t: seq<Action>, s: State) returns (trace: seq<Action>, s': State)
    requires Follows(s0, t) && s == Exec(s0, t) && Inv(s) && Deploying0(s)
    ensures trace == t + [Cancel(0)] + [WorkerStep(true)] + [WorkerStep(true)]
    ensures Follows(s0, trace) && s' == Exec(s0, trace)
    ensures |s'.rows| == 1 && s'.rows[0].status == Ready && Signalled(s', 0)
  {
    CancelWhileDeploying(s);
    var t1 := ThenStep(s0, t, s, Cancel(0));
    var s1 := Apply(s, Cancel(0));
    assert s1.worker == s.worker;
    var t2 := ThenStep(s0, t1, s1, WorkerStep(true));
    var s2 := RunStep(s1, true);
    assert s2.worker.Running?;
    trace := ThenStep(s0, t2, s2, WorkerStep(true));
    s' := RunStep(s2, true);
  }

  // The owner cancels while the worker deploys to the cluster, the handler accepts, and then the
  // deployment turns READY although no call fails and its signal is out and alive.
  lemma LateCancel() returns (trace: seq<Action>, i: nat)
    ensures Follows(Initial(map[]), trace) && i < |trace|
    ensures Stops(StateAt(Initial(map[]), trace, i), trace[i], 0)
    ensures var s := Exec(Initial(map[]), trace);
            |s.rows| == 1 && s.rows[0].status == Ready && Signalled(s, 0)
    ensures NothingFails(trace)
  {
    var s0 := Initial(map[]);
    var t := UntilDeploying(12);
    InvAlways(map[], t);
    CancelWhileDeploying(Exec(s0, t));
    var s;
    trace, s := CancelAndFinish(s0, t, Exec(s0, t));
    assert NothingFails(trace);
    i := |t|;
    assert trace[..i] == t;
    assert trace[i] == Cancel(0);
  }

  lemma {:induction false} WorkerStepsSucceed(t: seq<Action>, n: nat)
    requires NothingFails(t)
    ensures NothingFails(t + WorkerSteps(n))
    decreases n
  {
    if n > 0 {
      WorkerStepsSucceed(t + [WorkerStep(true)], n - 1);
      assert t + WorkerSteps(n) == (t + [WorkerStep(true)]) + WorkerSteps(n - 1);
    } else {
      assert t + WorkerSteps(n) == t;
    }
  }
}
