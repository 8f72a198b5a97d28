/** Theorems about whole runs of the deployment pipeline. */
module PipelineRuns {
  import opened Wrappers
  import opened Pipeline
  import opened PipelineInvariants

  // ---------------------------------------------------------------------
  // Runs and their prefixes
  // ---------------------------------------------------------------------

  lemma {:induction false} PrefixFollows(s: State, trace: seq<Action>, k: nat)
    requires Follows(s, trace) && k <= |trace|
    ensures Follows(s, trace[..k])
    decreases |trace|
  {
    if k == |trace| {
      assert trace[..k] == trace;
    } else {
      PrefixFollows(s, trace[..|trace| - 1], k);
      assert trace[..|trace| - 1][..k] == trace[..k];
    }
  }

  // The state before action k of the run.
  function StateAt(s: State, trace: seq<Action>, k: nat): State
    requires Follows(s, trace) && k <= |trace|
  {
    PrefixFollows(s, trace, k);
    Exec(s, trace[..k])
  }

  lemma StateAtStep(s: State, trace: seq<Action>, k: nat)
    requires Follows(s, trace) && k < |trace|
    ensures Enabled(StateAt(s, trace, k), trace[k])
    ensures StateAt(s, trace, k + 1) == Apply(StateAt(s, trace, k), trace[k])
  {
    PrefixFollows(s, trace, k + 1);
    assert trace[..k + 1][..k] == trace[..k];
  }

  lemma {:induction false} RunConcat(s: State, t1: seq<Action>, t2: seq<Action>)
    requires Follows(s, t1) && Follows(Exec(s, t1), t2)
    ensures Follows(s, t1 + t2) && Exec(s, t1 + t2) == Exec(Exec(s, t1), t2)
    decreases |t2|
  {
    if t2 == [] {
      assert t1 + t2 == t1;
    } else {
      var m := |t2| - 1;
      PrefixFollows(Exec(s, t1), t2, m);
      RunConcat(s, t1, t2[..m]);
      assert (t1 + t2)[..|t1 + t2| - 1] == t1 + t2[..m];
    }
  }

  // Every reachable state satisfies every invariant.
  lemma {:induction false} InvAlways(ttl: map<UserId, nat>, trace: seq<Action>)
    requires Follows(Initial(ttl), trace)
    ensures Inv(Exec(Initial(ttl), trace))
    decreases |trace|
  {
    if trace == [] {
      InvInitial(ttl);
    } else {
      InvAlways(ttl, trace[..|trace| - 1]);
      StepKeepsInv(Exec(Initial(ttl), trace[..|trace| - 1]), trace[|trace| - 1]);
    }
  }

  lemma InvAt(ttl: map<UserId, nat>, trace: seq<Action>, k: nat)
    requires Follows(Initial(ttl), trace) && k <= |trace|
    ensures Inv(StateAt(Initial(ttl), trace, k))
  {
    PrefixFollows(Initial(ttl), trace, k);
    InvAlways(ttl, trace[..k]);
  }

  // ---------------------------------------------------------------------
  // Newest wins
  // ---------------------------------------------------------------------

  ghost predicate NewestWins(s: State) {
    && (forall j: Job :: Outstanding(s, j) && !Signalled(s, j.deployment) ==> IsNewest(s, j.deployment))
    && (forall j: Job, j': Job ::
          (Outstanding(s, j) && Outstanding(s, j') && j.project == j'.project
           && !Signalled(s, j.deployment) && !Signalled(s, j'.deployment)) ==> j == j')
  }

  // The cancel key of d was set, and its 300 seconds are over.
  predicate Lapsed(s: State, d: DeploymentId) {
    d in s.keys && s.keys[d] <= s.clock
  }

  // At most one unsignalled outstanding job per project, of the newest deployment:
  // in a reachable state this holds exactly when no overtaken job's key has run out.
  lemma NewestWinsUnlessLapsed(ttl: map<UserId, nat>, trace: seq<Action>)
    requires Follows(Initial(ttl), trace)
    ensures var s := Exec(Initial(ttl), trace);
            NewestWins(s) <==>
            forall j: Job :: Outstanding(s, j) && !IsNewest(s, j.deployment) ==> !Lapsed(s, j.deployment)
  {
    var s := Exec(Initial(ttl), trace);
    InvAlways(ttl, trace);
    if forall j: Job :: Outstanding(s, j) && !IsNewest(s, j.deployment) ==> !Lapsed(s, j.deployment) {
      forall j: Job | Outstanding(s, j) && !Signalled(s, j.deployment)
        ensures IsNewest(s, j.deployment)
      {
      }
      forall j: Job, j': Job | Outstanding(s, j) && Outstanding(s, j') && j.project == j'.project
          && !Signalled(s, j.deployment) && !Signalled(s, j'.deployment)
        ensures j == j'
      {
        NewestIsUnique(s, j.deployment, j'.deployment);
        assert j.deployment == j'.deployment;
      }
    }
  }

  lemma NewestIsUnique(s: State, d: DeploymentId, e: DeploymentId)
    requires Chronological(s) && IsNewest(s, d) && IsNewest(s, e) && s.rows[d].project == s.rows[e].project
    ensures d == e
  {
    assert s.rows[d].startedAt == s.rows[e].startedAt;
  }

  // The worker is past the last checkpoint of its job and has not yet written READY.
  predicate Committed(s: State, j: Job) {
    s.worker.Running? && s.worker.job == j && s.worker.at in {MarkDeploying, DeployCluster, MarkReady}
  }

  // What the last checkpoint of a committed job saw.
  ghost predicate PassedLastCheck(s: State, a: Action, j: Job) {
    && s.worker == Running(j, CheckDeploy)
    && a.WorkerStep?
    && ((IsNewest(s, j.deployment) && !Published(s, j.deployment))
        || Lapsed(s, j.deployment)
        || !a.ok)
  }

  lemma CommitNext(ttl: map<UserId, nat>, trace: seq<Action>, k: nat, j: Job)
    requires Follows(Initial(ttl), trace) && k < |trace|
    requires !Committed(StateAt(Initial(ttl), trace, k), j) && Committed(StateAt(Initial(ttl), trace, k + 1), j)
    ensures PassedLastCheck(StateAt(Initial(ttl), trace, k), trace[k], j)
  {
    InvAt(ttl, trace, k);
    StateAtStep(Initial(ttl), trace, k);
    CommitStep(StateAt(Initial(ttl), trace, k), trace[k], j);
  }

  lemma StartState(s: State, trace: seq<Action>)
    requires Follows(s, trace)
    ensures StateAt(s, trace, 0) == s
  {
    assert trace[..0] == [];
  }

  lemma {:induction false} FindLastCheck(ttl: map<UserId, nat>, trace: seq<Action>, k: nat, j: Job) returns (i: nat)
    requires Follows(Initial(ttl), trace) && k <= |trace|
    requires Committed(StateAt(Initial(ttl), trace, k), j)
    ensures i < k && PassedLastCheck(StateAt(Initial(ttl), trace, i), trace[i], j)
    decreases k
  {
    StartState(Initial(ttl), trace);
    if k > 0 {
      i := k - 1;
      if Committed(StateAt(Initial(ttl), trace, i), j) {
        i := FindLastCheck(ttl, trace, i, j);
      } else {
        CommitNext(ttl, trace, i, j);
      }
    }
  }

  // A job that goes on to deploy and to write READY was newest and uncancelled at its last
  // checkpoint, unless its key had run out or the read of it failed.
  lemma CommittedPassedLastCheck(ttl: map<UserId, nat>, trace: seq<Action>, k: nat, j: Job)
    requires Follows(Initial(ttl), trace) && k <= |trace|
    requires Committed(StateAt(Initial(ttl), trace, k), j)
    ensures exists i: nat :: i < k && PassedLastCheck(StateAt(Initial(ttl), trace, i), trace[i], j)
  {
    var i := FindLastCheck(ttl, trace, k, j);
  }

  // The only step into a committed point is the last checkpoint, and it saw no signal.
  lemma CommitStep(s: State, a: Action, j: Job)
    requires Inv(s) && Enabled(s, a)
    requires !Committed(s, j) && Committed(Apply(s, a), j)
    ensures PassedLastCheck(s, a, j)
  {
    assert a.WorkerStep?;
    assert s.worker == Running(j, CheckDeploy);
    assert Outstanding(s, j);
  }

  // Every READY write, and every cluster deploy, is for such a job.
  lemma ReadyWriteWasCurrent(ttl: map<UserId, nat>, trace: seq<Action>, k: nat, d: DeploymentId)
    requires Follows(Initial(ttl), trace) && k < |trace|
    requires ReadyWrites(StateAt(Initial(ttl), trace, k + 1).history, d)
             > ReadyWrites(StateAt(Initial(ttl), trace, k).history, d)
    ensures exists i: nat, j: Job :: i < k && j.deployment == d
              && PassedLastCheck(StateAt(Initial(ttl), trace, i), trace[i], j)
  {
    var s := StateAt(Initial(ttl), trace, k);
    StateAtStep(Initial(ttl), trace, k);
    InvAt(ttl, trace, k);
    ReadyWriteStep(s, trace[k], d);
    CommittedPassedLastCheck(ttl, trace, k, s.worker.job);
  }

  lemma ReadyWriteStep(s: State, a: Action, d: DeploymentId)
    requires Inv(s) && Enabled(s, a)
    requires ReadyWrites(Apply(s, a).history, d) > ReadyWrites(s.history, d)
    ensures s.worker.Running? && s.worker.job.deployment == d && s.worker.at == MarkReady && a == WorkerStep(true)
  {
    HistoryStep(s, a);
    ReadyWritesConcat(s.history, Events(s, a), d);
    EventKinds(s, a);
    if forall e | e in Events(s, a) :: !IsReadyWrite(e, d) {
      NoReadyWrites(Events(s, a), d);
    }
  }

  predicate IsReadyWrite(e: Event, d: DeploymentId) {
    e.StatusWrite? && e.deployment == d && e.status == Ready && e.accepted
  }

  lemma {:induction false} NoReadyWrites(es: seq<Event>, d: DeploymentId)
    requires forall e | e in es :: !IsReadyWrite(e, d)
    ensures ReadyWrites(es, d) == 0
    decreases |es|
  {
    if es != [] {
      NoReadyWrites(es[..|es| - 1], d);
      assert !IsReadyWrite(es[|es| - 1], d);
    }
  }

  lemma {:induction false} ReadyWritesConcat(h: seq<Event>, es: seq<Event>, d: DeploymentId)
    ensures ReadyWrites(h + es, d) == ReadyWrites(h, d) + ReadyWrites(es, d)
    decreases |es|
  {
    if es == [] {
      assert h + es == h;
    } else {
      ReadyWritesConcat(h, es[..|es| - 1], d);
      assert (h + es)[..|h + es| - 1] == h + es[..|es| - 1];
    }
  }

  // ---------------------------------------------------------------------
  // The events of one step
  // ---------------------------------------------------------------------

  function WorkerEvents(s: State, ok: bool): seq<Event> {
    if s.worker.Idle? then []
    else
      var d := s.worker.job.deployment;
      var accepted := ok && d < |s.rows|;
      match s.worker.at
      case MarkBuilding => [StatusWrite(d, Building, BuildWorker, accepted)]
      case MarkImage => [StatusWrite(d, Building, BuildWorker, accepted)]
      case MarkDeploying => [StatusWrite(d, Deploying, BuildWorker, accepted)]
      case DeployCluster => [ClusterDeploy(d)]
      case MarkReady => [StatusWrite(d, Ready, BuildWorker, accepted)]
      case MarkFailed => [StatusWrite(d, Failed, BuildWorker, accepted)]
      case MarkCanceled => [StatusWrite(d, Canceled, BuildWorker, accepted)]
      case MarkCleaned => [StatusWrite(d, Canceled, BuildWorker, accepted)]
      case RetirePrevious =>
        if s.worker.job.previous.None? then []
        else
          var e := s.worker.job.previous.value;
          [StatusWrite(e, Superseded, BuildWorker, ok && e < |s.rows|)]
      case _ => []
  }

  function Events(s: State, a: Action): seq<Event> {
    var inserted := StatusWrite(|s.rows|, Queued, Api, true);
    match a
    case Create(p) => if CreateDeployment(s, p).1 == BadRequest then [] else [inserted]
    case Push(p) =>
      var current := FindLatest(s.rows, p, IN_FLIGHT + {Ready});
      if current.Some? && s.rows[current.value].status != Ready
      then [StatusWrite(current.value, Canceled, Api, true), inserted] else [inserted]
    case Cancel(d) => if CancelDeployment(s, d).1 == Cancelled then [StatusWrite(d, Canceled, Api, true)] else []
    case WorkerStep(ok) => WorkerEvents(s, ok)
    case CleanerStep(ok) =>
      if s.cleaner.Waiting? || s.cleaner.todo == [] then []
      else if !s.cleaner.cleaned then [ClusterCleanup(s.cleaner.todo[0], ok)]
      else [StatusWrite(s.cleaner.todo[0], Expired, CleanupWorker, ok && s.cleaner.todo[0] < |s.rows|)]
    case _ => []
  }

  lemma WorkerHistoryStep(s: State, ok: bool)
    ensures StepWorker(s, ok).history == s.history + WorkerEvents(s, ok)
  {
  }

  lemma HistoryStep(s: State, a: Action)
    requires Enabled(s, a)
    ensures Apply(s, a).history == s.history + Events(s, a)
  {
    match a {
      case WorkerStep(ok) => WorkerHistoryStep(s, ok);
      case Push(p) => TriggerHistory(s, p);
      case _ =>
    }
  }

  lemma TriggerHistory(s: State, p: ProjectId)
    ensures TriggerDeployment(s, p).0.history == s.history + Events(s, Push(p))
  {
  }

  // Only the worker writes READY or deploys, at the matching point; a succeeded row is only retired.
  predicate EventKind(s: State, a: Action, e: Event) {
    match e
    case ClusterDeploy(d) =>
      a.WorkerStep? && s.worker.Running? && s.worker.job.deployment == d && s.worker.at == DeployCluster
    case ClusterCleanup(d, _) => a.CleanerStep?
    case StatusWrite(d, status, writer, accepted) =>
      && (d < |s.rows| && s.rows[d].isSuccess ==> status in RETIRED)
      && (status == Ready ==>
            (a.WorkerStep? && s.worker.Running? && s.worker.job.deployment == d
             && s.worker.at == MarkReady && (accepted ==> a.ok)))
      && (writer == BuildWorker ==>
            (a.WorkerStep? && s.worker.Running?
             && (s.worker.job.deployment == d || (d < |s.rows| && s.rows[d].isSuccess))))
  }

  lemma EventKinds(s: State, a: Action)
    requires Inv(s)
    ensures |Events(s, a)| <= 2
    ensures forall i :: 0 <= i < |Events(s, a)| ==> EventKind(s, a, Events(s, a)[i])
  {
    if a.CleanerStep? && s.cleaner.Retiring? && s.cleaner.todo != [] {
      assert s.cleaner.todo[0] in s.cleaner.todo;
    }
  }

  // What actors other than the worker may do to its part of the state: queue one new job at most.
  ghost predicate LeavesWorker(s: State, s': State) {
    && s'.worker == s.worker
    && s.keys.Keys <= s'.keys.Keys
    && |s.rows| <= |s'.rows|
    && (s'.queue == s.queue
        || (|s'.queue| == |s.queue| + 1 && s'.queue[..|s.queue|] == s.queue
            && s'.queue[|s.queue|].deployment == |s.rows| < |s'.rows|))
  }

  lemma EnqueueLeavesWorker(s: State, t: State, p: ProjectId, previous: Option<DeploymentId>)
    requires t.worker == s.worker && s.keys.Keys <= t.keys.Keys && t.queue == s.queue && |t.rows| == |s.rows|
    ensures LeavesWorker(s, Enqueue(t, p, previous))
  {
  }

  // Actors other than the worker leave its position alone, delete no key and at most queue a new job.
  lemma EnvironmentStep(s: State, a: Action)
    requires Enabled(s, a) && !a.WorkerStep?
    ensures LeavesWorker(s, Apply(s, a))
  {
    match a {
      case Create(p) => EnqueueLeavesWorker(s, s, p, None);
      case Push(p) =>
        var current := FindLatest(s.rows, p, IN_FLIGHT + {Ready});
        EnqueueLeavesWorker(s, s, p, current);
        EnqueueLeavesWorker(s, s, p, None);
        if current.Some? { EnqueueLeavesWorker(s, AbortInFlight(s, current.value), p, None); }
      case _ =>
    }
  }

  // What no statement of processJob touches, and how the worker's position moves.
  lemma WorkerFrame(s: State, ok: bool)
    requires s.worker.Running?
    ensures var s' := RunStep(s, ok);
            && s'.queue == s.queue && |s'.rows| == |s.rows| && s'.cleaner == s.cleaner
            && s'.clock == s.clock && s'.ttlMinutes == s.ttlMinutes
            && (s.worker.at != ClearSignal ==> s'.keys == s.keys)
            && (s.worker.at == ClearSignal ==> s'.keys in {s.keys, s.keys - {s.worker.job.deployment}})
            && (s'.worker.Running? ==> s'.worker.job == s.worker.job)
  {
  }

  // ---------------------------------------------------------------------
  // Exactly once, and retirement
  // ---------------------------------------------------------------------

  // No job of d waits in the queue, and none will be made: d has its row.
  predicate NotQueued(s: State, d: DeploymentId) {
    d < |s.rows| && forall j | j in s.queue :: j.deployment != d
  }

  // The job of d was let go: neither the queue nor the worker holds it.
  predicate LetGo(s: State, d: DeploymentId) {
    NotQueued(s, d) && !(s.worker.Running? && s.worker.job.deployment == d)
  }

  lemma NotQueuedStep(s: State, a: Action, s': State, d: DeploymentId)
    requires Inv(s) && Enabled(s, a) && s' == Apply(s, a) && NotQueued(s, d)
    ensures NotQueued(s', d)
    ensures LetGo(s, d) ==> LetGo(s', d)
  {
    StepKeepsInv(s, a);
    if !a.WorkerStep? {
      EnvironmentStep(s, a);
      forall j | j in s'.queue ensures j.deployment != d {
        var x :| 0 <= x < |s'.queue| && s'.queue[x] == j;
        if x < |s.queue| {
          assert s'.queue[x] == s'.queue[..|s.queue|][x];
          assert s.queue[x] in s.queue;
        }
      }
    } else if s.worker.Running? {
      WorkerFrame(s, a.ok);
    } else if a.ok && s.queue != [] {
      assert s.queue[|s.queue| - 1] in s.queue;
    }
  }

  lemma NotQueuedNext(ttl: map<UserId, nat>, trace: seq<Action>, k: nat, d: DeploymentId)
    requires Follows(Initial(ttl), trace) && k < |trace|
    requires NotQueued(StateAt(Initial(ttl), trace, k), d)
    ensures NotQueued(StateAt(Initial(ttl), trace, k + 1), d)
    ensures LetGo(StateAt(Initial(ttl), trace, k), d) ==> LetGo(StateAt(Initial(ttl), trace, k + 1), d)
  {
    InvAt(ttl, trace, k);
    StateAtStep(Initial(ttl), trace, k);
    NotQueuedStep(StateAt(Initial(ttl), trace, k), trace[k], StateAt(Initial(ttl), trace, k + 1), d);
  }

  // Once let go, whether after READY, CANCELED or FAILED, the job of d is never held again.
  lemma {:induction false} LetGoForever(ttl: map<UserId, nat>, trace: seq<Action>, i: nat, k: nat, d: DeploymentId)
    requires Follows(Initial(ttl), trace) && i <= k <= |trace|
    requires NotQueued(StateAt(Initial(ttl), trace, i), d)
    ensures NotQueued(StateAt(Initial(ttl), trace, k), d)
    ensures LetGo(StateAt(Initial(ttl), trace, i), d) ==> LetGo(StateAt(Initial(ttl), trace, k), d)
    decreases k
  {
    if i < k {
      LetGoForever(ttl, trace, i, k - 1, d);
      NotQueuedNext(ttl, trace, k - 1, d);
    }
  }

  // Action i takes the job of d off the queue.
  predicate PoppedAt(s: State, trace: seq<Action>, i: nat, d: DeploymentId)
    requires Follows(s, trace)
  {
    && i < |trace|
    && StateAt(s, trace, i).worker.Idle?
    && StateAt(s, trace, i + 1).worker.Running? && StateAt(s, trace, i + 1).worker.job.deployment == d
  }

  lemma PopTakes(s: State, a: Action, d: DeploymentId)
    requires Inv(s) && Enabled(s, a) && s.worker.Idle?
    requires Apply(s, a).worker.Running? && Apply(s, a).worker.job.deployment == d
    ensures !NotQueued(s, d) && NotQueued(Apply(s, a), d)
  {
    if !a.WorkerStep? { EnvironmentStep(s, a); }
    var last := |s.queue| - 1;
    assert s.queue[last] in s.queue && s.queue[last].deployment == d;
    assert JobSound(s, s.queue[last]);
    forall j | j in s.queue[..last] ensures j.deployment != d {
      var x :| 0 <= x < last && s.queue[x] == j;
    }
  }

  lemma PoppedBefore(ttl: map<UserId, nat>, trace: seq<Action>, i: nat, k: nat, d: DeploymentId)
    requires Follows(Initial(ttl), trace)
    requires PoppedAt(Initial(ttl), trace, i, d) && PoppedAt(Initial(ttl), trace, k, d)
    ensures k <= i
  {
    var s0 := Initial(ttl);
    InvAt(ttl, trace, i);
    InvAt(ttl, trace, k);
    StateAtStep(s0, trace, i);
    StateAtStep(s0, trace, k);
    PopTakes(StateAt(s0, trace, i), trace[i], d);
    PopTakes(StateAt(s0, trace, k), trace[k], d);
    if i < k { LetGoForever(ttl, trace, i + 1, k, d); }
  }

  // A deployment's job is popped at most once in a run, there is at most one of it across queue and
  // worker, READY is written at most once, and exactly when isSuccess.
  lemma ExactlyOnce(ttl: map<UserId, nat>, trace: seq<Action>, d: DeploymentId)
    requires Follows(Initial(ttl), trace)
    ensures forall i: nat, k: nat ::
              PoppedAt(Initial(ttl), trace, i, d) && PoppedAt(Initial(ttl), trace, k, d) ==> i == k
    ensures var s := Exec(Initial(ttl), trace);
            && JobsUnique(s)
            && ReadyWrites(s.history, d) <= 1
            && (ReadyWrites(s.history, d) == 1 <==> d < |s.rows| && s.rows[d].isSuccess)
            && (d < |s.rows| ==> RowConsistent(s.rows[d]))
  {
    InvAlways(ttl, trace);
    forall i: nat, k: nat | PoppedAt(Initial(ttl), trace, i, d) && PoppedAt(Initial(ttl), trace, k, d)
      ensures i == k
    {
      PoppedBefore(ttl, trace, i, k, d);
      PoppedBefore(ttl, trace, k, i, d);
    }
  }

  // A READY row only ever becomes SUPERSEDED or EXPIRED, that pair is never left, its times
  // never change, and a FAILED row never changes at all.
  lemma {:induction false} Retirement(ttl: map<UserId, nat>, trace: seq<Action>, i: nat, k: nat, d: DeploymentId)
    requires Follows(Initial(ttl), trace) && i <= k <= |trace|
    requires d < |StateAt(Initial(ttl), trace, i).rows|
    ensures d < |StateAt(Initial(ttl), trace, k).rows|
    ensures var r, r' := StateAt(Initial(ttl), trace, i).rows[d], StateAt(Initial(ttl), trace, k).rows[d];
            && (r.isSuccess ==> r' == r.(status := r'.status) && (r'.status == r.status || r'.status in RETIRED))
            && (r.status in RETIRED ==> r'.status in RETIRED)
            && (r.status == Failed ==> r' == r)
    decreases k
  {
    if i < k {
      Retirement(ttl, trace, i, k - 1, d);
      StateAtStep(Initial(ttl), trace, k - 1);
      InvAt(ttl, trace, i);
      InvAt(ttl, trace, k - 1);
      StepKeepsInv(StateAt(Initial(ttl), trace, k - 1), trace[k - 1]);
    }
  }

  // Once retired, a deployment is in no later answer to the cleanup worker, so a cleanup that
  // failed to remove its cluster resources is never repeated for it.
  lemma RetiredNeverFetched(ttl: map<UserId, nat>, trace: seq<Action>, i: nat, k: nat, d: DeploymentId)
    requires Follows(Initial(ttl), trace) && i <= k < |trace|
    requires d < |StateAt(Initial(ttl), trace, i).rows|
    requires StateAt(Initial(ttl), trace, i).rows[d].status in RETIRED
    ensures trace[k].FetchExpired? ==> d !in trace[k].list
  {
    Retirement(ttl, trace, i, k, d);
    StateAtStep(Initial(ttl), trace, k);
  }

  // The events tell the same story: after an accepted READY write on d, only retirements are accepted.
  ghost predicate OnlyRetirementsAfterReady(h: seq<Event>) {
    forall i, k :: 0 <= i < k < |h|
      && h[i].StatusWrite? && h[i].status == Ready && h[i].accepted
      && h[k].StatusWrite? && h[k].accepted && h[k].deployment == h[i].deployment
      ==> h[k].status in RETIRED
  }

  lemma {:induction false} ReadyInHistory(h: seq<Event>, i: nat)
    requires i < |h| && h[i].StatusWrite? && h[i].status == Ready && h[i].accepted
    ensures ReadyWrites(h, h[i].deployment) >= 1
    decreases |h|
  {
    if i < |h| - 1 {
      ReadyInHistory(h[..|h| - 1], i);
    }
  }

  lemma HistoryRetirementStep(s: State, a: Action)
    requires Inv(s) && Enabled(s, a) && OnlyRetirementsAfterReady(s.history)
    ensures OnlyRetirementsAfterReady(Apply(s, a).history)
  {
    HistoryStep(s, a);
    EventKinds(s, a);
    forall e, d | e in Events(s, a) && e.StatusWrite? && e.deployment == d && ReadyWrites(s.history, d) >= 1
      ensures e.status in RETIRED
    {
      assert d < |s.rows| && s.rows[d].isSuccess;
    }
    RetirementsAppend(s.history, Events(s, a));
  }

  lemma RetirementsAppend(h: seq<Event>, es: seq<Event>)
    requires OnlyRetirementsAfterReady(h)
    requires |es| <= 1 || forall e | e in es :: e.StatusWrite? ==> e.status != Ready
    requires forall e, d | e in es && e.StatusWrite? && e.deployment == d && ReadyWrites(h, d) >= 1 ::
               e.status in RETIRED
    ensures OnlyRetirementsAfterReady(h + es)
  {
    var g := h + es;
    assert forall x | |h| <= x < |g| :: g[x] == es[x - |h|];
    forall i, k | 0 <= i < k < |g|
        && g[i].StatusWrite? && g[i].status == Ready && g[i].accepted
        && g[k].StatusWrite? && g[k].accepted && g[k].deployment == g[i].deployment
      ensures g[k].status in RETIRED
    {
      if i < |h| {
        ReadyInHistory(h, i);
      }
    }
  }

  lemma {:induction false} HistoryRetirement(ttl: map<UserId, nat>, trace: seq<Action>)
    requires Follows(Initial(ttl), trace)
    ensures OnlyRetirementsAfterReady(Exec(Initial(ttl), trace).history)
    decreases |trace|
  {
    if trace != [] {
      var m := |trace| - 1;
      HistoryRetirement(ttl, trace[..m]);
      InvAlways(ttl, trace[..m]);
      HistoryRetirementStep(Exec(Initial(ttl), trace[..m]), trace[m]);
    }
  }

  // ---------------------------------------------------------------------
  // Cancel safety
  // ---------------------------------------------------------------------

  // Points up to and including the last checkpoint.
  predicate BeforeLastCheck(p: Point) {
    p in {CheckQueued, MarkBuilding, CheckSettings, FetchToken, CheckClone, Clone, CheckBuild, Build,
          MarkImage, CheckDeploy}
  }

  // The job of d is queued or short of its last checkpoint, and d's signal is out.
  predicate CancelPending(s: State, d: DeploymentId) {
    && Published(s, d)
    && ((exists j :: j in s.queue && j.deployment == d)
        || (s.worker.Running? && s.worker.job.deployment == d && BeforeLastCheck(s.worker.at)))
  }

  function LastWorkerWrite(h: seq<Event>, d: DeploymentId): Option<Status> {
    if h == [] then None
    else
      var e := h[|h| - 1];
      if e.StatusWrite? && e.writer == BuildWorker && e.deployment == d then Some(e.status)
      else LastWorkerWrite(h[..|h| - 1], d)
  }

  // d will not be deployed: it has not succeeded, and every way forward meets its signal.
  ghost predicate Stopped(s: State, d: DeploymentId) {
    && d < |s.rows| && !s.rows[d].isSuccess
    && ClusterDeploy(d) !in s.history
    && ((exists j :: j in s.queue && j.deployment == d) ==> Published(s, d))
    && (s.worker.Running? && s.worker.job.deployment == d ==>
          || (Published(s, d) && BeforeLastCheck(s.worker.at))
          || s.worker.at in {MarkFailed, MarkCanceled}
          || (s.worker.at in {CleanCluster, MarkCleaned, ClearSignal}
              && LastWorkerWrite(s.history, d) == Some(Canceled)))
    && (!(exists j :: Held(s, j) && j.deployment == d) ==>
          LastWorkerWrite(s.history, d) in {Some(Canceled), Some(Failed)})
  }

  // Jobs short of their last checkpoint have not reached the cluster.
  ghost predicate EarlyJobsUndeployed(s: State) {
    && (forall e | e in s.history && e.ClusterDeploy? :: e.deployment < |s.rows|)
    && (forall j | j in s.queue :: ClusterDeploy(j.deployment) !in s.history)
    && (s.worker.Running? && s.worker.at !in {MarkReady, RetirePrevious, MarkFailed} ==>
          s.worker.at in {MarkCanceled, CleanCluster, MarkCleaned, ClearSignal}
          || ClusterDeploy(s.worker.job.deployment) !in s.history)
  }

  lemma EarlyJobsStep(s: State, a: Action)
    requires Inv(s) && EarlyJobsUndeployed(s) && Enabled(s, a)
    ensures EarlyJobsUndeployed(Apply(s, a))
  {
    HistoryStep(s, a);
    EventKinds(s, a);
    if a.WorkerStep? {
      EarlyJobsWorkerStep(s, a.ok);
    } else {
      EnvironmentStep(s, a);
      assert forall e | e in Events(s, a) :: !e.ClusterDeploy?;
    }
  }

  // Which points follow one another.
  lemma LateMoves(s: State, ok: bool)
    requires s.worker.Running?
    ensures var s' := RunStep(s, ok);
            s'.worker.Running? ==>
              && (s.worker.at == DeployCluster ==> s'.worker.at in {MarkReady, MarkFailed})
              && (s.worker.at in {MarkReady, RetirePrevious, MarkFailed} ==>
                    s'.worker.at in {RetirePrevious, MarkFailed})
              && (s.worker.at in {MarkCanceled, CleanCluster, MarkCleaned, ClearSignal} ==>
                    s'.worker.at in {MarkCanceled, CleanCluster, MarkCleaned, ClearSignal})
  {
  }

  lemma PopKeepsEarlyJobs(s: State, ok: bool)
    requires Inv(s) && EarlyJobsUndeployed(s) && s.worker.Idle?
    ensures EarlyJobsUndeployed(PopJob(s, ok))
  {
    if ok && s.queue != [] {
      assert s.queue[|s.queue| - 1] in s.queue;
    }
  }

  lemma EarlyJobsWorkerStep(s: State, ok: bool)
    requires Inv(s) && EarlyJobsUndeployed(s)
    requires StepWorker(s, ok).history == s.history + WorkerEvents(s, ok)
    ensures EarlyJobsUndeployed(StepWorker(s, ok))
  {
    if s.worker.Running? {
      WorkerFrame(s, ok);
      LateMoves(s, ok);
      assert forall e | e in WorkerEvents(s, ok) && e.ClusterDeploy? ::
          e.deployment == s.worker.job.deployment && s.worker.at == DeployCluster;
      EarlyJobsKept(s, StepWorker(s, ok), WorkerEvents(s, ok));
    } else {
      PopKeepsEarlyJobs(s, ok);
    }
  }

  lemma EarlyJobsKept(s: State, s': State, es: seq<Event>)
    requires Inv(s) && EarlyJobsUndeployed(s) && s.worker.Running?
    requires s'.history == s.history + es && s'.queue == s.queue && |s'.rows| == |s.rows|
    requires forall e | e in es && e.ClusterDeploy? ::
               e.deployment == s.worker.job.deployment && s.worker.at == DeployCluster
    requires s'.worker.Running? ==> s'.worker.job == s.worker.job
    requires s'.worker.Running? && s.worker.at == DeployCluster ==> s'.worker.at in {MarkReady, MarkFailed}
    requires s'.worker.Running? && s.worker.at in {MarkReady, RetirePrevious, MarkFailed} ==>
               s'.worker.at in {RetirePrevious, MarkFailed}
    requires s'.worker.Running? && s.worker.at in {MarkCanceled, CleanCluster, MarkCleaned, ClearSignal} ==>
               s'.worker.at in {MarkCanceled, CleanCluster, MarkCleaned, ClearSignal}
    ensures EarlyJobsUndeployed(s')
  {
  }

  lemma {:induction false} EarlyJobsAlways(ttl: map<UserId, nat>, trace: seq<Action>)
    requires Follows(Initial(ttl), trace)
    ensures EarlyJobsUndeployed(Exec(Initial(ttl), trace))
    decreases |trace|
  {
    if trace != [] {
      EarlyJobsAlways(ttl, trace[..|trace| - 1]);
      InvAlways(ttl, trace[..|trace| - 1]);
      EarlyJobsStep(Exec(Initial(ttl), trace[..|trace| - 1]), trace[|trace| - 1]);
    }
  }

  // The worker is about to read d's key for the last time and the read finds it.
  predicate LastCheckHears(s: State, a: Action, d: DeploymentId) {
    a.WorkerStep? && s.worker.Running? && s.worker.job.deployment == d && s.worker.at == CheckDeploy
    ==> a.ok && Signalled(s, d)
  }

  lemma StoppedStep(s: State, a: Action, d: DeploymentId)
    requires Inv(s) && Enabled(s, a) && Stopped(s, d) && LastCheckHears(s, a, d)
    ensures Stopped(Apply(s, a), d)
  {
    StoppedUndeployed(s, a, d);
    StoppedLastWrite(s, a, d);
    StillNotReady(s, a, d);
    if a.WorkerStep? {
      if s.worker.Idle? {
        StoppedPop(s, a.ok, d);
      } else if s.worker.job.deployment == d {
        StoppedOwnStep(s, a.ok, d);
      } else {
        WorkerFrame(s, a.ok);
        StoppedOtherStep(s, Apply(s, a), d);
      }
    } else {
      EnvironmentStep(s, a);
      HeldElsewhere(s, Apply(s, a), d);
    }
  }

  // No job of d appears or disappears.
  lemma HeldElsewhere(s: State, s': State, d: DeploymentId)
    requires s'.worker == s.worker || (s.worker.Running? && s.worker.job.deployment != d
                                       && (s'.worker.Running? ==> s'.worker.job == s.worker.job))
    requires s'.queue == s.queue
             || (|s'.queue| == |s.queue| + 1 && s'.queue[..|s.queue|] == s.queue
                 && s'.queue[|s.queue|].deployment != d)
    ensures (exists j :: j in s'.queue && j.deployment == d) <==> (exists j :: j in s.queue && j.deployment == d)
    ensures (exists j :: Held(s', j) && j.deployment == d) <==> (exists j :: Held(s, j) && j.deployment == d)
  {
    forall j | j in s.queue ensures j in s'.queue {
      if s'.queue != s.queue { assert s'.queue == s.queue + [s'.queue[|s.queue|]]; }
    }
    forall j | j in s'.queue && j.deployment == d ensures j in s.queue {
      if s'.queue != s.queue { assert s'.queue == s.queue + [s'.queue[|s.queue|]]; }
    }
    if j :| Held(s, j) && j.deployment == d { assert Held(s', j); }
    if j :| Held(s', j) && j.deployment == d { assert Held(s, j); }
  }

  lemma StillNotReady(s: State, a: Action, d: DeploymentId)
    requires Inv(s) && Enabled(s, a) && Stopped(s, d)
    ensures d < |Apply(s, a).rows| && !Apply(s, a).rows[d].isSuccess
  {
    StepKeepsInv(s, a);
    assert ReadyWrites(s.history, d) == 0;
    if ReadyWrites(Apply(s, a).history, d) > 0 { ReadyWriteStep(s, a, d); }
  }

  lemma StoppedUndeployed(s: State, a: Action, d: DeploymentId)
    requires Inv(s) && Enabled(s, a) && Stopped(s, d)
    ensures ClusterDeploy(d) !in Apply(s, a).history
  {
    HistoryStep(s, a);
    EventKinds(s, a);
    assert ClusterDeploy(d) !in Events(s, a);
  }

  // Which worker write on d a step may add.
  lemma StoppedLastWrite(s: State, a: Action, d: DeploymentId)
    requires Inv(s) && Enabled(s, a) && d < |s.rows| && !s.rows[d].isSuccess
    requires a.WorkerStep? && s.worker.Running? && s.worker.job.deployment == d ==>
               BeforeLastCheck(s.worker.at) || !CanFinish(s.worker.at)
    ensures var own := a.WorkerStep? && s.worker.Running? && s.worker.job.deployment == d;
            LastWorkerWrite(Apply(s, a).history, d)
            == if own && s.worker.at == MarkFailed then Some(Failed)
               else if own && s.worker.at in {MarkCanceled, MarkCleaned} then Some(Canceled)
               else if own && s.worker.at in {MarkBuilding, MarkImage} then Some(Building)
               else LastWorkerWrite(s.history, d)
  {
    HistoryStep(s, a);
    EventKinds(s, a);
    var own := a.WorkerStep? && s.worker.Running? && s.worker.job.deployment == d;
    if !own {
      assert forall e | e in Events(s, a) :: !(e.StatusWrite? && e.writer == BuildWorker && e.deployment == d);
      NoWorkerWrite(s.history, Events(s, a), d);
    } else {
      OwnEvents(s, a.ok);
      if |Events(s, a)| == 1 {
        LastWorkerWriteAppend(s.history, Events(s, a)[0], d);
        assert Events(s, a) == [Events(s, a)[0]];
      } else {
        assert s.history + Events(s, a) == s.history;
      }
    }
  }

  lemma OwnEvents(s: State, ok: bool)
    requires Inv(s) && s.worker.Running? && s.worker.at != RetirePrevious
    ensures |WorkerEvents(s, ok)| <= 1
    ensures WorkerEvents(s, ok) != [] ==> !WorkerEvents(s, ok)[0].StatusWrite?
                                          || WorkerEvents(s, ok)[0].deployment == s.worker.job.deployment
  {
  }

  lemma {:induction false} NoWorkerWrite(h: seq<Event>, es: seq<Event>, d: DeploymentId)
    requires forall e | e in es :: !(e.StatusWrite? && e.writer == BuildWorker && e.deployment == d)
    ensures LastWorkerWrite(h + es, d) == LastWorkerWrite(h, d)
    decreases |es|
  {
    if es == [] {
      assert h + es == h;
    } else {
      NoWorkerWrite(h, es[..|es| - 1], d);
      assert h + es == (h + es[..|es| - 1]) + [es[|es| - 1]];
      LastWorkerWriteAppend(h + es[..|es| - 1], es[|es| - 1], d);
    }
  }

  lemma LastWorkerWriteAppend(h: seq<Event>, e: Event, d: DeploymentId)
    ensures LastWorkerWrite(h + [e], d)
            == if e.StatusWrite? && e.writer == BuildWorker && e.deployment == d then Some(e.status)
               else LastWorkerWrite(h, d)
  {
    assert (h + [e])[..|h|] == h;
  }

  lemma StoppedPop(s: State, ok: bool, d: DeploymentId)
    requires Inv(s) && s.worker.Idle? && Stopped(s, d)
    ensures Stopped(PopJob(s, ok), d)
  {
    var s' := PopJob(s, ok);
    if ok && s.queue != [] {
      var last := s.queue[|s.queue| - 1];
      assert last in s.queue;
      assert s.queue == s'.queue + [last];
      if j :| Held(s, j) && j.deployment == d { assert Held(s', j); }
    }
  }

  lemma StoppedOwnStep(s: State, ok: bool, d: DeploymentId)
    requires Inv(s) && Stopped(s, d) && LastCheckHears(s, WorkerStep(ok), d)
    requires s.worker.Running? && s.worker.job.deployment == d
    requires d < |RunStep(s, ok).rows| && !RunStep(s, ok).rows[d].isSuccess
    requires ClusterDeploy(d) !in RunStep(s, ok).history
    requires LastWorkerWrite(RunStep(s, ok).history, d)
             == if s.worker.at == MarkFailed then Some(Failed)
                else if s.worker.at in {MarkCanceled, MarkCleaned} then Some(Canceled)
                else if s.worker.at in {MarkBuilding, MarkImage} then Some(Building)
                else LastWorkerWrite(s.history, d)
    ensures Stopped(RunStep(s, ok), d)
  {
    var s' := RunStep(s, ok);
    assert forall j | j in s.queue :: j.deployment != d;
    assert s'.queue == s.queue;
    if s'.worker.Running? {
      assert s'.worker.job == s.worker.job;
      assert Held(s', s.worker.job);
      assert s'.keys == s.keys;
    }
  }

  lemma StoppedOtherStep(s: State, s': State, d: DeploymentId)
    requires Inv(s) && Stopped(s, d)
    requires s.worker.Running? && s.worker.job.deployment != d
    requires d < |s'.rows| && !s'.rows[d].isSuccess
    requires ClusterDeploy(d) !in s'.history
    requires LastWorkerWrite(s'.history, d) == LastWorkerWrite(s.history, d)
    requires s'.queue == s.queue && s.keys.Keys - {s.worker.job.deployment} <= s'.keys.Keys
    requires s'.worker.Running? ==> s'.worker.job == s.worker.job
    ensures Stopped(s', d)
  {
    HeldElsewhere(s, s', d);
  }

  // If d's signal is out before the last checkpoint of its job and that checkpoint hears it, then
  // from there on d is never deployed and never READY, and once the job is gone the worker's last
  // status write for it was CANCELED or FAILED.
  lemma {:induction false} CancelSafety(ttl: map<UserId, nat>, trace: seq<Action>, i: nat, k: nat, d: DeploymentId)
    requires Follows(Initial(ttl), trace) && i <= k <= |trace|
    requires CancelPending(StateAt(Initial(ttl), trace, i), d)
    requires forall m: nat :: i <= m < k ==> LastCheckHears(StateAt(Initial(ttl), trace, m), trace[m], d)
    ensures Stopped(StateAt(Initial(ttl), trace, k), d)
    ensures ReadyWrites(StateAt(Initial(ttl), trace, k).history, d) == 0
    decreases k
  {
    if i == k {
      InvAt(ttl, trace, i);
      PrefixFollows(Initial(ttl), trace, i);
      EarlyJobsAlways(ttl, trace[..i]);
      PendingIsStopped(StateAt(Initial(ttl), trace, i), d);
    } else {
      CancelSafety(ttl, trace, i, k - 1, d);
      var s := StateAt(Initial(ttl), trace, k - 1);
      assert LastCheckHears(s, trace[k - 1], d);
      InvAt(ttl, trace, k - 1);
      StateAtStep(Initial(ttl), trace, k - 1);
      StoppedStays(s, trace[k - 1], d);
    }
  }

  lemma StoppedStays(s: State, a: Action, d: DeploymentId)
    requires Inv(s) && Enabled(s, a) && Stopped(s, d) && LastCheckHears(s, a, d)
    ensures Stopped(Apply(s, a), d) && ReadyWrites(Apply(s, a).history, d) == 0
  {
    StoppedStep(s, a, d);
    StepKeepsInv(s, a);
  }

  lemma PendingIsStopped(s: State, d: DeploymentId)
    requires Inv(s) && EarlyJobsUndeployed(s) && CancelPending(s, d)
    ensures Stopped(s, d) && ReadyWrites(s.history, d) == 0
  {
    if j :| j in s.queue && j.deployment == d {
      assert Held(s, j);
    } else {
      assert Held(s, s.worker.job);
    }
  }

  // ---------------------------------------------------------------------
  // A signal concerns one deployment only
  // ---------------------------------------------------------------------

  predicate SameBut(s: State, t: State, d: DeploymentId) {
    t == s.(keys := t.keys) && s.keys - {d} == t.keys - {d}
  }

  predicate ReadsKey(s: State, a: Action, d: DeploymentId) {
    a.WorkerStep? && s.worker.Running? && s.worker.job.deployment == d && IsCheck(s.worker.at)
  }

  lemma SignalStep(s: State, t: State, a: Action, d: DeploymentId)
    requires SameBut(s, t, d) && Enabled(s, a) && !ReadsKey(s, a, d)
    ensures Enabled(t, a) && SameBut(Apply(s, a), Apply(t, a), d)
  {
    match a {
      case WorkerStep(ok) => SignalWorkerStep(s, t, ok, d);
      case FetchExpired(list) => assert forall e :: PastTtl(s, e) <==> PastTtl(t, e);
      case Push(p) => SignalPush(s, t, p, d);
      case Cancel(e) => SetKey(s.keys, t.keys, d, e, s.clock + CANCEL_TTL_MS);
      case _ =>
    }
  }

  lemma SignalPush(s: State, t: State, p: ProjectId, d: DeploymentId)
    requires SameBut(s, t, d)
    ensures SameBut(TriggerDeployment(s, p).0, TriggerDeployment(t, p).0, d)
  {
    var current := FindLatest(s.rows, p, IN_FLIGHT + {Ready});
    if current.Some? { SetKey(s.keys, t.keys, d, current.value, s.clock + CANCEL_TTL_MS); }
  }

  lemma SignalWorkerStep(s: State, t: State, ok: bool, d: DeploymentId)
    requires SameBut(s, t, d) && !ReadsKey(s, WorkerStep(ok), d)
    ensures SameBut(StepWorker(s, ok), StepWorker(t, ok), d)
  {
    if s.worker.Running? && IsCheck(s.worker.at) {
      OtherSignals(s, t, d, s.worker.job.deployment);
    } else if s.worker.Running? && s.worker.at == ClearSignal {
      assert s.keys - {s.worker.job.deployment} - {d} == s.keys - {d} - {s.worker.job.deployment};
      assert t.keys - {s.worker.job.deployment} - {d} == t.keys - {d} - {s.worker.job.deployment};
    } else if s.worker.Running? {
      QuietStep(s, t.keys, ok);
      WorkerFrame(s, ok);
    }
  }

  lemma OtherSignals(s: State, t: State, d: DeploymentId, e: DeploymentId)
    requires SameBut(s, t, d) && e != d
    ensures Signalled(s, e) <==> Signalled(t, e)
  {
    assert e in s.keys <==> e in s.keys - {d};
    assert e in t.keys <==> e in t.keys - {d};
  }

  lemma SetKey(k: map<DeploymentId, int>, k': map<DeploymentId, int>, d: DeploymentId, e: DeploymentId, v: int)
    requires k - {d} == k' - {d}
    ensures k[e := v] - {d} == k'[e := v] - {d}
  {
    assert forall x :: x in k && x != d ==> x in k - {d};
    assert forall x :: x in k' && x != d ==> x in k' - {d};
    if e == d {
      assert k[e := v] - {d} == k - {d};
      assert k'[e := v] - {d} == k' - {d};
    } else {
      assert k[e := v] - {d} == (k - {d})[e := v];
      assert k'[e := v] - {d} == (k' - {d})[e := v];
    }
  }

  // Steps of the worker that neither read nor delete a key do not depend on the keys.
  lemma QuietStep(s: State, keys: map<DeploymentId, int>, ok: bool)
    requires s.worker.Running? && !IsCheck(s.worker.at) && s.worker.at != ClearSignal
    ensures RunStep(s.(keys := keys), ok) == RunStep(s, ok).(keys := keys)
  {
    var t := s.(keys := keys);
    match s.worker.at {
      case MarkCleaned => assert RunStep(t, ok) == RunStep(s, ok).(keys := keys);
      case RetirePrevious => assert RunStep(t, ok) == RunStep(s, ok).(keys := keys);
      case _ =>
    }
  }

  // Until a checkpoint of d's own job reads d's key, a run with the signal and a run without it
  // agree on every row, every event, the queue and both workers.
  lemma {:induction false} SignalIsolation(s: State, t: State, trace: seq<Action>, d: DeploymentId)
    requires SameBut(s, t, d) && Follows(s, trace)
    requires forall k: nat :: k < |trace| ==> !ReadsKey(StateAt(s, trace, k), trace[k], d)
    ensures Follows(t, trace) && SameBut(Exec(s, trace), Exec(t, trace), d)
    decreases |trace|
  {
    if trace != [] {
      var m := |trace| - 1;
      PrefixFollows(s, trace, m);
      forall k: nat | k < m ensures !ReadsKey(StateAt(s, trace[..m], k), trace[..m][k], d) {
        assert trace[..m][..k] == trace[..k];
        assert StateAt(s, trace, k) == StateAt(s, trace[..m], k);
      }
      SignalIsolation(s, t, trace[..m], d);
      assert StateAt(s, trace, m) == Exec(s, trace[..m]);
      SignalStep(Exec(s, trace[..m]), Exec(t, trace[..m]), trace[m], d);
    }
  }

  // ---------------------------------------------------------------------
  // What does not hold: a cancelled job outlives its signal
  // ---------------------------------------------------------------------

  function Steps(s: State, n: nat): State
    decreases n
  {
    if n == 0 then s else Steps(StepWorker(s, true), n - 1)
  }

  function WorkerSteps(n: nat): seq<Action> {
    if n == 0 then [] else [WorkerStep(true)] + WorkerSteps(n - 1)
  }

  lemma {:induction false} StepsAreARun(s: State, n: nat)
    ensures Follows(s, WorkerSteps(n)) && Exec(s, WorkerSteps(n)) == Steps(s, n)
    decreases n
  {
    if n > 0 {
      StepsAreARun(StepWorker(s, true), n - 1);
      OneStep(s, WorkerStep(true));
      RunConcat(s, [WorkerStep(true)], WorkerSteps(n - 1));
    }
  }

  lemma OneStep(s: State, a: Action)
    requires Enabled(s, a)
    ensures Follows(s, [a]) && Exec(s, [a]) == Apply(s, a)
  {
    assert [a][..0] == [];
    assert Follows(s, []) && Exec(s, []) == s;
  }

  lemma {:induction false} StepsAdd(s: State, m: nat, n: nat)
    ensures Steps(s, m + n) == Steps(Steps(s, m), n)
    decreases m
  {
    if m > 0 { StepsAdd(StepWorker(s, true), m - 1, n); }
  }

  // How many statements a job at p still runs when everything succeeds; 0 on the error paths.
  function Remaining(p: Point): nat {
    match p
    case CheckQueued => 14
    case MarkBuilding => 13
    case CheckSettings => 12
    case FetchToken => 11
    case CheckClone => 10
    case Clone => 9
    case CheckBuild => 8
    case Build => 7
    case MarkImage => 6
    case CheckDeploy => 5
    case MarkDeploying => 4
    case DeployCluster => 3
    case MarkReady => 2
    case RetirePrevious => 1
    case _ => 0
  }

  // The job that was at the tail of s0's queue has `left` statements to go; nothing else happened
  // but that, at the end, the deployment it replaces is SUPERSEDED.
  predicate OnTrack(s0: State, s: State, left: nat)
    requires s0.queue != []
  {
    var j := s0.queue[|s0.queue| - 1];
    && |s.rows| == |s0.rows|
    && (forall i :: 0 <= i < |s0.rows| && i != j.deployment && !(left == 0 && j.previous == Some(i)) ==>
          s.rows[i] == s0.rows[i])
    && (left == 0 && j.previous.Some? && j.previous.value < |s.rows| && j.previous.value != j.deployment ==>
          s.rows[j.previous.value] == s0.rows[j.previous.value].(status := Superseded))
    && (j.deployment < |s.rows| ==>
          s.rows[j.deployment].project == s0.rows[j.deployment].project
          && s.rows[j.deployment].startedAt == s0.rows[j.deployment].startedAt)
    && s.queue == s0.queue[..|s0.queue| - 1] && s.keys == s0.keys && s.clock == s0.clock
    && s.cleaner == s0.cleaner && s.ttlMinutes == s0.ttlMinutes
    && (if left == 0 then s.worker == Idle
        else s.worker.Running? && s.worker.job == j && Remaining(s.worker.at) == left)
    && (left <= 1 && j.deployment < |s.rows| && j.previous != Some(j.deployment) ==>
          s.rows[j.deployment].status == Ready)
  }

  // The job at the tail of the queue has its row and no signal.
  predicate Runnable(s: State) {
    && s.worker.Idle? && s.queue != []
    && var j := s.queue[|s.queue| - 1];
       j.deployment < |s.rows| && !Signalled(s, j.deployment)
  }

  lemma Advance(s0: State, s: State, left: nat)
    requires s0.queue != [] && left > 0 && OnTrack(s0, s, left)
    requires var j := s0.queue[|s0.queue| - 1];
             j.deployment < |s0.rows| && !Signalled(s0, j.deployment)
    ensures OnTrack(s0, RunStep(s, true), left - 1)
  {
    assert !Signalled(s, s.worker.job.deployment);
    var s', next := RunStep(s, true), NextPoint(s, true);
    assert next.Some? ==> Remaining(next.value) == left - 1;
    assert next.None? ==> left == 1;
    WorkerFrame(s, true);
    if s.worker.at != RetirePrevious {
      assert forall i :: 0 <= i < |s.rows| && i != s.worker.job.deployment ==> s'.rows[i] == s.rows[i];
    }
  }

  lemma {:induction false} SuccessPath(s: State, n: nat)
    requires Runnable(s) && 1 <= n <= 15
    ensures OnTrack(s, Steps(s, n), 15 - n)
    decreases n
  {
    StepsAdd(s, n - 1, 1);
    var s1 := Steps(s, n - 1);
    assert Steps(s1, 1) == Steps(StepWorker(s1, true), 0) == StepWorker(s1, true);
    if n > 1 {
      SuccessPath(s, n - 1);
      Advance(s, s1, 16 - n);
    } else {
      assert StepWorker(s, true) == PopJob(s, true);
    }
  }

  // Undisturbed and unsignalled, the job at the tail of the queue turns its deployment READY, and
  // the one it replaces SUPERSEDED.
  lemma UndisturbedJobSucceeds(s: State)
    requires Runnable(s)
    ensures Follows(s, WorkerSteps(15)) && OnTrack(s, Exec(s, WorkerSteps(15)), 0)
  {
    SuccessPath(s, 15);
    StepsAreARun(s, 15);
  }

  // The worker takes the job that has waited longest exactly when it is the only one.
  lemma LongestWaitingFirst(s: State)
    requires Inv(s) && s.worker.Idle? && s.queue != []
    ensures PopJob(s, true).worker == Running(s.queue[0], CheckQueued) <==> |s.queue| == 1
  {
    assert |s.queue| > 1 ==> s.queue[0].deployment != s.queue[|s.queue| - 1].deployment;
  }

  // A run whose queue ends in such a job can go on with that job alone.
  lemma ThenRunJob(s0: State, trace: seq<Action>, s: State) returns (trace': seq<Action>, s': State)
    requires Follows(s0, trace) && s == Exec(s0, trace)
    requires Runnable(s)
    ensures trace <= trace' && Follows(s0, trace') && s' == Exec(s0, trace') && OnTrack(s, s', 0)
  {
    UndisturbedJobSucceeds(s);
    RunConcat(s0, trace, WorkerSteps(15));
    trace' := trace + WorkerSteps(15);
    s' := Exec(s, WorkerSteps(15));
  }

  lemma ThenStep(s0: State, trace: seq<Action>, s: State, a: Action) returns (trace': seq<Action>)
    requires Follows(s0, trace) && s == Exec(s0, trace) && Enabled(s, a)
    ensures trace' == trace + [a] && Follows(s0, trace') && Exec(s0, trace') == Apply(s, a)
  {
    OneStep(s, a);
    RunConcat(s0, trace, [a]);
    trace' := trace + [a];
  }

  // Row 0 was cancelled by the second push; the newest row is 1.
  predicate PushedTwice(s: State) {
    && |s.rows| == 2 && s.rows[0].status == Canceled && s.rows[0].project == s.rows[1].project
    && s.rows[0].project == DEMO
    && s.queue == [Job(0, DEMO, None), Job(1, DEMO, None)] && s.worker.Idle?
    && s.keys.Keys == {0} && s.keys[0] <= s.clock + CANCEL_TTL_MS
  }

  const DEMO: ProjectId := ProjectId(0, 0)

  lemma OnePush(s: State)
    requires s == Initial(map[])
    ensures var s' := Apply(s, Push(DEMO));
            && s'.rows == [Row(DEMO, Queued, false, 0, None, None)] && s'.queue == [Job(0, DEMO, None)]
            && s'.keys == map[] && s'.worker.Idle?
  {
  }

  lemma SecondPush(s: State)
    requires s.rows == [Row(DEMO, Queued, false, 0, None, None)] && s.queue == [Job(0, DEMO, None)]
    requires s.keys == map[] && s.worker.Idle?
    ensures PushedTwice(Apply(s, Push(DEMO)))
  {
    assert s.rows[..0] == [];
    assert FindLatest(s.rows, DEMO, IN_FLIGHT + {Ready}) == Some(0);
    var s1 := AbortInFlight(s, 0);
    assert s1.rows == [Row(DEMO, Canceled, false, 0, None, None)];
    assert Apply(s, Push(DEMO)) == Enqueue(s1, DEMO, None);
  }

  // Two pushes, and the worker takes the second one's job first.
  lemma NewerJobFirst() returns (trace: seq<Action>)
    ensures Follows(Initial(map[]), trace)
    ensures var s := Exec(Initial(map[]), trace);
            s.worker == Running(Job(1, DEMO, None), CheckQueued) && s.queue == [Job(0, DEMO, None)]
  {
    var s0 := Initial(map[]);
    var t := TwoPushes();
    var s := Exec(s0, t);
    assert s.queue == [Job(0, DEMO, None), Job(1, DEMO, None)];
    trace := ThenStep(s0, t, s, WorkerStep(true));
  }

  // Two pushes, the second of which cancels the first; the newer job runs first (the queue is
  // LIFO), the signal of the older one lapses, and then the cancelled deployment is built,
  // overwrites CANCELED and ends READY after the newer one.
  lemma StaleJobRevives() returns (trace: seq<Action>)
    ensures Follows(Initial(map[]), trace) && 2 <= |trace|
    ensures PushedTwice(StateAt(Initial(map[]), trace, 2))
    ensures var s := Exec(Initial(map[]), trace);
            |s.rows| == 2 && s.rows[0].status == Ready && s.rows[1].status == Ready
  {
    var start := TwoPushes();
    var s;
    trace, s := ReviveAfter(start);
    PrefixOfRun(Initial(map[]), start, trace);
  }

  lemma PrefixOfRun(s: State, t: seq<Action>, t': seq<Action>)
    requires Follows(s, t) && Follows(s, t') && t <= t'
    ensures StateAt(s, t', |t|) == Exec(s, t)
  {
    assert t'[..|t|] == t;
  }

  lemma TwoPushes() returns (t: seq<Action>)
    ensures |t| == 2 && Follows(Initial(map[]), t) && PushedTwice(Exec(Initial(map[]), t))
  {
    var s0 := Initial(map[]);
    OnePush(s0);
    var t1 := ThenStep(s0, [], s0, Push(DEMO));
    SecondPush(Exec(s0, t1));
    t := ThenStep(s0, t1, Exec(s0, t1), Push(DEMO));
  }

  lemma ReviveAfter(t: seq<Action>) returns (t': seq<Action>, s': State)
    requires Follows(Initial(map[]), t) && PushedTwice(Exec(Initial(map[]), t))
    ensures t <= t' && Follows(Initial(map[]), t') && s' == Exec(Initial(map[]), t')
    ensures |s'.rows| == 2 && s'.rows[0].status == Ready && s'.rows[1].status == Ready
  {
    var s0 := Initial(map[]);
    var s2 := Exec(s0, t);
    var t3, s3 := ThenRunJob(s0, t, s2);
    assert s3.queue == [Job(0, s2.rows[0].project, None)];
    var t4 := ThenStep(s0, t3, s3, Tick(CANCEL_TTL_MS));
    var s4 := Apply(s3, Tick(CANCEL_TTL_MS));
    var t5, s5 := ThenRunJob(s0, t4, s4);
    assert s5.rows[1] == s4.rows[1];
    t', s' := t5, s5;
  }
}
