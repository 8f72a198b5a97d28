/**
 What each operation of the pipeline means on the tables, without the functions that compute it:
 which rows, jobs, keys and events there are afterwards, and when a request is refused.
 */
module PipelineSpec {
  import opened Wrappers
  import opened Pipeline
  import opened PipelineInvariants
  import opened PipelineRuns

  predicate InProgress(status: Status) {
    status == Queued || status == Building || status == Deploying
  }

  // The row of the project that started last.
  ghost predicate LatestOf(rows: seq<Row>, p: ProjectId, i: nat) {
    && i < |rows| && rows[i].project == p
    && forall k: nat :: k < |rows| && rows[k].project == p ==> rows[k].startedAt <= rows[i].startedAt
  }

  predicate Current(r: Row, p: ProjectId) {
    r.project == p && (InProgress(r.status) || r.status == Ready)
  }

  // The row in progress or READY of the project that started last.
  ghost predicate CurrentOf(rows: seq<Row>, p: ProjectId, i: nat) {
    && i < |rows| && Current(rows[i], p)
    && forall k: nat :: k < |rows| && Current(rows[k], p) ==> rows[k].startedAt <= rows[i].startedAt
  }

  // One QUEUED row and its job come on top of the given rows and keys; the workers do not move.
  predicate Inserted(s: State, s': State, p: ProjectId, previous: Option<DeploymentId>,
                     rows: seq<Row>, keys: map<DeploymentId, int>) {
    && s'.rows == rows + [Row(p, Queued, false, s.clock, None, None)]
    && s'.queue == s.queue + [Job(|s.rows|, p, previous)]
    && s'.keys == keys && s'.worker == s.worker && s'.cleaner == s.cleaner
    && s'.clock == s.clock + 1 && s'.ttlMinutes == s.ttlMinutes
  }

  // Creating is refused exactly when the project's latest deployment is in progress, and then
  // nothing changes; otherwise one row and one job without a previous deployment are added.
  ghost predicate CreateSpec(s: State, s': State, p: ProjectId, r: Response) {
    if exists i: nat :: LatestOf(s.rows, p, i) && InProgress(s.rows[i].status)
    then r == BadRequest && s' == s
    else r == Created(|s.rows|) && Inserted(s, s', p, None, s.rows, s.keys)
  }

  // A push always deploys.  A current deployment in progress is cancelled, its status column alone
  // being written, and signalled for 300 seconds; a READY one is handed to the job as the previous.
  ghost predicate PushSpec(s: State, s': State, p: ProjectId, r: Response) {
    && r == Created(|s.rows|)
    && ((forall i: nat :: !CurrentOf(s.rows, p, i)) ==> Inserted(s, s', p, None, s.rows, s.keys))
    && (forall i: nat | CurrentOf(s.rows, p, i) ::
          if s.rows[i].status == Ready then Inserted(s, s', p, Some(i), s.rows, s.keys)
          else Inserted(s, s', p, None, s.rows[i := s.rows[i].(status := Canceled)],
                        s.keys[i := s.clock + 300_000]))
  }

  // A cancel is accepted exactly for a deployment in progress; its row gets the time and the whole
  // seconds since its start, and the signal lives for 300 seconds.
  predicate CancelSpec(s: State, s': State, d: DeploymentId, r: Response) {
    if d >= |s.rows| then r == NotFound && s' == s
    else if !InProgress(s.rows[d].status) then r == BadRequest && s' == s
    else
      var row := s.rows[d];
      && r == Cancelled
      && s' == s.(rows := s.rows[d := Row(row.project, Canceled, row.isSuccess, row.startedAt, Some(s.clock),
                                          Some((s.clock - row.startedAt) / 1000))],
                  keys := s.keys[d := s.clock + 300_000],
                  history := s.history + [StatusWrite(d, Canceled, Api, true)])
  }

  lemma LatestIsFound(s: State, p: ProjectId)
    requires Inv(s)
    ensures var f := FindLatest(s.rows, p, ANY_STATUS);
            && (f.Some? ==> LatestOf(s.rows, p, f.value))
            && forall i: nat :: LatestOf(s.rows, p, i) ==> f == Some(i)
  {
    var f := FindLatest(s.rows, p, ANY_STATUS);
    forall i: nat | i < |s.rows| ensures Matches(s.rows[i], p, ANY_STATUS) <==> s.rows[i].project == p {
      AnyStatus(s.rows[i].status);
    }
    forall i: nat | LatestOf(s.rows, p, i) ensures f == Some(i) {
      assert Matches(s.rows[i], p, ANY_STATUS);
    }
  }

  lemma AnyStatus(status: Status)
    ensures status in ANY_STATUS
  {
  }

  lemma CreateMeaning(s: State, p: ProjectId)
    requires Inv(s)
    ensures CreateSpec(s, CreateDeployment(s, p).0, p, CreateDeployment(s, p).1)
  {
    LatestIsFound(s, p);
  }

  lemma CurrentIsFound(s: State, p: ProjectId)
    requires Inv(s)
    ensures var f := FindLatest(s.rows, p, IN_FLIGHT + {Ready});
            && (f.Some? ==> CurrentOf(s.rows, p, f.value))
            && forall i: nat :: CurrentOf(s.rows, p, i) ==> f == Some(i)
  {
    var f := FindLatest(s.rows, p, IN_FLIGHT + {Ready});
    forall i: nat | i < |s.rows|
      ensures Matches(s.rows[i], p, IN_FLIGHT + {Ready}) <==> Current(s.rows[i], p) {}
    forall i: nat | CurrentOf(s.rows, p, i) ensures f == Some(i) {
      assert Matches(s.rows[i], p, IN_FLIGHT + {Ready});
    }
  }

  lemma PushMeaning(s: State, p: ProjectId)
    requires Inv(s)
    ensures PushSpec(s, TriggerDeployment(s, p).0, p, TriggerDeployment(s, p).1)
  {
    CurrentIsFound(s, p);
  }

  lemma CancelMeaning(s: State, d: DeploymentId)
    ensures CancelSpec(s, CancelDeployment(s, d).0, d, CancelDeployment(s, d).1)
  {
  }

  // The signal of an accepted cancel is heard for exactly 300 seconds, unless the worker deletes it.
  lemma SignalLives(s: State, d: DeploymentId, ms: nat)
    requires CancelDeployment(s, d).1 == Cancelled
    ensures Signalled(Apply(CancelDeployment(s, d).0, Tick(ms)), d) <==> ms < 300_000
  {
    CancelMeaning(s, d);
  }

  // ---------------------------------------------------------------------
  // The worker's statements
  // ---------------------------------------------------------------------

  // Every checkpoint turns the job away exactly when its read succeeds and finds a living signal.
  predicate CheckSpec(s: State, s': State, ok: bool)
    requires s.worker.Running?
  {
    var d := s.worker.job.deployment;
    && s' == s.(worker := s'.worker)
    && s'.worker.Running? && s'.worker.job == s.worker.job
    && (s'.worker.at == MarkCanceled <==> ok && d in s.keys && s.clock < s.keys[d])
    && (s'.worker.at != MarkCanceled ==>
          match s.worker.at
          case CheckQueued => s'.worker.at == MarkBuilding
          case CheckSettings => s'.worker.at == FetchToken
          case CheckClone => s'.worker.at == Clone
          case CheckBuild => s'.worker.at == Build
          case _ => s'.worker.at == MarkDeploying)
  }

  lemma CheckpointHears(s: State, ok: bool)
    requires s.worker.Running? && s.worker.at in {CheckQueued, CheckSettings, CheckClone, CheckBuild, CheckDeploy}
    ensures CheckSpec(s, Apply(s, WorkerStep(ok)), ok)
  {
  }

  // The status columns after a status write: a finished status sets the time and the whole seconds,
  // READY the flag; nothing else changes.
  predicate StatusSpec(r: Row, r': Row, status: Status, now: int) {
    && r'.project == r.project && r'.startedAt == r.startedAt && r'.status == status
    && (r'.isSuccess <==> r.isSuccess || status == Ready)
    && (if status == Ready || status == Failed || status == Canceled
        then r'.finishedAt == Some(now) && r'.duration == Some((now - r.startedAt) / 1000)
        else r'.finishedAt == r.finishedAt && r'.duration == r.duration)
  }

  // A status write is recorded, and it changes the one row exactly when the call succeeds.
  predicate WriteSpec(s: State, s': State, d: DeploymentId, status: Status, writer: Writer, ok: bool) {
    && |s'.rows| == |s.rows|
    && (forall i: nat | i < |s.rows| && (i != d || !ok) :: s'.rows[i] == s.rows[i])
    && (ok && d < |s.rows| ==> StatusSpec(s.rows[d], s'.rows[d], status, s.clock))
    && s'.history == s.history + [StatusWrite(d, status, writer, ok && d < |s.rows|)]
    && s'.queue == s.queue && s'.keys == s.keys && s'.clock == s.clock
  }

  lemma WriteMeaning(s: State, d: DeploymentId, status: Status, writer: Writer, ok: bool)
    ensures WriteSpec(s, WriteStatus(s, d, status, writer, ok), d, status, writer, ok)
  {
  }

  // What each statement that writes does to rows, events and keys.
  predicate StatementSpec(s: State, s': State, ok: bool)
    requires s.worker.Running?
  {
    var job := s.worker.job;
    match s.worker.at
    case MarkBuilding => WriteSpec(s, s', job.deployment, Building, BuildWorker, ok)
    case MarkImage => WriteSpec(s, s', job.deployment, Building, BuildWorker, ok)
    case MarkDeploying => WriteSpec(s, s', job.deployment, Deploying, BuildWorker, ok)
    case MarkReady => WriteSpec(s, s', job.deployment, Ready, BuildWorker, ok)
    case MarkFailed => WriteSpec(s, s', job.deployment, Failed, BuildWorker, ok)
    case MarkCanceled => WriteSpec(s, s', job.deployment, Canceled, BuildWorker, ok)
    case RetirePrevious =>
      if job.previous.Some? then WriteSpec(s, s', job.previous.value, Superseded, BuildWorker, ok)
      else s' == s.(worker := Idle)
    case DeployCluster =>
      s'.history == s.history + [ClusterDeploy(job.deployment)] && s'.rows == s.rows && s'.keys == s.keys
    case MarkCleaned =>
      && s'.history == s.history + [StatusWrite(job.deployment, Canceled, BuildWorker,
                                                ok && job.deployment < |s.rows|)]
      && |s'.rows| == |s.rows| && s'.keys == s.keys
      && (forall i: nat | i < |s.rows| && (i != job.deployment || !ok) :: s'.rows[i] == s.rows[i])
      && (ok && job.deployment < |s.rows| ==>
            var r, r' := s.rows[job.deployment], s'.rows[job.deployment];
            && r' == Row(r.project, Canceled, r.isSuccess, r.startedAt, Some(s.clock), r.duration))
    case ClearSignal =>
      && (forall d | d in s'.keys :: d in s.keys && s'.keys[d] == s.keys[d])
      && (forall d | d in s.keys && (d != job.deployment || !ok) :: d in s'.keys)
      && (ok ==> job.deployment !in s'.keys)
      && s'.rows == s.rows && s'.history == s.history
    case _ => s' == s.(worker := s'.worker)
  }

  // The statement after a successful and after a failed one; the job is let go at the end of the
  // job, after FAILED is reported and after the signal is cleared.
  predicate MoveSpec(s: State, s': State, ok: bool)
    requires s.worker.Running?
  {
    var next := if s'.worker.Running? then Some(s'.worker.at) else None;
    && (s'.worker.Running? ==> s'.worker.job == s.worker.job)
    && match s.worker.at
       case MarkBuilding => next == Some(if ok then CheckSettings else MarkFailed)
       case FetchToken => next == Some(if ok then CheckClone else MarkFailed)
       case Clone => next == Some(if ok then CheckBuild else MarkFailed)
       case Build => next == Some(if ok then MarkImage else MarkFailed)
       case MarkImage => next == Some(CheckDeploy)
       case MarkDeploying => next == Some(if ok then DeployCluster else MarkFailed)
       case DeployCluster => next == Some(if ok then MarkReady else MarkFailed)
       case MarkReady => next == Some(if ok then RetirePrevious else MarkFailed)
       case MarkCanceled => next == Some(CleanCluster)
       case CleanCluster => next == Some(MarkCleaned)
       case MarkCleaned => next == Some(ClearSignal)
       case RetirePrevious => next == None
       case MarkFailed => next == None
       case ClearSignal => next == None
       case _ => next.Some?
  }

  lemma StatementMeaning(s: State, ok: bool)
    requires s.worker.Running?
    ensures StatementSpec(s, Apply(s, WorkerStep(ok)), ok)
    ensures MoveSpec(s, Apply(s, WorkerStep(ok)), ok)
  {
  }

  // ---------------------------------------------------------------------
  // The cleanup worker
  // ---------------------------------------------------------------------

  // An answer to the cleanup worker holds exactly the READY rows that started more than their
  // owner's TTL ago, each once; owners without a TTL are left alone.
  ghost predicate ExpiredSpec(s: State, list: seq<DeploymentId>) {
    && (forall i, j :: 0 <= i < j < |list| ==> list[i] != list[j])
    && forall d: nat :: d in list <==>
         && d < |s.rows| && s.rows[d].status == Ready && s.rows[d].project.owner in s.ttlMinutes
         && s.clock - s.rows[d].startedAt > 60_000 * s.ttlMinutes[s.rows[d].project.owner]
  }

  lemma ExpiredMeaning(s: State, list: seq<DeploymentId>)
    ensures IsExpiredList(s, list) <==> ExpiredSpec(s, list)
  {
  }

  // One step along the fetched list: the cluster resources of the head are tried, then its EXPIRED
  // report is sent; whether the resources could be removed makes no difference.
  predicate CleanerSpec(s: State, s': State, ok: bool) {
    match s.cleaner
    case Waiting => s' == s
    case Retiring(todo, cleaned) =>
      if todo == [] then s' == s.(cleaner := Waiting)
      else if !cleaned
      then s' == s.(cleaner := Retiring(todo, true), history := s.history + [ClusterCleanup(todo[0], ok)])
      else
        && WriteSpec(s, s', todo[0], Expired, CleanupWorker, ok)
        && s'.cleaner == Retiring(todo[1..], false) && s'.worker == s.worker
  }

  lemma CleanerMeaning(s: State, ok: bool)
    ensures CleanerSpec(s, Apply(s, CleanerStep(ok)), ok)
  {
  }

  // ---------------------------------------------------------------------
  // After a checkpoint has heard the signal
  // ---------------------------------------------------------------------

  // A checkpoint of d's job reads the key and finds the signal alive.
  predicate Hears(s: State, a: Action, d: DeploymentId) {
    && a == WorkerStep(true) && s.worker.Running? && s.worker.job.deployment == d
    && s.worker.at in {CheckQueued, CheckSettings, CheckClone, CheckBuild, CheckDeploy}
    && d in s.keys && s.clock < s.keys[d]
  }

  // Only the statements of the cancellation are left to d's job.
  predicate Abandoned(s: State, d: DeploymentId) {
    && NotQueued(s, d) && !s.rows[d].isSuccess
    && (s.worker.Running? && s.worker.job.deployment == d ==>
          s.worker.at in {MarkCanceled, CleanCluster, MarkCleaned, ClearSignal})
  }

  lemma HearingAbandons(s: State, a: Action, d: DeploymentId)
    requires Inv(s) && Hears(s, a, d)
    ensures Abandoned(Apply(s, a), d) && Apply(s, a).history == s.history
  {
    CheckpointHears(s, true);
    assert JobSound(s, s.worker.job);
  }

  // What an abandoned job adds to the history about d: reports of CANCELED, no deploy.
  predicate Quiet(e: Event, d: DeploymentId) {
    && e != ClusterDeploy(d)
    && (e.StatusWrite? && e.writer == BuildWorker && e.deployment == d ==> e.status == Canceled)
  }

  lemma AbandonedMoves(s: State, a: Action, s': State, d: DeploymentId)
    requires Inv(s) && Enabled(s, a) && s' == Apply(s, a) && Abandoned(s, d)
    ensures s'.worker.Running? && s'.worker.job.deployment == d ==>
              s'.worker.at in {MarkCanceled, CleanCluster, MarkCleaned, ClearSignal}
  {
    if !a.WorkerStep? {
      EnvironmentStep(s, a);
    } else if s.worker.Running? {
      StatementMeaning(s, a.ok);
    } else if a.ok && s.queue != [] {
      assert s.queue[|s.queue| - 1] in s.queue;
    }
  }

  lemma AbandonedFails(s: State, a: Action, s': State, d: DeploymentId)
    requires Inv(s) && Enabled(s, a) && s' == Apply(s, a) && Abandoned(s, d)
    ensures d < |s'.rows| && !s'.rows[d].isSuccess
  {
    StepKeepsInv(s, a);
    if s'.rows[d].isSuccess {
      assert ReadyWrites(s.history, d) == 0 && ReadyWrites(s'.history, d) == 1;
      ReadyWriteStep(s, a, d);
    }
  }

  lemma AbandonedStep(s: State, a: Action, d: DeploymentId)
    requires Inv(s) && Enabled(s, a) && Abandoned(s, d)
    ensures Abandoned(Apply(s, a), d)
    ensures forall e | e in Events(s, a) :: Quiet(e, d)
  {
    NotQueuedStep(s, a, Apply(s, a), d);
    AbandonedFails(s, a, Apply(s, a), d);
    AbandonedMoves(s, a, Apply(s, a), d);
    EventKinds(s, a);
  }

  lemma AbandonedNext(ttl: map<UserId, nat>, trace: seq<Action>, k: nat, d: DeploymentId)
    requires Follows(Initial(ttl), trace) && k < |trace| && Abandoned(StateAt(Initial(ttl), trace, k), d)
    ensures Abandoned(StateAt(Initial(ttl), trace, k + 1), d)
    ensures StateAt(Initial(ttl), trace, k + 1).history
            == StateAt(Initial(ttl), trace, k).history + Events(StateAt(Initial(ttl), trace, k), trace[k])
    ensures forall e | e in Events(StateAt(Initial(ttl), trace, k), trace[k]) :: Quiet(e, d)
  {
    InvAt(ttl, trace, k);
    StateAtStep(Initial(ttl), trace, k);
    AbandonedStep(StateAt(Initial(ttl), trace, k), trace[k], d);
    HistoryStep(StateAt(Initial(ttl), trace, k), trace[k]);
  }

  // Once any of the five checkpoints has heard d's signal, its job runs no clone, no build and no
  // deploy any more, and everything the worker still reports about d is CANCELED.
  lemma {:induction false} HeardStopsWork(ttl: map<UserId, nat>, trace: seq<Action>, m: nat, k: nat, d: DeploymentId)
    requires Follows(Initial(ttl), trace) && m < k <= |trace|
    requires Hears(StateAt(Initial(ttl), trace, m), trace[m], d)
    ensures Abandoned(StateAt(Initial(ttl), trace, k), d)
    ensures StateAt(Initial(ttl), trace, m).history <= StateAt(Initial(ttl), trace, k).history
    ensures forall e | e in StateAt(Initial(ttl), trace, k).history[|StateAt(Initial(ttl), trace, m).history|..] ::
              Quiet(e, d)
    decreases k
  {
    if k == m + 1 {
      InvAt(ttl, trace, m);
      StateAtStep(Initial(ttl), trace, m);
      HearingAbandons(StateAt(Initial(ttl), trace, m), trace[m], d);
    } else {
      HeardStopsWork(ttl, trace, m, k - 1, d);
      AbandonedNext(ttl, trace, k - 1, d);
      SuffixGrows(StateAt(Initial(ttl), trace, m).history, StateAt(Initial(ttl), trace, k - 1).history,
                  Events(StateAt(Initial(ttl), trace, k - 1), trace[k - 1]), d);
    }
  }

  lemma SuffixGrows(h: seq<Event>, h1: seq<Event>, es: seq<Event>, d: DeploymentId)
    requires h <= h1
    requires (forall e | e in h1[|h|..] :: Quiet(e, d)) && (forall e | e in es :: Quiet(e, d))
    ensures h <= h1 + es && forall e | e in (h1 + es)[|h|..] :: Quiet(e, d)
  {
    assert (h1 + es)[|h|..] == h1[|h|..] + es;
  }
}
