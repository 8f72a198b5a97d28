/**
 The pipeline in the form the services and the worker have: fields updated in
 place by the handlers, by the statements of processJob and by the cleanup loop.
 `trace` records the steps taken, so that Valid() ties every reachable object to
 a run of the transition system and its theorems apply to it.
 */
module Platform {
  import opened Wrappers
  import opened Pipeline
  import opened PipelineInvariants
  import opened PipelineRuns
  import opened PipelineSpec

  datatype Outcome = Completed | Aborted | Errored

  lemma Extend(s: State, trace: seq<Action>, a: Action)
    requires Follows(s, trace) && Enabled(Exec(s, trace), a)
    ensures Follows(s, trace + [a]) && Exec(s, trace + [a]) == Apply(Exec(s, trace), a)
  {
    assert (trace + [a])[..|trace|] == trace;
  }

  class Platform {
    var clock: int
    var rows: seq<Row>
    var queue: seq<Job>
    var keys: map<DeploymentId, int>
    var worker: Worker
    var cleaner: Cleaner
    const ttlMinutes: map<UserId, nat>
    var history: seq<Event>
    ghost var trace: seq<Action>

    function Snapshot(): State
      reads this
    {
      State(clock, rows, queue, keys, worker, cleaner, ttlMinutes, history)
    }

    ghost predicate Valid()
      reads this
    {
      Follows(Initial(ttlMinutes), trace) && Snapshot() == Exec(Initial(ttlMinutes), trace)
    }

    // The step just taken was a, from state s.
    twostate predicate Took(a: Action)
      reads this
    {
      && Enabled(old(Snapshot()), a)
      && Snapshot() == Apply(old(Snapshot()), a)
      && trace == old(trace) + [a]
      && Valid()
    }

    constructor (ttlMinutes: map<UserId, nat>)
      ensures Valid() && trace == [] && Snapshot() == Initial(ttlMinutes)
    {
      this.ttlMinutes := ttlMinutes;
      clock, rows, queue, keys, worker, cleaner, history := 0, [], [], map[], Idle, Waiting, [];
      trace := [];
    }

    lemma Invariants()
      requires Valid()
      ensures Inv(Snapshot())
    {
      InvAlways(ttlMinutes, trace);
    }

    // -------------------------------------------------------------------
    // API handlers
    // -------------------------------------------------------------------

    method Insert(p: ProjectId, previous: Option<DeploymentId>) returns (d: DeploymentId)
      modifies this`rows, this`queue, this`clock, this`history
      ensures Snapshot() == Enqueue(old(Snapshot()), p, previous) && d == old(|rows|)
    {
      d := |rows|;
      rows := rows + [Row(p, Queued, false, clock, None, None)];
      queue := queue + [Job(d, p, previous)];
      clock := clock + 1;
      history := history + [StatusWrite(d, Queued, Api, true)];
    }

    method HandleCreate(p: ProjectId) returns (r: Response)
      requires Valid()
      modifies this
      ensures Took(Create(p)) && CreateSpec(old(Snapshot()), Snapshot(), p, r)
    {
      Extend(Initial(ttlMinutes), trace, Create(p));
      Invariants();
      CreateMeaning(Snapshot(), p);
      var latest := FindLatest(rows, p, ANY_STATUS);
      if latest.Some? && rows[latest.value].status in IN_FLIGHT {
        r := BadRequest;
      } else {
        var d := Insert(p, None);
        r := Created(d);
      }
      trace := trace + [Create(p)];
    }

    // triggerDeployment, on the existing in-flight or live deployment.
    method HandleCurrent(current: Option<DeploymentId>) returns (previous: Option<DeploymentId>)
      requires current.Some? ==> current.value < |rows|
      modifies this`rows, this`keys, this`history
      ensures Snapshot() == if current.Some? && old(rows)[current.value].status in IN_FLIGHT
                            then AbortInFlight(old(Snapshot()), current.value) else old(Snapshot())
      ensures previous == if current.Some? && old(rows)[current.value].status == Ready then current else None
    {
      previous := None;
      if current.Some? {
        var e := current.value;
        if rows[e].status in IN_FLIGHT {
          keys := keys[e := clock + CANCEL_TTL_MS];
          rows := rows[e := rows[e].(status := Canceled)];
          history := history + [StatusWrite(e, Canceled, Api, true)];
        } else if rows[e].status == Ready {
          previous := current;
        }
      }
    }

    method HandlePush(p: ProjectId) returns (r: Response)
      requires Valid()
      modifies this
      ensures Took(Push(p)) && PushSpec(old(Snapshot()), Snapshot(), p, r)
    {
      Extend(Initial(ttlMinutes), trace, Push(p));
      Invariants();
      PushMeaning(Snapshot(), p);
      var previous := HandleCurrent(FindLatest(rows, p, IN_FLIGHT + {Ready}));
      var d := Insert(p, previous);
      r := Created(d);
      trace := trace + [Push(p)];
    }

    method HandleCancel(d: DeploymentId) returns (r: Response)
      requires Valid()
      modifies this
      ensures Took(Cancel(d)) && CancelSpec(old(Snapshot()), Snapshot(), d, r)
    {
      Extend(Initial(ttlMinutes), trace, Cancel(d));
      CancelMeaning(Snapshot(), d);
      if d >= |rows| {
        r := NotFound;
      } else if rows[d].status !in IN_FLIGHT {
        r := BadRequest;
      } else {
        rows := rows[d := rows[d].(status := Canceled, finishedAt := Some(clock),
                                   duration := Some(Elapsed(rows[d], clock)))];
        history := history + [StatusWrite(d, Canceled, Api, true)];
        keys := keys[d := clock + CANCEL_TTL_MS];
        r := Cancelled;
      }
      trace := trace + [Cancel(d)];
    }

    method AdvanceClock(ms: nat)
      requires Valid()
      modifies this
      ensures Took(Tick(ms)) && Snapshot() == old(Snapshot()).(clock := old(clock) + ms)
    {
      Extend(Initial(ttlMinutes), trace, Tick(ms));
      clock := clock + ms;
      trace := trace + [Tick(ms)];
    }

    // PATCH /internal/deployments/:id/status, with the writes in the order of the handler.
    method UpdateDeploymentStatus(d: DeploymentId, status: Status, writer: Writer, ok: bool)
      modifies this`rows, this`history
      ensures Snapshot() == WriteStatus(old(Snapshot()), d, status, writer, ok)
      ensures WriteSpec(old(Snapshot()), Snapshot(), d, status, writer, ok)
    {
      WriteMeaning(Snapshot(), d, status, writer, ok);
      if !ok || d >= |rows| {
        history := history + [StatusWrite(d, status, writer, false)];
        return;
      }
      var updated := rows[d].(status := status);
      if status in {Ready, Failed, Canceled} {
        updated := updated.(finishedAt := Some(clock), duration := Some(Elapsed(rows[d], clock)));
      }
      if status == Ready {
        updated := updated.(isSuccess := true);
      }
      rows := rows[d := updated];
      history := history + [StatusWrite(d, status, writer, true)];
    }

    // -------------------------------------------------------------------
    // The worker
    // -------------------------------------------------------------------

    method WaitForJob() returns (ok: bool)
      requires Valid() && worker.Idle?
      modifies this
      ensures Took(WorkerStep(ok))
      ensures ok && old(queue) != [] ==>
                worker == Running(old(queue)[|old(queue)| - 1], CheckQueued)
                && queue == old(queue)[..|old(queue)| - 1]
      ensures !(ok && old(queue) != []) ==> worker.Idle?
    {
      ok := *;
      Extend(Initial(ttlMinutes), trace, WorkerStep(ok));
      if ok && queue != [] {
        var last := |queue| - 1;
        worker := Running(queue[last], CheckQueued);
        queue := queue[..last];
      }
      trace := trace + [WorkerStep(ok)];
    }

    method CheckCancelled() returns (cancelled: bool)
      requires Valid() && worker.Running? && IsCheck(worker.at)
      modifies this
      ensures exists ok :: Took(WorkerStep(ok)) && CheckSpec(old(Snapshot()), Snapshot(), ok)
                           && (cancelled <==> ok && Signalled(old(Snapshot()), old(worker).job.deployment))
      ensures worker == Running(old(worker).job, if cancelled then MarkCanceled else AfterCheck(old(worker).at))
    {
      var d := worker.job.deployment;
      CheckpointHears(Snapshot(), true);
      CheckpointHears(Snapshot(), false);
      var ok: bool := *;
      Extend(Initial(ttlMinutes), trace, WorkerStep(ok));
      cancelled := ok && d in keys && clock < keys[d];
      worker := Running(worker.job, if cancelled then MarkCanceled else AfterCheck(worker.at));
      trace := trace + [WorkerStep(ok)];
      assert Took(WorkerStep(ok));
    }

    // The status written at each point where processJob reports progress on its own deployment.
    predicate Reports(p: Point, status: Status) {
      (p in {MarkBuilding, MarkImage} && status == Building) || (p == MarkDeploying && status == Deploying)
      || (p == MarkReady && status == Ready)
    }

    method Report(status: Status) returns (ok: bool)
      requires Valid() && worker.Running? && Reports(worker.at, status)
      modifies this
      ensures Took(WorkerStep(ok))
      ensures WriteSpec(old(Snapshot()), Snapshot(), old(worker).job.deployment, status, BuildWorker, ok)
      ensures MoveSpec(old(Snapshot()), Snapshot(), ok)
    {
      ok := *;
      StatementMeaning(Snapshot(), ok);
      Extend(Initial(ttlMinutes), trace, WorkerStep(ok));
      var at := worker.at;
      UpdateDeploymentStatus(worker.job.deployment, status, BuildWorker, ok);
      worker := Running(worker.job,
                        if at == MarkImage then CheckDeploy
                        else if !ok then MarkFailed
                        else if at == MarkBuilding then CheckSettings
                        else if at == MarkDeploying then DeployCluster
                        else RetirePrevious);
      trace := trace + [WorkerStep(ok)];
    }

    // Fetching the installation token, cloning, building.
    method Work() returns (ok: bool)
      requires Valid() && worker.Running? && worker.at in {FetchToken, Clone, Build}
      modifies this
      ensures Took(WorkerStep(ok))
      ensures worker == Running(old(worker).job, if !ok then MarkFailed
                                                 else if old(worker).at == FetchToken then CheckClone
                                                 else if old(worker).at == Clone then CheckBuild
                                                 else MarkImage)
    {
      ok := *;
      Extend(Initial(ttlMinutes), trace, WorkerStep(ok));
      worker := Running(worker.job, if !ok then MarkFailed
                                    else if worker.at == FetchToken then CheckClone
                                    else if worker.at == Clone then CheckBuild
                                    else MarkImage);
      trace := trace + [WorkerStep(ok)];
    }

    method DeployToCluster() returns (ok: bool)
      requires Valid() && worker.Running? && worker.at == DeployCluster
      modifies this
      ensures Took(WorkerStep(ok))
      ensures worker == Running(old(worker).job, if ok then MarkReady else MarkFailed)
      ensures history == old(history) + [ClusterDeploy(old(worker).job.deployment)] && rows == old(rows)
    {
      ok := *;
      Extend(Initial(ttlMinutes), trace, WorkerStep(ok));
      history := history + [ClusterDeploy(worker.job.deployment)];
      worker := Running(worker.job, if ok then MarkReady else MarkFailed);
      trace := trace + [WorkerStep(ok)];
    }

    method RetirePreviousDeployment()
      requires Valid() && worker.Running? && worker.at == RetirePrevious
      modifies this
      ensures exists ok :: Took(WorkerStep(ok)) && StatementSpec(old(Snapshot()), Snapshot(), ok)
      ensures worker.Idle?
    {
      var ok: bool := *;
      StatementMeaning(Snapshot(), ok);
      Extend(Initial(ttlMinutes), trace, WorkerStep(ok));
      if worker.job.previous.Some? {
        UpdateDeploymentStatus(worker.job.previous.value, Superseded, BuildWorker, ok);
      }
      worker := Idle;
      trace := trace + [WorkerStep(ok)];
      assert Took(WorkerStep(ok));
    }

    // Any other actor may run between two statements of the worker.
    method Interfere()
      requires Valid()
      modifies this
      ensures Valid() && worker == old(worker) && old(trace) <= trace
      ensures forall i :: |old(trace)| <= i < |trace| ==> !trace[i].WorkerStep?
      ensures |old(rows)| <= |rows|
    {
      var n: nat :| true;
      for i := 0 to n
        invariant Valid() && worker == old(worker) && old(trace) <= trace
        invariant forall i :: |old(trace)| <= i < |trace| ==> !trace[i].WorkerStep?
        invariant |old(rows)| <= |rows|
      {
        label before:
        Invariants();
        var a: Action := *;
        if !a.WorkerStep? && Enabled(Snapshot(), a) {
          EnvironmentStep(Snapshot(), a);
          Perform(a);
        }
      }
    }

    method Perform(a: Action)
      requires Valid() && !a.WorkerStep? && Enabled(Snapshot(), a)
      modifies this
      ensures Took(a)
    {
      match a {
        case Tick(ms) => AdvanceClock(ms);
        case Create(p) => var _ := HandleCreate(p);
        case Push(p) => var _ := HandlePush(p);
        case Cancel(d) => var _ := HandleCancel(d);
        case FetchExpired(list) =>
          Extend(Initial(ttlMinutes), trace, a);
          cleaner := Retiring(list, false);
          trace := trace + [a];
        case CleanerStep(ok) => RunCleaner(ok);
      }
    }

    method RunCleaner(ok: bool)
      requires Valid()
      modifies this
      ensures Took(CleanerStep(ok)) && CleanerSpec(old(Snapshot()), Snapshot(), ok)
    {
      CleanerMeaning(Snapshot(), ok);
      Extend(Initial(ttlMinutes), trace, CleanerStep(ok));
      if cleaner.Retiring? {
        if cleaner.todo == [] {
          cleaner := Waiting;
        } else if !cleaner.cleaned {
          history := history + [ClusterCleanup(cleaner.todo[0], ok)];
          cleaner := Retiring(cleaner.todo, true);
        } else {
          UpdateDeploymentStatus(cleaner.todo[0], Expired, CleanupWorker, ok);
          cleaner := Retiring(cleaner.todo[1..], false);
        }
      }
      trace := trace + [CleanerStep(ok)];
    }

    // Worker.processJob: phases in source order, with the other actors running in between.
    method ProcessJob() returns (r: Outcome)
      requires Valid() && worker.Running? && worker.at == CheckQueued
      modifies this
      ensures Valid() && old(trace) <= trace && |old(rows)| <= |rows|
      ensures r == Completed ==> worker.Idle? && ReadyWrites(history, old(worker).job.deployment) == 1
      ensures r == Aborted ==> worker == Running(old(worker).job, MarkCanceled)
      ensures r == Errored ==> worker == Running(old(worker).job, MarkFailed)
    {
      var cancelled := PauseAndCheck();
      if cancelled { return Aborted; }
      var ok := PauseAndReport(Building);
      if !ok { return Errored; }
      r := ProcessToken();
    }

    // The settings and the installation token: processJob, steps 2 and 3.
    method ProcessToken() returns (r: Outcome)
      requires Valid() && worker.Running? && worker.at == CheckSettings
      modifies this
      ensures Valid() && old(trace) <= trace && |old(rows)| <= |rows|
      ensures r == Completed ==> worker.Idle? && ReadyWrites(history, old(worker).job.deployment) == 1
      ensures r == Aborted ==> worker == Running(old(worker).job, MarkCanceled)
      ensures r == Errored ==> worker == Running(old(worker).job, MarkFailed)
    {
      var cancelled := PauseAndCheck();
      if cancelled { return Aborted; }
      var ok := PauseAndWork();
      if !ok { return Errored; }
      cancelled := PauseAndCheck();
      if cancelled { return Aborted; }
      r := ProcessClone();
    }

    // The clone: processJob, step 4.
    method ProcessClone() returns (r: Outcome)
      requires Valid() && worker.Running? && worker.at == Clone
      modifies this
      ensures Valid() && old(trace) <= trace && |old(rows)| <= |rows|
      ensures r == Completed ==> worker.Idle? && ReadyWrites(history, old(worker).job.deployment) == 1
      ensures r == Aborted ==> worker == Running(old(worker).job, MarkCanceled)
      ensures r == Errored ==> worker == Running(old(worker).job, MarkFailed)
    {
      var ok := PauseAndWork();
      if !ok { return Errored; }
      var cancelled := PauseAndCheck();
      if cancelled { return Aborted; }
      r := ProcessBuild();
    }

    // From the build to the image: processJob, step 5.
    method ProcessBuild() returns (r: Outcome)
      requires Valid() && worker.Running? && worker.at == Build
      modifies this
      ensures Valid() && old(trace) <= trace && |old(rows)| <= |rows|
      ensures r == Completed ==> worker.Idle? && ReadyWrites(history, old(worker).job.deployment) == 1
      ensures r == Aborted ==> worker == Running(old(worker).job, MarkCanceled)
      ensures r == Errored ==> worker == Running(old(worker).job, MarkFailed)
    {
      var ok := PauseAndWork();
      if !ok { return Errored; }
      var _ := PauseAndReport(Building);
      var cancelled := PauseAndCheck();
      if cancelled { return Aborted; }
      r := ProcessDeploy();
    }

    // From DEPLOYING to the retirement of the previous deployment: processJob, steps 6 to 8.
    method ProcessDeploy() returns (r: Outcome)
      requires Valid() && worker.Running? && worker.at == MarkDeploying
      modifies this
      ensures Valid() && old(trace) <= trace && |old(rows)| <= |rows|
      ensures r == Completed ==> worker.Idle? && ReadyWrites(history, old(worker).job.deployment) == 1
      ensures r == Errored ==> worker == Running(old(worker).job, MarkFailed)
      ensures r != Aborted
    {
      var ok := PauseAndReport(Deploying);
      if !ok { return Errored; }
      Interfere();
      ok := DeployToCluster();
      if !ok { return Errored; }
      ok := PauseAndReport(Ready);
      if !ok { return Errored; }
      PauseAndRetire();
      return Completed;
    }

    method PauseAndRetire()
      requires Valid() && worker.Running? && worker.at == RetirePrevious
      modifies this
      ensures Valid() && worker.Idle? && old(trace) <= trace && |old(rows)| <= |rows|
      ensures ReadyWrites(history, old(worker).job.deployment) == 1
    {
      Interfere();
      Invariants();
      label before:
      RetirePreviousDeployment();
      SuccessStays(old@before(Snapshot()), true, old(worker).job.deployment);
      SuccessStays(old@before(Snapshot()), false, old(worker).job.deployment);
    }

    // A step of the worker leaves a succeeded deployment succeeded, with its one READY write.
    lemma SuccessStays(s: State, ok: bool, d: DeploymentId)
      requires Inv(s) && d < |s.rows| && s.rows[d].isSuccess
      ensures ReadyWrites(Apply(s, WorkerStep(ok)).history, d) == 1
      ensures |s.rows| <= |Apply(s, WorkerStep(ok)).rows|
    {
      StepKeepsInv(s, WorkerStep(ok));
    }

    method PauseAndCheck() returns (cancelled: bool)
      requires Valid() && worker.Running? && IsCheck(worker.at)
      modifies this
      ensures Valid() && old(trace) <= trace && |old(rows)| <= |rows|
      ensures worker == Running(old(worker).job, if cancelled then MarkCanceled else AfterCheck(old(worker).at))
    {
      Interfere();
      cancelled := CheckCancelled();
    }

    method PauseAndWork() returns (ok: bool)
      requires Valid() && worker.Running? && worker.at in {FetchToken, Clone, Build}
      modifies this
      ensures Valid() && old(trace) <= trace && |old(rows)| <= |rows|
      ensures worker == Running(old(worker).job, if !ok then MarkFailed
                                                 else if old(worker).at == FetchToken then CheckClone
                                                 else if old(worker).at == Clone then CheckBuild
                                                 else MarkImage)
    {
      Interfere();
      ok := Work();
    }

    method PauseAndReport(status: Status) returns (ok: bool)
      requires Valid() && worker.Running? && Reports(worker.at, status)
      modifies this
      ensures Valid() && old(trace) <= trace && |old(rows)| <= |rows|
      ensures worker == Running(old(worker).job, if old(worker).at == MarkImage then CheckDeploy
                                                 else if !ok then MarkFailed
                                                 else if old(worker).at == MarkBuilding then CheckSettings
                                                 else if old(worker).at == MarkDeploying then DeployCluster
                                                 else RetirePrevious)
    {
      Interfere();
      ok := Report(status);
    }

    // What Start does with a job that was cancelled: CANCELED, cluster cleanup, CANCELED again, DEL.
    method AbandonJob()
      requires Valid() && worker.Running? && worker.at == MarkCanceled
      modifies this
      ensures Valid() && worker.Idle? && old(trace) <= trace
      ensures LastWorkerWrite(history, old(worker).job.deployment) == Some(Canceled)
    {
      Interfere();
      MarkJobCanceled();
      Interfere();
      CleanJobResources();
      Interfere();
      DeleteDeploymentResources();
      ClearCancelSignal();
    }

    method MarkJobCanceled()
      requires Valid() && worker.Running? && worker.at == MarkCanceled
      modifies this
      ensures Valid() && old(trace) <= trace && worker == Running(old(worker).job, CleanCluster)
    {
      var ok: bool := *;
      Extend(Initial(ttlMinutes), trace, WorkerStep(ok));
      UpdateDeploymentStatus(worker.job.deployment, Canceled, BuildWorker, ok);
      worker := Running(worker.job, CleanCluster);
      trace := trace + [WorkerStep(ok)];
    }

    method CleanJobResources()
      requires Valid() && worker.Running? && worker.at == CleanCluster
      modifies this
      ensures Valid() && old(trace) <= trace && worker == Running(old(worker).job, MarkCleaned)
    {
      Extend(Initial(ttlMinutes), trace, WorkerStep(true));
      worker := Running(worker.job, MarkCleaned);
      trace := trace + [WorkerStep(true)];
    }

    method ClearCancelSignal()
      requires Valid() && worker.Running? && worker.at == ClearSignal
      requires LastWorkerWrite(history, worker.job.deployment) == Some(Canceled)
      modifies this
      ensures Valid() && old(trace) <= trace && worker.Idle?
      ensures LastWorkerWrite(history, old(worker).job.deployment) == Some(Canceled)
      ensures trace[|trace| - 1] == WorkerStep(true) ==> old(worker).job.deployment !in keys
    {
      Interfere();
      QuietHistory(old(trace), trace, worker.job.deployment);
      var ok: bool := *;
      Extend(Initial(ttlMinutes), trace, WorkerStep(ok));
      if ok {
        keys := keys - {worker.job.deployment};
      }
      worker := Idle;
      trace := trace + [WorkerStep(ok)];
    }

    // The DELETE of /internal/deployments/:id/resources.
    method DeleteDeploymentResources()
      requires Valid() && worker.Running? && worker.at == MarkCleaned
      modifies this
      ensures exists ok :: Took(WorkerStep(ok)) && StatementSpec(old(Snapshot()), Snapshot(), ok)
      ensures worker == Running(old(worker).job, ClearSignal)
      ensures LastWorkerWrite(history, old(worker).job.deployment) == Some(Canceled)
    {
      var d := worker.job.deployment;
      var ok: bool := *;
      StatementMeaning(Snapshot(), ok);
      Extend(Initial(ttlMinutes), trace, WorkerStep(ok));
      LastWorkerWriteAppend(history, StatusWrite(d, Canceled, BuildWorker, ok && d < |rows|), d);
      if ok && d < |rows| {
        rows := rows[d := rows[d].(status := Canceled, finishedAt := Some(clock))];
        history := history + [StatusWrite(d, Canceled, BuildWorker, true)];
      } else {
        history := history + [StatusWrite(d, Canceled, BuildWorker, false)];
      }
      worker := Running(worker.job, ClearSignal);
      trace := trace + [WorkerStep(ok)];
      assert Took(WorkerStep(ok));
    }

    // Steps of other actors add no worker write.
    lemma {:induction false} QuietHistory(t: seq<Action>, t': seq<Action>, d: DeploymentId)
      requires Follows(Initial(ttlMinutes), t') && t <= t'
      requires forall i :: |t| <= i < |t'| ==> !t'[i].WorkerStep?
      ensures Follows(Initial(ttlMinutes), t)
      ensures LastWorkerWrite(Exec(Initial(ttlMinutes), t').history, d)
              == LastWorkerWrite(Exec(Initial(ttlMinutes), t).history, d)
      decreases |t'|
    {
      if |t| == |t'| {
        assert t == t';
      } else {
        var m := |t'| - 1;
        QuietHistory(t, t'[..m], d);
        var s := Exec(Initial(ttlMinutes), t'[..m]);
        assert !t'[m].WorkerStep?;
        HistoryStep(s, t'[m]);
        assert forall e | e in Events(s, t'[m]) :: e.StatusWrite? ==> e.writer != BuildWorker;
        NoWorkerWrite(s.history, Events(s, t'[m]), d);
      }
    }

    method FailJob()
      requires Valid() && worker.Running? && worker.at == MarkFailed
      modifies this
      ensures Valid() && worker.Idle? && old(trace) <= trace
      ensures LastWorkerWrite(history, old(worker).job.deployment) == Some(Failed)
    {
      Interfere();
      var d := worker.job.deployment;
      var ok: bool := *;
      Extend(Initial(ttlMinutes), trace, WorkerStep(ok));
      LastWorkerWriteAppend(history, StatusWrite(d, Failed, BuildWorker, ok && d < |rows|), d);
      UpdateDeploymentStatus(d, Failed, BuildWorker, ok);
      worker := Idle;
      trace := trace + [WorkerStep(ok)];
    }

    // One turn of the loop in Start: every popped job ends READY, or with CANCELED or FAILED reported.
    method RunNext() returns (popped: Option<DeploymentId>, r: Outcome)
      requires Valid() && worker.Idle?
      modifies this
      ensures Valid() && worker.Idle? && old(trace) <= trace
      ensures popped.Some? ==> old(queue) != [] && popped.value == old(queue)[|old(queue)| - 1].deployment
      ensures popped.Some? ==>
                match r
                case Completed => ReadyWrites(history, popped.value) == 1
                case Aborted => LastWorkerWrite(history, popped.value) == Some(Canceled)
                case Errored => LastWorkerWrite(history, popped.value) == Some(Failed)
    {
      popped, r := None, Completed;
      var _ := WaitForJob();
      if worker.Running? {
        popped := Some(worker.job.deployment);
        r := ProcessJob();
        match r {
          case Completed =>
          case Aborted => AbandonJob();
          case Errored => FailJob();
        }
      }
    }

    // -------------------------------------------------------------------
    // The cleanup worker
    // -------------------------------------------------------------------

    // InternalService.getExpiredDeployments: READY rows past the owner's TTL, owner by owner.
    method GetExpiredDeployments() returns (list: seq<DeploymentId>)
      ensures IsExpiredList(Snapshot(), list) && ExpiredSpec(Snapshot(), list)
    {
      list := [];
      var owners := ttlMinutes.Keys;
      while owners != {}
        invariant owners <= ttlMinutes.Keys
        invariant forall i, j :: 0 <= i < j < |list| ==> list[i] != list[j]
        invariant forall d: nat :: d in list <==>
                    d < |rows| && PastTtl(Snapshot(), d) && rows[d].project.owner !in owners
        decreases |owners|
      {
        var owner :| owner in owners;
        var expiryThreshold := clock - ttlMinutes[owner] * 60 * 1000;
        for d := 0 to |rows|
          invariant forall i, j :: 0 <= i < j < |list| ==> list[i] != list[j]
          invariant forall e: nat :: e in list <==>
                      e < |rows| && PastTtl(Snapshot(), e)
                      && (rows[e].project.owner !in owners || (rows[e].project.owner == owner && e < d))
        {
          if rows[d].project.owner == owner && rows[d].status == Ready && rows[d].startedAt < expiryThreshold {
            list := list + [d];
          }
        }
        owners := owners - {owner};
      }
      ExpiredMeaning(Snapshot(), list);
    }

    // The cleanup worker has reported d EXPIRED since the history had length n.
    predicate Reported(n: nat, d: DeploymentId)
      reads this
    {
      exists i :: n <= i < |history| && history[i].StatusWrite? && history[i].deployment == d
                  && history[i].status == Expired && history[i].writer == CleanupWorker
    }

    // One step along the list: the head is reported EXPIRED once its cluster resources were tried.
    method CleanNext(ok: bool)
      requires Valid() && cleaner.Retiring?
      modifies this
      ensures Valid() && old(trace) <= trace && worker == old(worker) && old(history) <= history
      ensures |rows| == old(|rows|)
      ensures forall d: nat | d < |rows| && (old(cleaner).todo == [] || d != old(cleaner).todo[0]) ::
                rows[d] == old(rows[d])
      ensures match old(cleaner)
              case Retiring(todo, cleaned) =>
                if todo == [] then cleaner == Waiting
                else if !cleaned then cleaner == Retiring(todo, true) && rows == old(rows)
                else
                  && cleaner == Retiring(todo[1..], false) && Reported(old(|history|), todo[0])
                  && (todo[0] < |rows| ==>
                        rows[todo[0]] == old(rows)[todo[0]]
                        || rows[todo[0]] == old(rows)[todo[0]].(status := Expired))
    {
      ghost var h, c := history, cleaner;
      RunCleaner(ok);
      if c.todo != [] && c.cleaned {
        assert history[|h|] == StatusWrite(c.todo[0], Expired, CleanupWorker, ok && c.todo[0] < |rows|);
      }
    }

    // CleanupWorker.cleanupExpired, undisturbed: every row past its TTL is reported EXPIRED, and only
    // such rows may change, to EXPIRED.
    method CleanupExpired()
      requires Valid() && cleaner.Waiting?
      modifies this
      ensures Valid() && cleaner.Waiting? && old(trace) <= trace && worker == old(worker)
      ensures |rows| == old(|rows|)
      ensures forall d: nat :: d < |rows| ==>
                rows[d] == old(rows[d])
                || (PastTtl(old(Snapshot()), d) && rows[d] == old(rows[d]).(status := Expired))
      ensures forall d | PastTtl(old(Snapshot()), d) :: Reported(old(|history|), d)
    {
      var list := GetExpiredDeployments();
      Extend(Initial(ttlMinutes), trace, FetchExpired(list));
      cleaner := Retiring(list, false);
      trace := trace + [FetchExpired(list)];
      while cleaner.Retiring?
        invariant Valid() && old(trace) <= trace && worker == old(worker)
        invariant |rows| == old(|rows|)
        invariant cleaner.Retiring? ==> forall d :: d in cleaner.todo ==> PastTtl(old(Snapshot()), d)
        invariant forall d: nat :: d < |rows| ==>
                    rows[d] == old(rows[d])
                    || (PastTtl(old(Snapshot()), d) && rows[d] == old(rows[d]).(status := Expired))
        invariant old(history) <= history
        invariant forall d | d in list :: (cleaner.Retiring? && d in cleaner.todo) || Reported(old(|history|), d)
        decreases if cleaner.Waiting? then 0 else 2 * |cleaner.todo| + if cleaner.cleaned then 1 else 2
      {
        var ok: bool := *;
        CleanNext(ok);
      }
    }
  }
}
