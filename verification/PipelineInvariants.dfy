/** What every step of the deployment pipeline keeps. */
module PipelineInvariants {
  import opened Wrappers
  import opened Pipeline

  const SUCCEEDED: set<Status> := {Ready, Expired, Superseded}
  const RETIRED: set<Status> := {Expired, Superseded}

  // ---------------------------------------------------------------------
  // The invariants
  // ---------------------------------------------------------------------

  ghost predicate Chronological(s: State) {
    && (forall i, j :: 0 <= i < j < |s.rows| ==> s.rows[i].startedAt < s.rows[j].startedAt)
    && (forall i :: 0 <= i < |s.rows| ==> s.rows[i].startedAt < s.clock)
  }

  // isSuccess and the status agree, and a finished row carries its whole-second duration.
  predicate RowConsistent(r: Row) {
    && (r.isSuccess <==> r.status in SUCCEEDED)
    && (r.status in SUCCEEDED + {Failed} ==>
          && r.finishedAt.Some?
          && r.duration == Some((r.finishedAt.value - r.startedAt) / 1000)
          && r.duration.value >= 0)
  }

  ghost predicate RowsConsistent(s: State) {
    forall i :: 0 <= i < |s.rows| ==> RowConsistent(s.rows[i])
  }

  // Jobs still held by the queue or by the worker.
  predicate Held(s: State, j: Job) {
    j in s.queue || (s.worker.Running? && s.worker.job == j)
  }

  // Points from which the job can still reach its READY write.
  predicate CanFinish(p: Point) {
    p !in {RetirePrevious, MarkFailed, MarkCanceled, CleanCluster, MarkCleaned, ClearSignal}
  }

  // A job that may still turn its deployment READY.
  predicate Outstanding(s: State, j: Job) {
    j in s.queue || (s.worker.Running? && s.worker.job == j && CanFinish(s.worker.at))
  }

  predicate JobSound(s: State, j: Job) {
    && j.deployment < |s.rows|
    && s.rows[j.deployment].project == j.project
    && (j.previous.Some? ==> j.previous.value < |s.rows| && s.rows[j.previous.value].isSuccess)
  }

  ghost predicate JobsSound(s: State) {
    && (forall j | j in s.queue :: JobSound(s, j) && s.rows[j.deployment].status in {Queued, Canceled})
    && (s.worker.Running? ==>
          && JobSound(s, s.worker.job)
          && (if s.worker.at == RetirePrevious
              then s.rows[s.worker.job.deployment].isSuccess
              else s.rows[s.worker.job.deployment].status in IN_FLIGHT + {Canceled}))
  }

  // Each deployment has at most one job across the queue and the worker.
  ghost predicate JobsUnique(s: State) {
    && (forall i, j :: 0 <= i < j < |s.queue| ==> s.queue[i].deployment != s.queue[j].deployment)
    && (s.worker.Running? ==>
          forall i :: 0 <= i < |s.queue| ==> s.queue[i].deployment != s.worker.job.deployment)
  }

  ghost predicate CleanerSound(s: State) {
    s.cleaner.Retiring? ==>
      forall d | d in s.cleaner.todo :: d < |s.rows| && s.rows[d].isSuccess
  }

  ghost predicate IsNewest(s: State, d: DeploymentId) {
    && d < |s.rows|
    && forall e :: 0 <= e < |s.rows| && s.rows[e].project == s.rows[d].project
                   ==> s.rows[e].startedAt <= s.rows[d].startedAt
  }

  // An outstanding job was told to stop, or belongs to the newest deployment of its project.
  ghost predicate StaleJobsSignalled(s: State) {
    forall j: Job :: Outstanding(s, j) ==>
      Published(s, j.deployment)
      || (IsNewest(s, j.deployment) && s.rows[j.deployment].status in IN_FLIGHT)
  }

  function ReadyWrites(h: seq<Event>, d: DeploymentId): nat {
    if h == [] then 0
    else
      var e := h[|h| - 1];
      ReadyWrites(h[..|h| - 1], d)
      + if e.StatusWrite? && e.deployment == d && e.status == Ready && e.accepted then 1 else 0
  }

  ghost predicate HistorySound(s: State) {
    forall d: DeploymentId ::
      ReadyWrites(s.history, d) == if d < |s.rows| && s.rows[d].isSuccess then 1 else 0
  }

  ghost predicate Inv(s: State) {
    && Chronological(s)
    && RowsConsistent(s)
    && JobsSound(s)
    && JobsUnique(s)
    && CleanerSound(s)
    && StaleJobsSignalled(s)
    && HistorySound(s)
  }

  // ---------------------------------------------------------------------
  // How one row may change in one step
  // ---------------------------------------------------------------------

  predicate RowStep(r: Row, r': Row) {
    && r'.project == r.project && r'.startedAt == r.startedAt
    && (r.isSuccess ==> r' == r || (r'.status in RETIRED && r' == r.(status := r'.status)))
    && (r.status == Failed ==> r' == r)
    && (r'.status == Queued ==> r' == r)
  }

  ghost predicate RowsStep(s: State, s': State) {
    && |s.rows| <= |s'.rows|
    && forall d :: 0 <= d < |s.rows| ==> RowStep(s.rows[d], s'.rows[d])
  }

  lemma ReadyWritesAppend(h: seq<Event>, e: Event, d: DeploymentId)
    ensures ReadyWrites(h + [e], d) == ReadyWrites(h, d)
              + if e.StatusWrite? && e.deployment == d && e.status == Ready && e.accepted then 1 else 0
  {
    assert (h + [e])[..|h|] == h;
  }

  // Appending an event that is not an accepted READY write counts nothing.
  lemma HistoryAppend(h: seq<Event>, e: Event)
    ensures !(e.StatusWrite? && e.status == Ready && e.accepted) ==>
              forall d: DeploymentId :: ReadyWrites(h + [e], d) == ReadyWrites(h, d)
    ensures e.StatusWrite? && e.status == Ready && e.accepted ==>
              forall d: DeploymentId :: ReadyWrites(h + [e], d)
                                        == ReadyWrites(h, d) + if d == e.deployment then 1 else 0
  {
    forall d: DeploymentId
      ensures ReadyWrites(h + [e], d) == ReadyWrites(h, d)
                + if e.StatusWrite? && e.deployment == d && e.status == Ready && e.accepted then 1 else 0
    {
      ReadyWritesAppend(h, e, d);
    }
  }

  // ---------------------------------------------------------------------
  // Preservation, action by action
  // ---------------------------------------------------------------------

  lemma InvInitial(ttl: map<UserId, nat>)
    ensures Inv(Initial(ttl))
  {
  }

  // Every outstanding job of s' was outstanding in s, and nothing it relies on was lost.
  lemma SignalsKept(s: State, s': State)
    requires StaleJobsSignalled(s) && JobsSound(s)
    requires |s'.rows| == |s.rows|
    requires forall i :: 0 <= i < |s.rows| ==> s'.rows[i].project == s.rows[i].project
                                               && s'.rows[i].startedAt == s.rows[i].startedAt
    requires forall j: Job :: Outstanding(s', j) ==>
               && Outstanding(s, j)
               && (Published(s', j.deployment)
                   || (!Published(s, j.deployment) && s'.rows[j.deployment].status in IN_FLIGHT))
    ensures StaleJobsSignalled(s')
  {
  }

  // One row changes its status columns, consistently; jobs may only leave the books.
  lemma OneRowKeepsCore(s: State, s': State, d: DeploymentId)
    requires Chronological(s) && RowsConsistent(s) && JobsUnique(s)
    requires d < |s.rows| && |s'.rows| == |s.rows| && s'.clock == s.clock
    requires forall i :: 0 <= i < |s.rows| && i != d ==> s'.rows[i] == s.rows[i]
    requires RowStep(s.rows[d], s'.rows[d]) && RowConsistent(s'.rows[d])
    requires s'.queue == s.queue
    requires s'.worker.Running? ==> s.worker.Running? && s'.worker.job == s.worker.job
    ensures Chronological(s') && RowsConsistent(s') && JobsUnique(s') && RowsStep(s, s')
  {
  }

  lemma OneRowKeepsJobs(s: State, s': State, d: DeploymentId)
    requires JobsSound(s) && CleanerSound(s)
    requires d < |s.rows| && |s'.rows| == |s.rows|
    requires forall i :: 0 <= i < |s.rows| && i != d ==> s'.rows[i] == s.rows[i]
    requires RowStep(s.rows[d], s'.rows[d]) && RowConsistent(s.rows[d]) && RowConsistent(s'.rows[d])
    requires s'.queue == s.queue && s'.cleaner == s.cleaner
    requires forall j | j in s.queue :: j.deployment == d ==> s'.rows[d].status in {Queued, Canceled}
    requires s'.worker.Running? ==> s.worker.Running? && s'.worker.job == s.worker.job
    requires s'.worker.Running? && s'.worker.at == RetirePrevious ==>
               s'.rows[s'.worker.job.deployment].isSuccess
    requires s'.worker.Running? && s'.worker.at != RetirePrevious ==>
               s'.rows[s'.worker.job.deployment].status in IN_FLIGHT + {Canceled}
    ensures JobsSound(s') && CleanerSound(s')
  {
    assert forall i :: 0 <= i < |s.rows| && s.rows[i].isSuccess ==> s'.rows[i].isSuccess;
  }

  lemma OneRowKeepsHistory(s: State, s': State, d: DeploymentId, e: Event)
    requires HistorySound(s)
    requires d < |s.rows| && |s'.rows| == |s.rows|
    requires forall i :: 0 <= i < |s.rows| && i != d ==> s'.rows[i] == s.rows[i]
    requires s'.history == s.history + [e]
    requires if e.StatusWrite? && e.status == Ready && e.accepted
             then e.deployment == d && !s.rows[d].isSuccess && s'.rows[d].isSuccess
             else s'.rows[d].isSuccess == s.rows[d].isSuccess
    ensures HistorySound(s')
  {
    HistoryAppend(s.history, e);
  }

  // A new row goes in when every outstanding job of its project carries a published signal.
  lemma EnqueueKeepsSignals(s: State, p: ProjectId, previous: Option<DeploymentId>)
    requires Chronological(s) && JobsSound(s) && StaleJobsSignalled(s)
    requires forall j: Job :: Outstanding(s, j) && j.project == p ==> Published(s, j.deployment)
    ensures StaleJobsSignalled(Enqueue(s, p, previous))
  {
    var s' := Enqueue(s, p, previous);
    forall j: Job | Outstanding(s', j)
      ensures Published(s', j.deployment)
              || (IsNewest(s', j.deployment) && s'.rows[j.deployment].status in IN_FLIGHT)
    {
      if j == Job(|s.rows|, p, previous) {
        assert IsNewest(s', |s.rows|);
      } else {
        assert Outstanding(s, j);
      }
    }
  }

  lemma EnqueueKeepsJobs(s: State, p: ProjectId, previous: Option<DeploymentId>)
    requires JobsSound(s) && JobsUnique(s) && CleanerSound(s)
    requires previous.Some? ==> previous.value < |s.rows| && s.rows[previous.value].isSuccess
    ensures JobsSound(Enqueue(s, p, previous)) && JobsUnique(Enqueue(s, p, previous))
    ensures CleanerSound(Enqueue(s, p, previous))
  {
    assert forall j | j in s.queue :: j.deployment < |s.rows|;
  }

  lemma EnqueueKeepsInv(s: State, p: ProjectId, previous: Option<DeploymentId>)
    requires Inv(s)
    requires previous.Some? ==> previous.value < |s.rows| && s.rows[previous.value].isSuccess
    requires forall j: Job :: Outstanding(s, j) && j.project == p ==> Published(s, j.deployment)
    ensures Inv(Enqueue(s, p, previous)) && RowsStep(s, Enqueue(s, p, previous))
  {
    EnqueueKeepsSignals(s, p, previous);
    EnqueueKeepsJobs(s, p, previous);
    HistoryAppend(s.history, StatusWrite(|s.rows|, Queued, Api, true));
  }

  // What blocks or precedes an insertion: the newest row, if its job is unsignalled, is in flight.
  lemma UnsignalledIsLatest(s: State, p: ProjectId, statuses: set<Status>, j: Job)
    requires Inv(s) && IN_FLIGHT <= statuses
    requires Outstanding(s, j) && j.project == p && !Published(s, j.deployment)
    ensures FindLatest(s.rows, p, statuses) == Some(j.deployment)
    ensures s.rows[j.deployment].status in IN_FLIGHT
  {
    assert IsNewest(s, j.deployment);
    assert Matches(s.rows[j.deployment], p, statuses);
    var d := FindLatest(s.rows, p, statuses).value;
    assert s.rows[d].startedAt == s.rows[j.deployment].startedAt;
  }

  lemma CreateKeepsInv(s: State, p: ProjectId)
    requires Inv(s)
    ensures Inv(CreateDeployment(s, p).0) && RowsStep(s, CreateDeployment(s, p).0)
  {
    var latest := FindLatest(s.rows, p, ANY_STATUS);
    if !(latest.Some? && s.rows[latest.value].status in IN_FLIGHT) {
      forall j: Job | Outstanding(s, j) && j.project == p
        ensures Published(s, j.deployment)
      {
        if !Published(s, j.deployment) {
          UnsignalledIsLatest(s, p, ANY_STATUS, j);
        }
      }
      EnqueueKeepsInv(s, p, None);
    }
  }

  // An API handler moves a row in flight to CANCELED and publishes its signal.
  lemma StopKeepsInv(s: State, s': State, d: DeploymentId)
    requires Inv(s) && d < |s.rows| && s.rows[d].status in IN_FLIGHT
    requires |s'.rows| == |s.rows|
    requires s' == s.(rows := s.rows[d := s'.rows[d]], keys := s'.keys,
                      history := s.history + [StatusWrite(d, Canceled, Api, true)])
    requires s'.rows[d] == s.rows[d].(status := Canceled, finishedAt := s'.rows[d].finishedAt,
                                      duration := s'.rows[d].duration)
    requires s.keys.Keys + {d} <= s'.keys.Keys
    ensures Inv(s') && RowsStep(s, s')
  {
    OneRowKeepsCore(s, s', d);
    OneRowKeepsJobs(s, s', d);
    OneRowKeepsHistory(s, s', d, StatusWrite(d, Canceled, Api, true));
    forall j: Job | Outstanding(s', j)
      ensures Outstanding(s, j)
      ensures Published(s', j.deployment)
              || (!Published(s, j.deployment) && s'.rows[j.deployment].status in IN_FLIGHT)
    {
      assert Outstanding(s, j);
    }
    SignalsKept(s, s');
  }

  lemma PushKeepsInv(s: State, p: ProjectId)
    requires Inv(s)
    ensures Inv(TriggerDeployment(s, p).0) && RowsStep(s, TriggerDeployment(s, p).0)
  {
    var statuses := IN_FLIGHT + {Ready};
    var current := FindLatest(s.rows, p, statuses);
    var s1, previous := s, None;
    if current.Some? {
      if s.rows[current.value].status == Ready {
        previous := current;
      } else {
        s1 := AbortInFlight(s, current.value);
        StopKeepsInv(s, s1, current.value);
      }
    }
    forall j: Job | Outstanding(s1, j) && j.project == p
      ensures Published(s1, j.deployment)
    {
      if !Published(s1, j.deployment) {
        assert Outstanding(s, j);
        UnsignalledIsLatest(s, p, statuses, j);
      }
    }
    EnqueueKeepsInv(s1, p, previous);
  }

  lemma CancelKeepsInv(s: State, d: DeploymentId)
    requires Inv(s)
    ensures Inv(CancelDeployment(s, d).0) && RowsStep(s, CancelDeployment(s, d).0)
  {
    if d < |s.rows| && s.rows[d].status in IN_FLIGHT {
      StopKeepsInv(s, CancelDeployment(s, d).0, d);
    }
  }

  // Retiring a succeeded row disturbs nothing else.
  lemma RetireKeepsInv(s: State, d: DeploymentId, status: Status, writer: Writer, ok: bool)
    requires Inv(s) && status in RETIRED
    requires d < |s.rows| && s.rows[d].isSuccess
    ensures Inv(WriteStatus(s, d, status, writer, ok)) && RowsStep(s, WriteStatus(s, d, status, writer, ok))
    ensures forall j: Job :: Outstanding(s, j) ==> j.deployment != d
  {
    RetireStep(s, WriteStatus(s, d, status, writer, ok), d, StatusWrite(d, status, writer, ok));
  }

  lemma RetireStep(s: State, s': State, d: DeploymentId, e: Event)
    requires Inv(s) && d < |s.rows| && s.rows[d].isSuccess
    requires s' == s.(rows := s'.rows, history := s.history + [e])
    requires s'.rows == s.rows || (|s'.rows| == |s.rows|
               && s'.rows == s.rows[d := s.rows[d].(status := s'.rows[d].status)] && s'.rows[d].status in RETIRED)
    requires e.StatusWrite? && e.status in RETIRED
    ensures Inv(s') && RowsStep(s, s')
    ensures forall j: Job :: Outstanding(s, j) ==> j.deployment != d
  {
    OneRowKeepsCore(s, s', d);
    OneRowKeepsJobs(s, s', d);
    OneRowKeepsHistory(s, s', d, e);
    forall j: Job | Outstanding(s, j) ensures j.deployment != d {
    }
    SignalsKeptElsewhere(s, s', d);
  }

  // The changed row has no outstanding job afterwards, or is in flight.
  lemma SignalsKeptElsewhere(s: State, s': State, d: DeploymentId)
    requires StaleJobsSignalled(s) && JobsSound(s)
    requires d < |s.rows| && |s'.rows| == |s.rows|
    requires forall i :: 0 <= i < |s.rows| && i != d ==> s'.rows[i] == s.rows[i]
    requires s'.rows[d].project == s.rows[d].project && s'.rows[d].startedAt == s.rows[d].startedAt
    requires s'.keys == s.keys
    requires forall j: Job :: Outstanding(s', j) ==>
               Outstanding(s, j) && (j.deployment != d || s'.rows[d].status in IN_FLIGHT || s'.rows[d] == s.rows[d])
    ensures StaleJobsSignalled(s')
  {
    SignalsKept(s, s');
  }

  lemma PopKeepsInv(s: State, ok: bool)
    requires Inv(s) && s.worker.Idle?
    ensures Inv(PopJob(s, ok)) && RowsStep(s, PopJob(s, ok))
  {
    var s' := PopJob(s, ok);
    if ok && s.queue != [] {
      var job := s.queue[|s.queue| - 1];
      assert job in s.queue;
      forall j: Job | Outstanding(s', j)
        ensures Outstanding(s, j)
      {
      }
      SignalsKept(s, s');
    }
  }

  // The worker writes (or fails to write) an unfinished status on the row of its job and moves on.
  lemma ProgressKeepsInv(s: State, s': State, e: Event)
    requires Inv(s) && s.worker.Running? && s.worker.at != RetirePrevious
    requires s'.worker.Running? && s'.worker.job == s.worker.job && s'.worker.at != RetirePrevious
    requires CanFinish(s'.worker.at) ==> CanFinish(s.worker.at)
    requires |s'.rows| == |s.rows|
    requires s' == s.(rows := s.rows[s.worker.job.deployment := s'.rows[s.worker.job.deployment]],
                      worker := s'.worker, history := s.history + [e])
    requires !(e.StatusWrite? && e.status == Ready && e.accepted)
    requires var r, r' := s.rows[s.worker.job.deployment], s'.rows[s.worker.job.deployment];
             && r' == r.(status := r'.status, finishedAt := r'.finishedAt, duration := r'.duration)
             && (r' == r || r'.status in {Building, Deploying}
                 || (r'.status == Canceled && !CanFinish(s'.worker.at)))
    ensures Inv(s') && RowsStep(s, s')
  {
    var d := s.worker.job.deployment;
    OneRowKeepsCore(s, s', d);
    OneRowKeepsJobs(s, s', d);
    OneRowKeepsHistory(s, s', d, e);
    SignalsKeptElsewhere(s, s', d);
  }

  // The worker moves on without an observable effect.
  lemma MoveKeepsInv(s: State, p: Point)
    requires Inv(s) && s.worker.Running? && s.worker.at != RetirePrevious && p != RetirePrevious
    requires CanFinish(p) ==> CanFinish(s.worker.at)
    ensures Inv(Goto(s, p)) && RowsStep(s, Goto(s, p))
  {
    SignalsKept(s, Goto(s, p));
  }

  lemma ReadyKeepsInv(s: State, ok: bool)
    requires Inv(s) && s.worker.Running? && s.worker.at == MarkReady
    ensures Inv(RunStep(s, ok)) && RowsStep(s, RunStep(s, ok))
  {
    var d := s.worker.job.deployment;
    var s' := RunStep(s, ok);
    OneRowKeepsCore(s, s', d);
    OneRowKeepsJobs(s, s', d);
    OneRowKeepsHistory(s, s', d, StatusWrite(d, Ready, BuildWorker, ok));
    SignalsKeptElsewhere(s, s', d);
  }

  lemma FailedKeepsInv(s: State, ok: bool)
    requires Inv(s) && s.worker.Running? && s.worker.at == MarkFailed
    ensures Inv(RunStep(s, ok)) && RowsStep(s, RunStep(s, ok))
  {
    var d := s.worker.job.deployment;
    var s' := RunStep(s, ok);
    OneRowKeepsCore(s, s', d);
    OneRowKeepsJobs(s, s', d);
    OneRowKeepsHistory(s, s', d, StatusWrite(d, Failed, BuildWorker, ok));
    SignalsKeptElsewhere(s, s', d);
  }

  // The worker lets its job go; only its own cancel key may disappear.
  lemma ReleaseKeepsInv(s: State, s': State)
    requires Inv(s) && s.worker.Running? && !CanFinish(s.worker.at)
    requires s' == s.(worker := Idle, keys := s'.keys)
    requires s.keys.Keys - {s.worker.job.deployment} <= s'.keys.Keys <= s.keys.Keys
    ensures Inv(s') && RowsStep(s, s')
  {
    forall j: Job | Outstanding(s', j)
      ensures Outstanding(s, j) && j.deployment != s.worker.job.deployment
    {
    }
    SignalsKept(s, s');
  }

  lemma RunStepKeepsInv(s: State, ok: bool)
    requires Inv(s) && s.worker.Running?
    ensures Inv(RunStep(s, ok)) && RowsStep(s, RunStep(s, ok))
  {
    match s.worker.at {
      case MarkReady => ReadyKeepsInv(s, ok);
      case MarkFailed => FailedKeepsInv(s, ok);
      case ClearSignal => ReleaseKeepsInv(s, RunStep(s, ok));
      case RetirePrevious => RetirePreviousKeepsInv(s, ok);
      case MarkBuilding | MarkImage | MarkDeploying | MarkCanceled | MarkCleaned | DeployCluster =>
        WritingKeepsInv(s, ok);
      case _ => MoveKeepsInv(s, RunStep(s, ok).worker.at);
    }
  }

  lemma RetirePreviousKeepsInv(s: State, ok: bool)
    requires Inv(s) && s.worker.Running? && s.worker.at == RetirePrevious
    ensures Inv(RunStep(s, ok)) && RowsStep(s, RunStep(s, ok))
  {
    if s.worker.job.previous.Some? {
      RetireKeepsInv(s, s.worker.job.previous.value, Superseded, BuildWorker, ok);
      ReleaseKeepsInv(WriteStatus(s, s.worker.job.previous.value, Superseded, BuildWorker, ok), RunStep(s, ok));
    } else {
      ReleaseKeepsInv(s, RunStep(s, ok));
    }
  }

  lemma WritingKeepsInv(s: State, ok: bool)
    requires Inv(s) && s.worker.Running?
    requires s.worker.at in {MarkBuilding, MarkImage, MarkDeploying, MarkCanceled, MarkCleaned, DeployCluster}
    ensures Inv(RunStep(s, ok)) && RowsStep(s, RunStep(s, ok))
  {
    var s', d := RunStep(s, ok), s.worker.job.deployment;
    var e := s'.history[|s.history|];
    assert s.rows[d := s.rows[d]] == s.rows;
    ProgressKeepsInv(s, s', e);
  }

  lemma CleanerKeepsInv(s: State, ok: bool)
    requires Inv(s)
    ensures Inv(StepCleaner(s, ok)) && RowsStep(s, StepCleaner(s, ok))
  {
    if s.cleaner.Retiring? && s.cleaner.todo != [] && s.cleaner.cleaned {
      assert s.cleaner.todo[0] in s.cleaner.todo;
      RetireKeepsInv(s, s.cleaner.todo[0], Expired, CleanupWorker, ok);
      var s1 := WriteStatus(s, s.cleaner.todo[0], Expired, CleanupWorker, ok);
      OtherFieldsKeepInv(s1, StepCleaner(s, ok));
    } else if s.cleaner.Retiring? && s.cleaner.todo != [] {
      HistoryAppend(s.history, ClusterCleanup(s.cleaner.todo[0], ok));
      OtherFieldsKeepInv(s, StepCleaner(s, ok));
    } else {
      OtherFieldsKeepInv(s, StepCleaner(s, ok));
    }
  }

  // The clock may advance, the cleaner may move along its list and the history may grow by an
  // event that is no READY write.
  lemma OtherFieldsKeepInv(s: State, s': State)
    requires Inv(s)
    requires s' == s.(clock := s'.clock, cleaner := s'.cleaner, history := s'.history) && s.clock <= s'.clock
    requires CleanerSound(s')
    requires forall d: DeploymentId :: ReadyWrites(s'.history, d) == ReadyWrites(s.history, d)
    ensures Inv(s') && RowsStep(s, s')
  {
    SignalsKept(s, s');
  }

  // Every step of every actor keeps all invariants and changes each row only as RowStep allows.
  lemma StepKeepsInv(s: State, a: Action)
    requires Inv(s) && Enabled(s, a)
    ensures Inv(Apply(s, a)) && RowsStep(s, Apply(s, a))
  {
    match a {
      case Tick(ms) => OtherFieldsKeepInv(s, Apply(s, a));
      case Create(p) => CreateKeepsInv(s, p);
      case Push(p) => PushKeepsInv(s, p);
      case Cancel(d) => CancelKeepsInv(s, d);
      case WorkerStep(ok) => if s.worker.Idle? { PopKeepsInv(s, ok); } else { RunStepKeepsInv(s, ok); }
      case FetchExpired(list) => OtherFieldsKeepInv(s, Apply(s, a));
      case CleanerStep(ok) => CleanerKeepsInv(s, ok);
    }
  }
}
