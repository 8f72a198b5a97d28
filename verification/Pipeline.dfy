/**
 The deployment pipeline as a transition system: the rows of the deployment
 table, the Redis build queue, the `cancel:<id>` keys, the worker's position
 inside processJob and the list the cleanup goroutine has fetched.  API
 handlers are atomic; every worker statement that touches Redis, the database
 or the cluster is a step of its own.
 */
module Pipeline {
  import opened Wrappers

  type UserId = nat

  datatype ProjectId = ProjectId(owner: UserId, number: nat)

  // A deployment's id is the position of its row: rows are listed in insertion order.
  type DeploymentId = nat

  datatype Status = Queued | Building | Deploying | Ready | Failed | Canceled | Expired | Superseded

  const IN_FLIGHT: set<Status> := {Queued, Building, Deploying}
  const ANY_STATUS: set<Status> := {Queued, Building, Deploying, Ready, Failed, Canceled, Expired, Superseded}

  // Cancel keys are set with EX 300.
  const CANCEL_TTL_MS: nat := 300_000

  datatype Row = Row(
    project: ProjectId,
    status: Status,
    isSuccess: bool,
    startedAt: int,
    finishedAt: Option<int>,
    duration: Option<int>)

  datatype Job = Job(deployment: DeploymentId, project: ProjectId, previous: Option<DeploymentId>)

  // The statement of processJob (or of its error handling in Start) that the worker runs next.
  datatype Point =
    | CheckQueued | MarkBuilding | CheckSettings | FetchToken | CheckClone | Clone
    | CheckBuild | Build | MarkImage | CheckDeploy | MarkDeploying | DeployCluster
    | MarkReady | RetirePrevious
    | MarkFailed
    | MarkCanceled | CleanCluster | MarkCleaned | ClearSignal

  datatype Worker = Idle | Running(job: Job, at: Point)

  // The cleanup goroutine: what is left of the fetched list, and whether the
  // cluster resources of its head have been removed already.
  datatype Cleaner = Waiting | Retiring(todo: seq<DeploymentId>, cleaned: bool)

  datatype Writer = Api | BuildWorker | CleanupWorker

  // What an observer of the API and of the cluster sees, in order.
  datatype Event =
    | StatusWrite(deployment: DeploymentId, status: Status, writer: Writer, accepted: bool)
    | ClusterDeploy(deployment: DeploymentId)
    | ClusterCleanup(deployment: DeploymentId, complete: bool)   // by the cleanup goroutine

  datatype State = State(
    clock: int,
    rows: seq<Row>,
    queue: seq<Job>,
    keys: map<DeploymentId, int>,
    worker: Worker,
    cleaner: Cleaner,
    ttlMinutes: map<UserId, nat>,
    history: seq<Event>)

  datatype Response = Created(id: DeploymentId) | Cancelled | NotFound | BadRequest

  datatype Action =
    | Tick(ms: nat)
    | Create(project: ProjectId)
    | Push(project: ProjectId)
    | Cancel(deployment: DeploymentId)
    | WorkerStep(ok: bool)
    | FetchExpired(list: seq<DeploymentId>)
    | CleanerStep(ok: bool)

  function Initial(ttlMinutes: map<UserId, nat>): State {
    State(0, [], [], map[], Idle, Waiting, ttlMinutes, [])
  }

  // ---------------------------------------------------------------------
  // Row updates
  // ---------------------------------------------------------------------

  function Elapsed(r: Row, now: int): int {
    (now - r.startedAt) / 1000
  }

  // InternalService.updateDeploymentStatus
  function UpdateRow(r: Row, status: Status, now: int): Row {
    var r1 := r.(status := status);
    var r2 := if status in {Ready, Failed, Canceled}
              then r1.(finishedAt := Some(now), duration := Some(Elapsed(r, now)))
              else r1;
    if status == Ready then r2.(isSuccess := true) else r2
  }

  // A status write through the internal API: a refused call changes no row.
  function WriteStatus(s: State, d: DeploymentId, status: Status, writer: Writer, ok: bool): State {
    var accepted := ok && d < |s.rows|;
    s.(rows := if accepted then s.rows[d := UpdateRow(s.rows[d], status, s.clock)] else s.rows,
       history := s.history + [StatusWrite(d, status, writer, accepted)])
  }

  // InternalService.deleteDeploymentResources: finishedAt is set, duration is not.
  function WriteCleaned(s: State, d: DeploymentId, ok: bool): State {
    var accepted := ok && d < |s.rows|;
    s.(rows := if accepted
               then s.rows[d := s.rows[d].(status := Canceled, finishedAt := Some(s.clock))]
               else s.rows,
       history := s.history + [StatusWrite(d, Canceled, BuildWorker, accepted)])
  }

  // ---------------------------------------------------------------------
  // Cancel keys
  // ---------------------------------------------------------------------

  function PublishCancelSignal(s: State, d: DeploymentId): State {
    s.(keys := s.keys[d := s.clock + CANCEL_TTL_MS])
  }

  // The key was set and not deleted since; it may have run out.
  predicate Published(s: State, d: DeploymentId) {
    d in s.keys
  }

  // What a successful GET sees.
  predicate Signalled(s: State, d: DeploymentId) {
    d in s.keys && s.clock < s.keys[d]
  }

  // ---------------------------------------------------------------------
  // API handlers
  // ---------------------------------------------------------------------

  predicate Matches(r: Row, p: ProjectId, statuses: set<Status>) {
    r.project == p && r.status in statuses
  }

  // findFirst({ where: { projectId, status in statuses }, orderBy: { startedAt: "desc" } })
  function FindLatest(rows: seq<Row>, p: ProjectId, statuses: set<Status>): (r: Option<DeploymentId>)
    ensures r.Some? ==> r.value < |rows| && Matches(rows[r.value], p, statuses)
    ensures r.Some? ==> forall i :: 0 <= i < |rows| && Matches(rows[i], p, statuses)
                                    ==> rows[i].startedAt <= rows[r.value].startedAt
    ensures r.None? ==> forall i :: 0 <= i < |rows| ==> !Matches(rows[i], p, statuses)
  {
    if rows == [] then None
    else
      var last := |rows| - 1;
      var best := FindLatest(rows[..last], p, statuses);
      if Matches(rows[last], p, statuses)
         && (best.None? || rows[best.value].startedAt <= rows[last].startedAt)
      then Some(last)
      else best
  }

  // Insert a QUEUED row and RPUSH its job; a millisecond passes, so startedAt stays strict.
  function Enqueue(s: State, p: ProjectId, previous: Option<DeploymentId>): State {
    var d := |s.rows|;
    s.(rows := s.rows + [Row(p, Queued, false, s.clock, None, None)],
       queue := s.queue + [Job(d, p, previous)],
       clock := s.clock + 1,
       history := s.history + [StatusWrite(d, Queued, Api, true)])
  }

  // DeploymentsService.create
  function CreateDeployment(s: State, p: ProjectId): (State, Response) {
    var latest := FindLatest(s.rows, p, ANY_STATUS);
    if latest.Some? && s.rows[latest.value].status in IN_FLIGHT then (s, BadRequest)
    else (Enqueue(s, p, None), Created(|s.rows|))
  }

  // WebhooksService.triggerDeployment: only the status column is written on the aborted row.
  function AbortInFlight(s: State, d: DeploymentId): State
    requires d < |s.rows|
  {
    var s1 := PublishCancelSignal(s, d);
    s1.(rows := s1.rows[d := s1.rows[d].(status := Canceled)],
        history := s1.history + [StatusWrite(d, Canceled, Api, true)])
  }

  function TriggerDeployment(s: State, p: ProjectId): (State, Response) {
    var current := FindLatest(s.rows, p, IN_FLIGHT + {Ready});
    if current.None? then (Enqueue(s, p, None), Created(|s.rows|))
    else if s.rows[current.value].status == Ready then (Enqueue(s, p, current), Created(|s.rows|))
    else (Enqueue(AbortInFlight(s, current.value), p, None), Created(|s.rows|))
  }

  // DeploymentsService.cancel
  function CancelDeployment(s: State, d: DeploymentId): (State, Response) {
    if d >= |s.rows| then (s, NotFound)
    else if s.rows[d].status !in IN_FLIGHT then (s, BadRequest)
    else
      var r := s.rows[d];
      var r' := r.(status := Canceled, finishedAt := Some(s.clock), duration := Some(Elapsed(r, s.clock)));
      var s1 := s.(rows := s.rows[d := r'],
                   history := s.history + [StatusWrite(d, Canceled, Api, true)]);
      (PublishCancelSignal(s1, d), Cancelled)
  }

  // ---------------------------------------------------------------------
  // The build worker
  // ---------------------------------------------------------------------

  predicate IsCheck(p: Point) {
    p in {CheckQueued, CheckSettings, CheckClone, CheckBuild, CheckDeploy}
  }

  // Where a checkpoint continues when it finds no signal.
  function AfterCheck(p: Point): Point
    requires IsCheck(p)
  {
    match p
    case CheckQueued => MarkBuilding
    case CheckSettings => FetchToken
    case CheckClone => Clone
    case CheckBuild => Build
    case CheckDeploy => MarkDeploying
  }

  function Goto(s: State, p: Point): State
    requires s.worker.Running?
  {
    s.(worker := Running(s.worker.job, p))
  }

  // Queue.WaitForJob: RPUSH and BRPOP work on the same end of the list.
  function PopJob(s: State, ok: bool): State {
    if !ok || s.queue == [] then s
    else
      var last := |s.queue| - 1;
      s.(queue := s.queue[..last], worker := Running(s.queue[last], CheckQueued))
  }

  // Where processJob (or Start, after an error) goes on; None once the job is let go.
  // Worker.checkCancelled: a failed GET reads as "not cancelled".
  function NextPoint(s: State, ok: bool): Option<Point>
    requires s.worker.Running?
  {
    match s.worker.at
    case CheckQueued | CheckSettings | CheckClone | CheckBuild | CheckDeploy =>
      if ok && Signalled(s, s.worker.job.deployment) then Some(MarkCanceled) else Some(AfterCheck(s.worker.at))
    case MarkBuilding => if ok then Some(CheckSettings) else Some(MarkFailed)
    case FetchToken => if ok then Some(CheckClone) else Some(MarkFailed)
    case Clone => if ok then Some(CheckBuild) else Some(MarkFailed)
    case Build => if ok then Some(MarkImage) else Some(MarkFailed)
    case MarkImage => Some(CheckDeploy)
    case MarkDeploying => if ok then Some(DeployCluster) else Some(MarkFailed)
    case DeployCluster => if ok then Some(MarkReady) else Some(MarkFailed)
    case MarkReady => if ok then Some(RetirePrevious) else Some(MarkFailed)
    case MarkCanceled => Some(CleanCluster)
    case CleanCluster => Some(MarkCleaned)
    case MarkCleaned => Some(ClearSignal)
    case RetirePrevious | MarkFailed | ClearSignal => None
  }

  // What the statement does to the database, the keys and the cluster.
  function WorkerEffect(s: State, ok: bool): (r: State)
    requires s.worker.Running?
    ensures r == s.(rows := r.rows, keys := r.keys, history := r.history)
    ensures |r.rows| == |s.rows|
    ensures s.worker.at != ClearSignal ==> r.keys == s.keys
  {
    var d := s.worker.job.deployment;
    match s.worker.at
    case MarkBuilding | MarkImage => WriteStatus(s, d, Building, BuildWorker, ok)
    case MarkDeploying => WriteStatus(s, d, Deploying, BuildWorker, ok)
    case DeployCluster => s.(history := s.history + [ClusterDeploy(d)])
    case MarkReady => WriteStatus(s, d, Ready, BuildWorker, ok)
    case RetirePrevious =>
      if s.worker.job.previous.None? then s
      else WriteStatus(s, s.worker.job.previous.value, Superseded, BuildWorker, ok)
    case MarkFailed => WriteStatus(s, d, Failed, BuildWorker, ok)
    case MarkCanceled => WriteStatus(s, d, Canceled, BuildWorker, ok)
    case MarkCleaned => WriteCleaned(s, d, ok)
    case ClearSignal => s.(keys := if ok then s.keys - {d} else s.keys)
    case _ => s
  }

  function RunStep(s: State, ok: bool): State
    requires s.worker.Running?
  {
    var next := NextPoint(s, ok);
    WorkerEffect(s, ok).(worker := if next.None? then Idle else Running(s.worker.job, next.value))
  }

  function StepWorker(s: State, ok: bool): State {
    if s.worker.Idle? then PopJob(s, ok) else RunStep(s, ok)
  }

  // ---------------------------------------------------------------------
  // The cleanup worker
  // ---------------------------------------------------------------------

  predicate PastTtl(s: State, d: DeploymentId) {
    && d < |s.rows|
    && s.rows[d].status == Ready
    && s.rows[d].project.owner in s.ttlMinutes
    && s.rows[d].startedAt < s.clock - s.ttlMinutes[s.rows[d].project.owner] * 60 * 1000
  }

  // An answer of GET /internal/deployments/expired, in any order.
  predicate IsExpiredList(s: State, list: seq<DeploymentId>) {
    && (forall i, j :: 0 <= i < j < |list| ==> list[i] != list[j])
    && (forall d | d in list :: PastTtl(s, d))
    && (forall d | 0 <= d < |s.rows| && PastTtl(s, d) :: d in list)
  }

  // cleanupDeployment: remove the cluster resources, then mark the row EXPIRED; a partial failure of
  // the removal is only logged.
  function StepCleaner(s: State, ok: bool): State {
    if s.cleaner.Waiting? then s
    else if s.cleaner.todo == [] then s.(cleaner := Waiting)
    else if !s.cleaner.cleaned
    then s.(cleaner := Retiring(s.cleaner.todo, true), history := s.history + [ClusterCleanup(s.cleaner.todo[0], ok)])
    else WriteStatus(s, s.cleaner.todo[0], Expired, CleanupWorker, ok)
         .(cleaner := Retiring(s.cleaner.todo[1..], false))
  }

  // ---------------------------------------------------------------------
  // Steps and runs
  // ---------------------------------------------------------------------

  predicate Enabled(s: State, a: Action) {
    a.FetchExpired? ==> s.cleaner.Waiting? && IsExpiredList(s, a.list)
  }

  function Apply(s: State, a: Action): State
    requires Enabled(s, a)
  {
    match a
    case Tick(ms) => s.(clock := s.clock + ms)
    case Create(p) => CreateDeployment(s, p).0
    case Push(p) => TriggerDeployment(s, p).0
    case Cancel(d) => CancelDeployment(s, d).0
    case WorkerStep(ok) => StepWorker(s, ok)
    case FetchExpired(list) => s.(cleaner := Retiring(list, false))
    case CleanerStep(ok) => StepCleaner(s, ok)
  }

  predicate Follows(s: State, trace: seq<Action>)
    decreases |trace|, 0
  {
    trace == [] || (
      && Follows(s, trace[..|trace| - 1])
      && Enabled(Exec(s, trace[..|trace| - 1]), trace[|trace| - 1]))
  }

  function Exec(s: State, trace: seq<Action>): State
    requires Follows(s, trace)
    decreases |trace|, 1
  {
    if trace == [] then s
    else Apply(Exec(s, trace[..|trace| - 1]), trace[|trace| - 1])
  }
}
