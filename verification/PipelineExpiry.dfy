/** When the cleanup goroutine comes back to a deployment it could not clean up. */
module PipelineExpiry {
  import opened Wrappers
  import opened Pipeline
  import opened PipelineInvariants
  import opened PipelineRuns

  // Past its owner's TTL, whatever its status.
  predicate Overdue(s: State, d: DeploymentId) {
    && d < |s.rows|
    && s.rows[d].project.owner in s.ttlMinutes
    && s.rows[d].startedAt < s.clock - s.ttlMinutes[s.rows[d].project.owner] * 60 * 1000
  }

  ghost predicate TodoOverdue(s: State) {
    s.cleaner.Retiring? ==> forall d | d in s.cleaner.todo :: Overdue(s, d)
  }

  lemma ClockStep(s: State, a: Action)
    requires Enabled(s, a)
    ensures s.clock <= Apply(s, a).clock && Apply(s, a).ttlMinutes == s.ttlMinutes
    ensures !a.FetchExpired? && !a.CleanerStep? ==> Apply(s, a).cleaner == s.cleaner
  {
  }

  lemma OverdueStep(s: State, a: Action, d: DeploymentId)
    requires Inv(s) && Enabled(s, a) && Overdue(s, d)
    ensures Overdue(Apply(s, a), d)
  {
    ClockStep(s, a);
    StepKeepsInv(s, a);
    assert RowStep(s.rows[d], Apply(s, a).rows[d]);
  }

  lemma TodoStep(s: State, a: Action)
    requires Inv(s) && Enabled(s, a) && TodoOverdue(s)
    ensures TodoOverdue(Apply(s, a))
  {
    var s' := Apply(s, a);
    ClockStep(s, a);
    if s'.cleaner.Retiring? {
      forall d | d in s'.cleaner.todo ensures Overdue(s', d) {
        if a.FetchExpired? {
          assert PastTtl(s, d);
        } else {
          assert d in s.cleaner.todo;
        }
        OverdueStep(s, a, d);
      }
    }
  }

  lemma {:induction false} TodoOverdueAlways(ttl: map<UserId, nat>, trace: seq<Action>, k: nat)
    requires Follows(Initial(ttl), trace) && k <= |trace|
    ensures TodoOverdue(StateAt(Initial(ttl), trace, k))
    decreases k
  {
    if k == 0 {
      assert trace[..0] == [];
    } else {
      TodoOverdueAlways(ttl, trace, k - 1);
      InvAt(ttl, trace, k - 1);
      StateAtStep(Initial(ttl), trace, k - 1);
      TodoStep(StateAt(Initial(ttl), trace, k - 1), trace[k - 1]);
    }
  }

  lemma {:induction false} OverdueLater(ttl: map<UserId, nat>, trace: seq<Action>, i: nat, k: nat, d: DeploymentId)
    requires Follows(Initial(ttl), trace) && i <= k <= |trace|
    requires Overdue(StateAt(Initial(ttl), trace, i), d)
    ensures Overdue(StateAt(Initial(ttl), trace, k), d)
    decreases k
  {
    if i < k {
      OverdueLater(ttl, trace, i, k - 1, d);
      InvAt(ttl, trace, k - 1);
      StateAtStep(Initial(ttl), trace, k - 1);
      OverdueStep(StateAt(Initial(ttl), trace, k - 1), trace[k - 1], d);
    }
  }

  // ---------------------------------------------------------------------
  // The history records every retirement
  // ---------------------------------------------------------------------

  predicate IsRetirement(e: Event, d: DeploymentId) {
    e.StatusWrite? && e.deployment == d && e.status in RETIRED && e.accepted
  }

  predicate Retired(h: seq<Event>, d: DeploymentId) {
    exists e :: e in h && IsRetirement(e, d)
  }

  lemma RetiredConcat(h: seq<Event>, es: seq<Event>, d: DeploymentId)
    ensures Retired(h + es, d) <==> Retired(h, d) || Retired(es, d)
  {
    if Retired(h, d) { var e :| e in h && IsRetirement(e, d); assert e in h + es; }
    if Retired(es, d) { var e :| e in es && IsRetirement(e, d); assert e in h + es; }
  }

  lemma ApiRetirement(s: State, a: Action, d: DeploymentId)
    requires Enabled(s, a) && !a.WorkerStep? && !a.CleanerStep?
    ensures !Retired(Events(s, a), d)
    ensures d < |Apply(s, a).rows| && Apply(s, a).rows[d].status in RETIRED
            ==> d < |s.rows| && Apply(s, a).rows[d] == s.rows[d]
  {
    forall e | e in Events(s, a) ensures !IsRetirement(e, d) {}
    match a {
      case Push(p) => PushRetirement(s, p, d);
      case _ =>
    }
  }

  lemma PushRetirement(s: State, p: ProjectId, d: DeploymentId)
    ensures var s' := TriggerDeployment(s, p).0;
            d < |s'.rows| && s'.rows[d].status in RETIRED ==> d < |s.rows| && s'.rows[d] == s.rows[d]
  {
  }

  // A step puts a row into the retired pair, or leaves it there, exactly when its events say so.
  lemma RetirementStep(s: State, a: Action, d: DeploymentId)
    requires Inv(s) && Enabled(s, a) && d < |Apply(s, a).rows|
    ensures Apply(s, a).rows[d].status in RETIRED
            <==> (d < |s.rows| && s.rows[d].status in RETIRED) || Retired(Events(s, a), d)
  {
    StepKeepsInv(s, a);
    if d < |s.rows| { KeepsRetired(s.rows[d], Apply(s, a).rows[d]); }
    match a {
      case WorkerStep(ok) => if s.worker.Running? { WorkerRetirement(s, ok, d); }
      case CleanerStep(ok) => CleanerRetirement(s, ok, d);
      case _ => ApiRetirement(s, a, d);
    }
  }

  lemma KeepsRetired(r: Row, r': Row)
    requires RowStep(r, r') && RowConsistent(r)
    ensures r.status in RETIRED ==> r'.status in RETIRED
  {
  }

  lemma OneEvent(e: Event, d: DeploymentId)
    ensures Retired([e], d) <==> IsRetirement(e, d)
  {
    assert e in [e];
  }

  lemma WorkerRetirement(s: State, ok: bool, d: DeploymentId)
    requires Inv(s) && s.worker.Running? && d < |s.rows| == |RunStep(s, ok).rows|
    requires RowStep(s.rows[d], RunStep(s, ok).rows[d])
    ensures RunStep(s, ok).rows[d].status in RETIRED
            <==> s.rows[d].status in RETIRED || Retired(WorkerEvents(s, ok), d)
  {
    var es := WorkerEvents(s, ok);
    if es != [] { OneEvent(es[0], d); assert es == [es[0]]; }
  }

  lemma CleanerRetirement(s: State, ok: bool, d: DeploymentId)
    requires Inv(s) && d < |s.rows| == |StepCleaner(s, ok).rows|
    requires RowStep(s.rows[d], StepCleaner(s, ok).rows[d])
    ensures StepCleaner(s, ok).rows[d].status in RETIRED
            <==> s.rows[d].status in RETIRED || Retired(Events(s, CleanerStep(ok)), d)
  {
    var es := Events(s, CleanerStep(ok));
    if es != [] { OneEvent(es[0], d); assert es == [es[0]]; }
  }

  ghost predicate RetirementsRecorded(s: State) {
    && (forall d: DeploymentId :: Retired(s.history, d) ==> d < |s.rows|)
    && (forall d: DeploymentId | d < |s.rows| :: s.rows[d].status in RETIRED <==> Retired(s.history, d))
  }

  lemma RecordedStep(s: State, a: Action)
    requires Inv(s) && Enabled(s, a) && RetirementsRecorded(s)
    ensures RetirementsRecorded(Apply(s, a))
  {
    var s' := Apply(s, a);
    HistoryStep(s, a);
    StepKeepsInv(s, a);
    forall d: DeploymentId
      ensures Retired(s'.history, d) ==> d < |s'.rows|
      ensures d < |s'.rows| ==> (s'.rows[d].status in RETIRED <==> Retired(s'.history, d))
    {
      RetiredConcat(s.history, Events(s, a), d);
      if d < |s'.rows| {
        RetirementStep(s, a, d);
      } else {
        NoFutureRetirement(s, a, d);
      }
    }
  }

  lemma NoFutureRetirement(s: State, a: Action, d: DeploymentId)
    requires Inv(s) && Enabled(s, a) && d >= |Apply(s, a).rows| >= |s.rows|
    ensures !Retired(Events(s, a), d)
  {
    forall e | e in Events(s, a) ensures !IsRetirement(e, d) {}
  }

  lemma {:induction false} RecordedAlways(ttl: map<UserId, nat>, trace: seq<Action>, k: nat)
    requires Follows(Initial(ttl), trace) && k <= |trace|
    ensures RetirementsRecorded(StateAt(Initial(ttl), trace, k))
    decreases k
  {
    if k == 0 {
      assert trace[..0] == [];
    } else {
      RecordedAlways(ttl, trace, k - 1);
      InvAt(ttl, trace, k - 1);
      StateAtStep(Initial(ttl), trace, k - 1);
      RecordedStep(StateAt(Initial(ttl), trace, k - 1), trace[k - 1]);
    }
  }

  // ---------------------------------------------------------------------
  // The next cycle
  // ---------------------------------------------------------------------

  // Action i reports d EXPIRED, after the removal of its cluster resources, complete or not.
  predicate ReportsExpired(s: State, trace: seq<Action>, i: nat, d: DeploymentId)
    requires Follows(s, trace)
  {
    && i < |trace| && trace[i].CleanerStep?
    && var c := StateAt(s, trace, i).cleaner;
       c.Retiring? && c.cleaned && c.todo != [] && c.todo[0] == d
  }

  // A later cycle of the cleanup goroutine fetches d again exactly when no retirement of d has been
  // accepted by then: neither this report nor another one, nor the worker's SUPERSEDED.  Whether the
  // cluster resources are gone plays no part.
  lemma FetchedAgain(ttl: map<UserId, nat>, trace: seq<Action>, i: nat, k: nat, d: DeploymentId)
    requires Follows(Initial(ttl), trace) && i < k < |trace|
    requires ReportsExpired(Initial(ttl), trace, i, d) && trace[k].FetchExpired?
    ensures d in trace[k].list <==> !Retired(StateAt(Initial(ttl), trace, k).history, d)
    ensures Retired(StateAt(Initial(ttl), trace, i + 1).history, d)
            <==> trace[i].ok || Retired(StateAt(Initial(ttl), trace, i).history, d)
    ensures trace[i].ok ==> d !in trace[k].list
  {
    var s0 := Initial(ttl);
    var s, t := StateAt(s0, trace, i), StateAt(s0, trace, k);
    InvAt(ttl, trace, i);
    TodoOverdueAlways(ttl, trace, i);
    assert s.cleaner.todo[0] in s.cleaner.todo;
    OverdueLater(ttl, trace, i, k, d);
    Retirement(ttl, trace, i, k, d);
    StateAtStep(s0, trace, k);
    RecordedAlways(ttl, trace, k);
    assert s.rows[d].isSuccess && t.rows[d].isSuccess;
    InvAt(ttl, trace, k);
    assert RowConsistent(t.rows[d]);
    assert PastTtl(t, d) <==> t.rows[d].status == Ready;
    StateAtStep(s0, trace, i);
    HistoryStep(s, trace[i]);
    RetiredConcat(s.history, Events(s, trace[i]), d);
    OneEvent(Events(s, trace[i])[0], d);
    if trace[i].ok {
      RecordedAlways(ttl, trace, i + 1);
      Retirement(ttl, trace, i + 1, k, d);
    }
  }

  // A run in which the removal of the cluster resources fails.  The row is EXPIRED all the same when
  // its report is accepted, and then the next cycle has nothing to do; only a refused report brings
  // the deployment back.
  lemma FailedCleanup(ok: bool) returns (trace: seq<Action>)
    ensures Follows(Initial(map[0 := 5]), trace)
    ensures var s := Exec(Initial(map[0 := 5]), trace);
            && ClusterCleanup(0, false) in s.history && s.cleaner == Waiting
            && Enabled(s, FetchExpired(if ok then [] else [0]))
  {
    var s0 := Initial(map[0 := 5]);
    var t1 := ThenStep(s0, [], s0, Create(DEMO));
    var s1 := Exec(s0, t1);
    FirstCreate(s0);
    var t2, s2 := ThenRunJob(s0, t1, s1);
    var t3 := ThenStep(s0, t2, s2, Tick(300_000));
    var s3 := Exec(s0, t3);
    assert |s3.rows| == 1 && PastTtl(s3, 0) && s3.cleaner == Waiting;
    trace := FailedCycle(s0, t3, s3, ok);
  }

  lemma FirstCreate(s: State)
    requires s == Initial(map[0 := 5])
    ensures var s' := Apply(s, Create(DEMO));
            && s'.rows == [Row(DEMO, Queued, false, 0, None, None)] && s'.queue == [Job(0, DEMO, None)]
            && s'.keys == map[] && s'.worker.Idle? && s'.cleaner == Waiting && s'.clock == 1
            && s'.ttlMinutes == s.ttlMinutes
  {
  }

  lemma FailedCycle(s0: State, trace: seq<Action>, s: State, ok: bool) returns (trace': seq<Action>)
    requires Follows(s0, trace) && s == Exec(s0, trace)
    requires |s.rows| == 1 && PastTtl(s, 0) && s.cleaner == Waiting
    ensures Follows(s0, trace')
    ensures var s' := Exec(s0, trace');
            && ClusterCleanup(0, false) in s'.history && s'.cleaner == Waiting
            && Enabled(s', FetchExpired(if ok then [] else [0]))
  {
    assert IsExpiredList(s, [0]);
    var t1 := ThenStep(s0, trace, s, FetchExpired([0]));
    var s1 := s.(cleaner := Retiring([0], false));
    var t2 := ThenStep(s0, t1, s1, CleanerStep(false));
    var s2 := s1.(cleaner := Retiring([0], true), history := s1.history + [ClusterCleanup(0, false)]);
    assert s2.history[|s1.history|] == ClusterCleanup(0, false);
    var t3 := ThenStep(s0, t2, s2, CleanerStep(ok));
    var s3 := Apply(s2, CleanerStep(ok));
    assert s3.history[|s1.history|] == ClusterCleanup(0, false);
    assert s3.cleaner.todo == [] && |s3.rows| == 1;
    trace' := ThenStep(s0, t3, s3, CleanerStep(true));
    var s4 := s3.(cleaner := Waiting);
    assert PastTtl(s4, 0) <==> !ok;
    assert IsExpiredList(s4, if ok then [] else [0]);
  }
}
