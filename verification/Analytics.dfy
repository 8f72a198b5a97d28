/** The dashboard's day buckets, averages and rates, with days in UTC. */
module Analytics {
  import opened Wrappers
  import opened Pipeline
  import PI = PipelineInvariants
  import PipelineRuns

  const DAY_MS: int := 24 * 60 * 60 * 1000

  // The date part of toISOString.
  function DayOf(ms: int): int {
    ms / DAY_MS
  }

  // Math.round(a / b), on the exact quotient.
  function RoundDiv(a: int, b: int): (r: int)
    requires b > 0
  {
    (2 * a + b) / (2 * b)
  }

  // The nearest integer, a half rounding up.
  lemma RoundDivIsNearest(a: int, b: int, r: int)
    requires b > 0
    ensures r == RoundDiv(a, b) <==> b * (2 * r - 1) <= 2 * a < b * (2 * r + 1)
  {
    DivIsFloor(2 * a + b, 2 * b, r);
    assert b * (2 * r - 1) == (2 * b) * r - b;
    assert b * (2 * r + 1) == (2 * b) * (r + 1) - b;
  }

  lemma MulMonotone(c: nat, a: int, b: int)
    requires a <= b
    ensures c * a <= c * b
  {
  }

  lemma DivIsFloor(n: int, d: nat, q: int)
    requires d > 0
    ensures q == n / d <==> d * q <= n < d * (q + 1)
  {
    var q0 := n / d;
    assert n == d * q0 + n % d;
    assert d * (q0 + 1) == d * q0 + d && d * (q + 1) == d * q + d;
    if q < q0 {
      MulMonotone(d, q + 1, q0);
    } else if q > q0 {
      MulMonotone(d, q0 + 1, q);
    }
  }

  // ---------------------------------------------------------------------
  // Counting
  // ---------------------------------------------------------------------

  function Count(rows: seq<Row>, p: Row -> bool): nat {
    if rows == [] then 0
    else Count(rows[..|rows| - 1], p) + if p(rows[|rows| - 1]) then 1 else 0
  }

  function OnDay(day: int): Row -> bool {
    (r: Row) => DayOf(r.startedAt) == day
  }

  function SucceededOn(day: int): Row -> bool {
    (r: Row) => DayOf(r.startedAt) == day && r.isSuccess
  }

  function FailedOn(day: int): Row -> bool {
    (r: Row) => DayOf(r.startedAt) == day && r.status == Failed
  }

  function Within(first: int, n: nat): Row -> bool {
    (r: Row) => first <= DayOf(r.startedAt) < first + n
  }

  function WithStatus(statuses: set<Status>): Row -> bool {
    (r: Row) => r.status in statuses
  }

  lemma {:induction false} CountSplits(rows: seq<Row>, p: Row -> bool, q: Row -> bool, either: Row -> bool)
    requires forall r | r in rows :: !(p(r) && q(r)) && (either(r) <==> p(r) || q(r))
    ensures Count(rows, either) == Count(rows, p) + Count(rows, q)
  {
    if rows != [] {
      CountSplits(rows[..|rows| - 1], p, q, either);
    }
  }

  lemma {:induction false} CountMonotone(rows: seq<Row>, p: Row -> bool, q: Row -> bool)
    requires forall r | r in rows && p(r) :: q(r)
    ensures Count(rows, p) <= Count(rows, q)
  {
    if rows != [] {
      CountMonotone(rows[..|rows| - 1], p, q);
    }
  }

  lemma {:induction false} CountAll(rows: seq<Row>, p: Row -> bool)
    ensures Count(rows, p) == |rows| <==> forall r | r in rows :: p(r)
    ensures Count(rows, p) <= |rows|
  {
    if rows != [] {
      CountAll(rows[..|rows| - 1], p);
      assert rows == rows[..|rows| - 1] + [rows[|rows| - 1]];
    }
  }

  // ---------------------------------------------------------------------
  // groupByDay
  // ---------------------------------------------------------------------

  datatype Bucket = Bucket(day: int, total: nat, success: nat, failed: nat)

  function BucketOf(rows: seq<Row>, day: int): Bucket {
    Bucket(day, Count(rows, OnDay(day)), Count(rows, SucceededOn(day)), Count(rows, FailedOn(day)))
  }

  // How many days the loop from start in steps of one day creates.
  function DayCount(start: int, end: int): nat {
    if start <= end then (end - start) / DAY_MS + 1 else 0
  }

  method CreateDays(start: int, end: int) returns (days: seq<int>)
    ensures |days| == DayCount(start, end)
    ensures forall k | 0 <= k < |days| :: days[k] == DayOf(start) + k
  {
    days := [];
    var current := start;
    while current <= end
      invariant current == start + |days| * DAY_MS
      invariant |days| <= DayCount(start, end)
      invariant forall k | 0 <= k < |days| :: days[k] == DayOf(start) + k
      decreases end - current
    {
      days := days + [DayOf(current)];
      current := current + DAY_MS;
    }
  }

  // A day is the span of 86,400,000 milliseconds it names, counted from the epoch; the loop makes a
  // bucket for every such span after the start that has begun by the end.
  lemma DaysAreUtc(ms: int, day: int, start: int, end: int)
    ensures DayOf(ms) == day <==> 86_400_000 * day <= ms < 86_400_000 * (day + 1)
    ensures var n := DayCount(start, end);
            if end < start then n == 0 else n > 0 && 86_400_000 * (n - 1) <= end - start < 86_400_000 * n
  {
    DivIsFloor(ms, DAY_MS, day);
  }

  // The places of the rows that satisfy p.
  function Places(rows: seq<Row>, p: Row -> bool): set<nat> {
    set i: nat | i < |rows| && p(rows[i])
  }

  lemma {:induction false} CountIsSize(rows: seq<Row>, p: Row -> bool)
    ensures Count(rows, p) == |Places(rows, p)|
    decreases |rows|
  {
    if rows != [] {
      var m := |rows| - 1;
      CountIsSize(rows[..m], p);
      assert Places(rows, p) == Places(rows[..m], p) + if p(rows[m]) then {m} else {};
    }
  }

  // A bucket counts the rows started on its day, those of them flagged as successes, and those FAILED.
  lemma BucketMeaning(rows: seq<Row>, day: int)
    ensures var b := BucketOf(rows, day);
            && b.day == day
            && b.total == |set i: nat | i < |rows| && DayOf(rows[i].startedAt) == day|
            && b.success == |set i: nat | i < |rows| && DayOf(rows[i].startedAt) == day && rows[i].isSuccess|
            && b.failed == |set i: nat | i < |rows| && DayOf(rows[i].startedAt) == day && rows[i].status == Failed|
  {
    CountIsSize(rows, OnDay(day));
    CountIsSize(rows, SucceededOn(day));
    CountIsSize(rows, FailedOn(day));
    assert Places(rows, OnDay(day)) == set i: nat | i < |rows| && DayOf(rows[i].startedAt) == day;
    assert Places(rows, SucceededOn(day))
           == set i: nat | i < |rows| && DayOf(rows[i].startedAt) == day && rows[i].isSuccess;
    assert Places(rows, FailedOn(day))
           == set i: nat | i < |rows| && DayOf(rows[i].startedAt) == day && rows[i].status == Failed;
  }

  function AddTo(b: Bucket, d: Row): Bucket {
    Bucket(b.day, b.total + 1, b.success + if d.isSuccess then 1 else 0, b.failed + if d.status == Failed then 1 else 0)
  }

  lemma BucketGrows(rows: seq<Row>, d: Row, day: int)
    ensures BucketOf(rows + [d], day) ==
            if DayOf(d.startedAt) == day then AddTo(BucketOf(rows, day), d) else BucketOf(rows, day)
  {
    assert (rows + [d])[..|rows|] == rows;
  }

  lemma AllBucketsGrow(dayMap: map<int, Bucket>, rows: seq<Row>, d: Row)
    requires forall day | day in dayMap :: dayMap[day] == BucketOf(rows, day)
    ensures forall day | day in dayMap ::
              BucketOf(rows + [d], day) == if DayOf(d.startedAt) == day then AddTo(dayMap[day], d) else dayMap[day]
  {
    forall day | day in dayMap {
      BucketGrows(rows, d, day);
    }
  }

  // The keys are created in ascending order, so the final sort leaves the values where they are.
  method GroupByDay(deployments: seq<Row>, start: int, end: int) returns (buckets: seq<Bucket>)
    ensures |buckets| == DayCount(start, end)
    ensures forall k | 0 <= k < |buckets| :: buckets[k] == BucketOf(deployments, DayOf(start) + k)
  {
    var days := CreateDays(start, end);
    var dayMap := map day | day in days :: Bucket(day, 0, 0, 0);
    ghost var keys := dayMap.Keys;
    assert forall k | 0 <= k < |days| :: days[k] in keys;
    var i := 0;
    assert deployments[..0] == [];
    while i < |deployments|
      invariant 0 <= i <= |deployments|
      invariant dayMap.Keys == keys
      invariant forall day | day in dayMap :: dayMap[day] == BucketOf(deployments[..i], day)
    {
      var d := deployments[i];
      var key := DayOf(d.startedAt);
      AllBucketsGrow(dayMap, deployments[..i], d);
      assert deployments[..i + 1] == deployments[..i] + [d];
      if key in dayMap {
        var entry := dayMap[key];
        entry := entry.(total := entry.total + 1);
        if d.isSuccess { entry := entry.(success := entry.success + 1); }
        if d.status == Failed { entry := entry.(failed := entry.failed + 1); }
        assert entry == AddTo(dayMap[key], d);
        dayMap := dayMap[key := entry];
      }
      i := i + 1;
    }
    assert deployments[..i] == deployments;
    buckets := seq(|days|, (k: nat) requires k < |days| && days[k] in dayMap => dayMap[days[k]]);
  }

  function SumTotals(buckets: seq<Bucket>): nat {
    if buckets == [] then 0 else SumTotals(buckets[..|buckets| - 1]) + buckets[|buckets| - 1].total
  }

  // Conservation: the buckets together count each deployment whose day has a bucket once.
  lemma {:induction false} TotalsAreConserved(rows: seq<Row>, first: int, buckets: seq<Bucket>)
    requires forall k | 0 <= k < |buckets| :: buckets[k] == BucketOf(rows, first + k)
    ensures SumTotals(buckets) == Count(rows, Within(first, |buckets|))
  {
    if buckets == [] {
      CountNone(rows, Within(first, 0));
    } else {
      var m := |buckets| - 1;
      TotalsAreConserved(rows, first, buckets[..m]);
      CountSplits(rows, Within(first, m), OnDay(first + m), Within(first, m + 1));
    }
  }

  lemma {:induction false} CountNone(rows: seq<Row>, p: Row -> bool)
    requires forall r | r in rows :: !p(r)
    ensures Count(rows, p) == 0
  {
    if rows != [] {
      CountNone(rows[..|rows| - 1], p);
    }
  }

  // Every instant of the range has a bucket exactly when the range does not end earlier in the day
  // than it begins; otherwise the last day is missing.
  lemma RangeIsCovered(start: int, end: int)
    requires start <= end
    ensures (forall t | start <= t <= end :: DayOf(t) < DayOf(start) + DayCount(start, end))
            <==> start % DAY_MS <= end % DAY_MS
  {
    var n := DayCount(start, end);
    if start % DAY_MS <= end % DAY_MS {
      forall t | start <= t <= end ensures DayOf(t) < DayOf(start) + n {
        assert DayOf(t) <= DayOf(end);
      }
    } else {
      assert DayOf(end) >= DayOf(start) + n;
    }
  }

  lemma InThirtyDays(start: int, t: int)
    requires start <= t <= start + 30 * DAY_MS
    ensures DayOf(start) <= DayOf(t) < DayOf(start) + 31
  {
  }

  // The dashboard's range of thirty days gives 31 buckets, and they add up to all the deployments
  // started in it.
  lemma ThirtyDays(rows: seq<Row>, now: int, buckets: seq<Bucket>)
    requires |buckets| == DayCount(now - 30 * DAY_MS, now)
    requires forall k | 0 <= k < |buckets| :: buckets[k] == BucketOf(rows, DayOf(now - 30 * DAY_MS) + k)
    requires forall r | r in rows :: now - 30 * DAY_MS <= r.startedAt <= now
    ensures |buckets| == 31
    ensures forall j, k | 0 <= j < k < |buckets| :: buckets[j].day < buckets[k].day
    ensures SumTotals(buckets) == |rows|
  {
    var start := now - 30 * DAY_MS;
    TotalsAreConserved(rows, DayOf(start), buckets);
    assert |buckets| == 31;
    forall r | r in rows ensures Within(DayOf(start), 31)(r) { InThirtyDays(start, r.startedAt); }
    CountAll(rows, Within(DayOf(start), |buckets|));
  }

  // ---------------------------------------------------------------------
  // computeBuildTimeTrend
  // ---------------------------------------------------------------------

  predicate Timed(r: Row) {
    r.duration.Some? && r.isSuccess
  }

  function TimedOn(day: int): Row -> bool {
    (r: Row) => DayOf(r.startedAt) == day && Timed(r)
  }

  function SumDurations(rows: seq<Row>, p: Row -> bool): int {
    if rows == [] then 0
    else
      var r := rows[|rows| - 1];
      SumDurations(rows[..|rows| - 1], p) + if p(r) && r.duration.Some? then r.duration.value else 0
  }

  // The rounded mean duration of the selected rows.
  function Mean(rows: seq<Row>, p: Row -> bool): int {
    if Count(rows, p) == 0 then 0 else RoundDiv(SumDurations(rows, p), Count(rows, p))
  }

  datatype Trend = Trend(day: int, avgDuration: int, count: nat, totalDuration: int)

  function TrendOf(rows: seq<Row>, day: int): Trend {
    Trend(day, Mean(rows, TimedOn(day)), Count(rows, TimedOn(day)), SumDurations(rows, TimedOn(day)))
  }

  lemma TrendGrows(rows: seq<Row>, d: Row, day: int)
    ensures TrendOf(rows + [d], day) ==
            if Timed(d) && DayOf(d.startedAt) == day then AddTime(TrendOf(rows, day), d.duration.value)
            else TrendOf(rows, day)
  {
    assert (rows + [d])[..|rows|] == rows;
  }

  // The duration of a row counts on its day, if it succeeded and has one.
  function TimeOn(r: Row, day: int): int {
    if DayOf(r.startedAt) == day && r.isSuccess && r.duration.Some? then r.duration.value else 0
  }

  // On a day without timed successes the average is 0, otherwise the integer nearest to the quotient
  // of their summed durations and their number.
  lemma AverageMeaning(rows: seq<Row>, day: int)
    ensures var timed := set i: nat | i < |rows| && DayOf(rows[i].startedAt) == day && rows[i].isSuccess
                                      && rows[i].duration.Some?;
            var n, sum, avg := |timed|, SumDurations(rows, TimedOn(day)), Mean(rows, TimedOn(day));
            if n == 0 then avg == 0 else n * (2 * avg - 1) <= 2 * sum < n * (2 * avg + 1)
  {
    CountIsSize(rows, TimedOn(day));
    assert Places(rows, TimedOn(day))
           == set i: nat | i < |rows| && DayOf(rows[i].startedAt) == day && rows[i].isSuccess
                           && rows[i].duration.Some?;
    var n, sum := Count(rows, TimedOn(day)), SumDurations(rows, TimedOn(day));
    if n > 0 { RoundDivIsNearest(sum, n, RoundDiv(sum, n)); }
  }

  lemma DurationsNext(rows: seq<Row>, r: Row, day: int)
    ensures SumDurations(rows + [r], TimedOn(day)) == SumDurations(rows, TimedOn(day)) + TimeOn(r, day)
    ensures SumDurations([], TimedOn(day)) == 0
  {
    assert (rows + [r])[..|rows|] == rows;
  }

  function AddTime(t: Trend, duration: int): Trend {
    var total := t.totalDuration + duration;
    Trend(t.day, RoundDiv(total, t.count + 1), t.count + 1, total)
  }

  lemma AllTrendsGrow(dayMap: map<int, Trend>, rows: seq<Row>, d: Row)
    requires forall day | day in dayMap :: dayMap[day] == TrendOf(rows, day)
    ensures forall day | day in dayMap ::
              TrendOf(rows + [d], day) ==
              if Timed(d) && DayOf(d.startedAt) == day then AddTime(dayMap[day], d.duration.value) else dayMap[day]
  {
    forall day | day in dayMap {
      TrendGrows(rows, d, day);
    }
  }

  // The average kept while the rows come in is the rounded mean of each day's successes.
  method ComputeBuildTimeTrend(deployments: seq<Row>, start: int, end: int) returns (trend: seq<(int, int)>)
    ensures |trend| == DayCount(start, end)
    ensures forall k | 0 <= k < |trend| ::
              trend[k] == (DayOf(start) + k, Mean(deployments, TimedOn(DayOf(start) + k)))
  {
    var days := CreateDays(start, end);
    var dayMap := map day | day in days :: Trend(day, 0, 0, 0);
    ghost var keys := dayMap.Keys;
    assert forall k | 0 <= k < |days| :: days[k] in keys;
    var i := 0;
    assert deployments[..0] == [];
    while i < |deployments|
      invariant 0 <= i <= |deployments|
      invariant dayMap.Keys == keys
      invariant forall day | day in dayMap :: dayMap[day] == TrendOf(deployments[..i], day)
    {
      var d := deployments[i];
      AllTrendsGrow(dayMap, deployments[..i], d);
      assert deployments[..i + 1] == deployments[..i] + [d];
      i := i + 1;
      if d.duration.None? || !d.isSuccess { continue; }
      var key := DayOf(d.startedAt);
      if key in dayMap {
        var entry := dayMap[key];
        var count, total := entry.count + 1, entry.totalDuration + d.duration.value;
        dayMap := dayMap[key := Trend(key, RoundDiv(total, count), count, total)];
      }
    }
    assert deployments[..i] == deployments;
    trend := seq(|days|, (k: nat) requires k < |days| && days[k] in dayMap => (days[k], dayMap[days[k]].avgDuration));
  }

  // ---------------------------------------------------------------------
  // Rates, on rows as the pipeline leaves them
  // ---------------------------------------------------------------------

  const COMPLETED: set<Status> := {Ready, Expired, Failed}

  function Succeeded(): Row -> bool {
    (r: Row) => r.isSuccess
  }

  function SuccessRate(rows: seq<Row>): int {
    var completed := Count(rows, WithStatus(COMPLETED));
    if completed > 0 then RoundDiv(100 * Count(rows, Succeeded()), completed) else 100
  }

  // With nothing completed the rate is 100; otherwise the integer nearest to 100 times the flagged
  // rows over those READY, EXPIRED or FAILED.
  lemma SuccessRateMeaning(rows: seq<Row>)
    ensures var success := |set i: nat | i < |rows| && rows[i].isSuccess|;
            var completed := |set i: nat | i < |rows| && rows[i].status in {Ready, Expired, Failed}|;
            var rate := SuccessRate(rows);
            if completed == 0 then rate == 100
            else completed * (2 * rate - 1) <= 2 * (100 * success) < completed * (2 * rate + 1)
  {
    CountIsSize(rows, Succeeded());
    CountIsSize(rows, WithStatus(COMPLETED));
    assert Places(rows, Succeeded()) == set i: nat | i < |rows| && rows[i].isSuccess;
    assert Places(rows, WithStatus(COMPLETED))
           == set i: nat | i < |rows| && rows[i].status in {Ready, Expired, Failed};
    var success, completed := Count(rows, Succeeded()), Count(rows, WithStatus(COMPLETED));
    if completed > 0 { RoundDivIsNearest(100 * success, completed, RoundDiv(100 * success, completed)); }
  }

  ghost predicate Consistent(rows: seq<Row>) {
    forall r | r in rows :: PI.RowConsistent(r)
  }

  // A deployment is never counted both as success and as failure.
  lemma SuccessAndFailureAreApart(rows: seq<Row>, day: int)
    requires Consistent(rows)
    ensures var b := BucketOf(rows, day); b.success + b.failed <= b.total
  {
    var either := (r: Row) => SucceededOn(day)(r) || FailedOn(day)(r);
    CountSplits(rows, SucceededOn(day), FailedOn(day), either);
    CountMonotone(rows, either, OnDay(day));
  }

  // Counting by flag and counting by status agree.
  lemma SuccessesByStatus(rows: seq<Row>)
    requires Consistent(rows)
    ensures Count(rows, Succeeded()) + Count(rows, WithStatus({Failed}))
            == Count(rows, WithStatus(COMPLETED)) + Count(rows, WithStatus({Superseded}))
  {
    CountSplits(rows, WithStatus({Ready, Expired}), WithStatus({Superseded}), Succeeded());
    CountSplits(rows, WithStatus({Ready, Expired}), WithStatus({Failed}), WithStatus(COMPLETED));
  }

  // The rate leaves 0..100 exactly when superseded deployments outweigh the failed ones: they
  // count as successes but not as completed.
  lemma SuccessRateIsAPercentage(rows: seq<Row>)
    requires Consistent(rows)
    ensures var completed := Count(rows, WithStatus(COMPLETED));
            var superseded := Count(rows, WithStatus({Superseded}));
            var failed := Count(rows, WithStatus({Failed}));
            0 <= SuccessRate(rows) <= 100 <==> completed == 0 || 200 * (superseded - failed) < completed
  {
    SuccessesByStatus(rows);
    var completed := Count(rows, WithStatus(COMPLETED));
    var success := Count(rows, Succeeded());
    if completed > 0 {
      var r := SuccessRate(rows);
      RoundDivIsNearest(100 * success, completed, r);
      RateBounds(success, completed, r);
    }
  }

  lemma RateBounds(success: nat, completed: nat, r: int)
    requires completed > 0
    requires completed * (2 * r - 1) <= 200 * success < completed * (2 * r + 1)
    ensures r >= 0
    ensures r <= 100 <==> 200 * success < 201 * completed
  {
    if r < 0 {
      MulMonotone(completed, 2 * r + 1, -1);
    } else if r <= 100 {
      MulMonotone(completed, 2 * r + 1, 201);
    } else {
      MulMonotone(completed, 201, 2 * r - 1);
    }
  }

  // In every run of the pipeline, for the rows of any selection: no bucket counts a deployment
  // twice, every success has a duration, and without superseded rows the rate is a percentage.
  lemma DashboardOfAnyRun(ttlMinutes: map<UserId, nat>, trace: seq<Action>, rows: seq<Row>, day: int)
    requires Follows(Initial(ttlMinutes), trace)
    requires forall r | r in rows :: r in Exec(Initial(ttlMinutes), trace).rows
    ensures var b := BucketOf(rows, day); b.success + b.failed <= b.total
    ensures forall r | r in rows && r.isSuccess :: Timed(r) && r.duration.value >= 0
    ensures (forall r | r in rows :: r.status != Superseded) ==> 0 <= SuccessRate(rows) <= 100
  {
    var s := Exec(Initial(ttlMinutes), trace);
    PipelineRuns.InvAlways(ttlMinutes, trace);
    forall r | r in rows ensures PI.RowConsistent(r) {
      var i :| 0 <= i < |s.rows| && s.rows[i] == r;
    }
    SuccessAndFailureAreApart(rows, day);
    SuccessRateIsAPercentage(rows);
    if forall r | r in rows :: r.status != Superseded {
      CountNone(rows, WithStatus({Superseded}));
    }
  }

  // ---------------------------------------------------------------------
  // A rate of 200
  // ---------------------------------------------------------------------

  lemma SupersededAndReady(rows: seq<Row>)
    requires |rows| == 2 && rows[0].status == Superseded && rows[1].status == Ready
    requires rows[0].isSuccess && rows[1].isSuccess
    ensures SuccessRate(rows) == 200
  {
    assert rows[..1][..0] == [];
    assert rows[..1][0] == rows[0];
    assert Count(rows[..1], Succeeded()) == 1 && Count(rows[..1], WithStatus(COMPLETED)) == 0;
    assert Count(rows, Succeeded()) == 2 && Count(rows, WithStatus(COMPLETED)) == 1;
  }

  lemma SecondPushAfterReady(s: State)
    requires |s.rows| == 1 && s.rows[0].status == Ready && s.rows[0].project == PipelineRuns.DEMO
    requires s.queue == [] && s.keys == map[] && s.worker.Idle?
    ensures var s' := Apply(s, Push(PipelineRuns.DEMO));
            && |s'.rows| == 2 && s'.rows[0] == s.rows[0] && s'.worker.Idle? && s'.keys == map[]
            && s'.queue == [Job(1, PipelineRuns.DEMO, Some(0))]
  {
    assert s.rows[..0] == [];
    assert FindLatest(s.rows, PipelineRuns.DEMO, IN_FLIGHT + {Ready}) == Some(0);
  }

  // A project pushed twice, each build left to finish: one row READY, one SUPERSEDED, and the
  // dashboard shows a success rate of 200.
  lemma RateAbove100() returns (trace: seq<Action>)
    ensures Follows(Initial(map[]), trace)
    ensures SuccessRate(Exec(Initial(map[]), trace).rows) == 200
  {
    var s0 := Initial(map[]);
    PipelineRuns.OnePush(s0);
    var t1 := PipelineRuns.ThenStep(s0, [], s0, Push(PipelineRuns.DEMO));
    var t2, s2 := PipelineRuns.ThenRunJob(s0, t1, Exec(s0, t1));
    SecondPushAfterReady(s2);
    var t3 := PipelineRuns.ThenStep(s0, t2, s2, Push(PipelineRuns.DEMO));
    var t4, s4 := PipelineRuns.ThenRunJob(s0, t3, Exec(s0, t3));
    PipelineRuns.InvAlways(map[], t4);
    assert PI.RowConsistent(s4.rows[0]) && PI.RowConsistent(s4.rows[1]);
    SupersededAndReady(s4.rows);
    trace := t4;
  }
}
