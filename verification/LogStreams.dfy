/**
 The registry of runtime log streams: a mutex-protected map from deployments to cancel functions.
 Each locked section is one step; the pod listing between them may fail at any later time.
 */
module LogStreams {
  type DeploymentId = nat

  // A stream context. Its cancel function is a handle: the position at which it was created.
  datatype Context = Context(deployment: DeploymentId, cancelled: bool)
  type Handle = nat

  datatype Registry = Registry(
    contexts: seq<Context>,
    active: map<DeploymentId, Handle>,   // activeStreams
    listing: set<Handle>,                // StartStreaming calls between the lock and the pod list
    streaming: set<Handle>)              // contexts whose pod goroutines were started

  datatype Action =
    | Start(deployment: DeploymentId)
    | Listed(handle: Handle, found: bool)
    | ParentDone(handle: Handle)
    | Stop(deployment: DeploymentId)
    | StopAll

  const EMPTY := Registry([], map[], {}, {})

  function CancelAt(contexts: seq<Context>, h: Handle): seq<Context> {
    if h < |contexts| then contexts[h := contexts[h].(cancelled := true)] else contexts
  }

  // The locked section shared by StartStreaming and StopStreaming.
  function Drop(r: Registry, id: DeploymentId): Registry {
    if id in r.active then r.(contexts := CancelAt(r.contexts, r.active[id]), active := r.active - {id}) else r
  }

  function Begin(r: Registry, id: DeploymentId): Registry {
    var d := Drop(r, id);
    var h := |d.contexts|;
    d.(contexts := d.contexts + [Context(id, false)], active := d.active[id := h], listing := d.listing + {h})
  }

  // A failed or empty pod list cancels the call's own context but leaves the map as it is.
  function AfterListing(r: Registry, h: Handle, found: bool): Registry {
    var done := r.(listing := r.listing - {h});
    if found then done.(streaming := done.streaming + {h})
    else done.(contexts := CancelAt(done.contexts, h))
  }

  function CancelSet(contexts: seq<Context>, handles: set<Handle>): seq<Context> {
    seq(|contexts|, (h: nat) requires h < |contexts| =>
      if h in handles then contexts[h].(cancelled := true) else contexts[h])
  }

  lemma CancelOneMore(contexts: seq<Context>, handles: set<Handle>, h: Handle)
    ensures CancelAt(CancelSet(contexts, handles), h) == CancelSet(contexts, handles + {h})
  {
  }

  predicate Enabled(r: Registry, a: Action) {
    match a
    case Listed(h, _) => h in r.listing
    case ParentDone(h) => h < |r.contexts|
    case _ => true
  }

  function Apply(r: Registry, a: Action): Registry {
    match a
    case Start(id) => Begin(r, id)
    case Listed(h, found) => AfterListing(r, h, found)
    case ParentDone(h) => r.(contexts := CancelAt(r.contexts, h))
    case Stop(id) => Drop(r, id)
    case StopAll => r.(contexts := CancelSet(r.contexts, r.active.Values), active := map[])
  }

  function Exec(trace: seq<Action>): Registry {
    if trace == [] then EMPTY else Apply(Exec(trace[..|trace| - 1]), trace[|trace| - 1])
  }

  predicate Follows(trace: seq<Action>) {
    trace == [] || (
      var m := |trace| - 1;
      Follows(trace[..m]) && Enabled(Exec(trace[..m]), trace[m]))
  }

  predicate Live(r: Registry, h: int) {
    0 <= h < |r.contexts| && !r.contexts[h].cancelled
  }

  ghost predicate Inv(r: Registry) {
    && (forall id | id in r.active :: r.active[id] < |r.contexts| && r.contexts[r.active[id]].deployment == id)
    && (forall h | Live(r, h) :: r.contexts[h].deployment in r.active && r.active[r.contexts[h].deployment] == h)
    && (forall h, g | 0 <= h < g < |r.contexts| && r.contexts[h].deployment == r.contexts[g].deployment ::
          r.contexts[h].cancelled)
    && (forall h | h in r.listing || h in r.streaming :: h < |r.contexts|)
  }

  lemma DropKeepsInv(r: Registry, id: DeploymentId)
    requires Inv(r)
    ensures Inv(Drop(r, id))
    ensures forall h | Live(Drop(r, id), h) :: Live(r, h) && r.contexts[h].deployment != id
    ensures forall h | Live(r, h) && r.contexts[h].deployment != id :: Live(Drop(r, id), h)
  {
    if id in r.active {
      var d := Drop(r, id);
      var g := r.active[id];
      assert forall h | 0 <= h < |r.contexts| && h != g :: d.contexts[h] == r.contexts[h];
      assert forall h | Live(d, h) :: Live(r, h);
    } else {
      assert forall h | Live(r, h) :: r.contexts[h].deployment in r.active;
    }
  }

  lemma BeginKeepsInv(r: Registry, id: DeploymentId)
    requires Inv(r)
    ensures Inv(Begin(r, id))
  {
    var d, b := Drop(r, id), Begin(r, id);
    DropKeepsInv(r, id);
    var n := |d.contexts|;
    assert forall h | 0 <= h < n :: b.contexts[h] == d.contexts[h];
    forall h | Live(b, h)
      ensures b.contexts[h].deployment in b.active && b.active[b.contexts[h].deployment] == h
    {
      if h < n { assert Live(d, h); }
    }
    forall h | 0 <= h < n && b.contexts[h].deployment == id ensures b.contexts[h].cancelled {
      assert !Live(d, h);
    }
  }

  lemma CancelKeepsInv(r: Registry, h: Handle)
    requires Inv(r)
    ensures Inv(r.(contexts := CancelAt(r.contexts, h)))
  {
    var d := r.(contexts := CancelAt(r.contexts, h));
    assert forall g | Live(d, g) :: Live(r, g);
  }

  lemma StopAllKeepsInv(r: Registry)
    requires Inv(r)
    ensures Inv(Apply(r, StopAll))
    ensures forall h :: !Live(Apply(r, StopAll), h)
  {
    var d := Apply(r, StopAll);
    forall h ensures !Live(d, h) {
      if Live(r, h) { assert r.active[r.contexts[h].deployment] in r.active.Values; }
    }
  }

  lemma StepKeepsInv(r: Registry, a: Action)
    requires Inv(r) && Enabled(r, a)
    ensures Inv(Apply(r, a))
  {
    match a {
      case Start(id) => BeginKeepsInv(r, id);
      case Listed(h, found) =>
        if !found { CancelKeepsInv(r, h); }
      case ParentDone(h) => CancelKeepsInv(r, h);
      case Stop(id) => DropKeepsInv(r, id);
      case StopAll => StopAllKeepsInv(r);
    }
  }

  lemma {:induction false} InvAlways(trace: seq<Action>)
    requires Follows(trace)
    ensures Inv(Exec(trace))
    decreases |trace|
  {
    if trace != [] {
      var m := |trace| - 1;
      InvAlways(trace[..m]);
      StepKeepsInv(Exec(trace[..m]), trace[m]);
    }
  }

  // In every run a deployment has at most one live stream, it is the one the map knows how to
  // cancel, and it is the one started last.
  lemma OneLiveStream(trace: seq<Action>, h: Handle)
    requires Follows(trace) && Live(Exec(trace), h)
    ensures var r := Exec(trace);
            var id := r.contexts[h].deployment;
            && id in r.active && r.active[id] == h
            && (forall g | Live(r, g) && r.contexts[g].deployment == id :: g == h)
            && (forall g | h < g < |r.contexts| :: r.contexts[g].deployment != id)
  {
    InvAlways(trace);
  }

  // Right after StopStreaming no stream of that deployment is live and every other one is as before.
  lemma StopStops(trace: seq<Action>, id: DeploymentId)
    requires Follows(trace)
    ensures var r, d := Exec(trace), Exec(trace + [Stop(id)]);
            && id !in d.active
            && forall h :: Live(d, h) <==> Live(r, h) && r.contexts[h].deployment != id
  {
    InvAlways(trace);
    assert (trace + [Stop(id)])[..|trace|] == trace;
    DropKeepsInv(Exec(trace), id);
  }

  // Right after StopAll nothing is live, whatever calls were between their lock and their listing.
  lemma StopAllStops(trace: seq<Action>)
    requires Follows(trace)
    ensures var d := Exec(trace + [StopAll]); d.active == map[] && forall h :: !Live(d, h)
  {
    InvAlways(trace);
    assert (trace + [StopAll])[..|trace|] == trace;
    StopAllKeepsInv(Exec(trace));
  }

  // A cancelled context stays cancelled: no interleaving revives a stream.
  lemma StepKeepsCancelled(r: Registry, a: Action, h: Handle)
    requires h < |r.contexts| && r.contexts[h].cancelled
    ensures h < |Apply(r, a).contexts| && Apply(r, a).contexts[h] == r.contexts[h]
  {
  }

  lemma {:induction false} CancelledForever(trace: seq<Action>, k: nat, h: Handle)
    requires k <= |trace|
    requires h < |Exec(trace[..k]).contexts| && Exec(trace[..k]).contexts[h].cancelled
    ensures !Live(Exec(trace), h) && h < |Exec(trace).contexts|
    decreases |trace| - k
  {
    if k == |trace| {
      assert trace[..k] == trace;
    } else {
      assert trace[..k + 1][..k] == trace[..k];
      StepKeepsCancelled(Exec(trace[..k]), trace[k], h);
      CancelledForever(trace, k + 1, h);
    }
  }

  // ---------------------------------------------------------------------
  // How long a stream lives
  // ---------------------------------------------------------------------

  // What ends the stream h of a deployment: a newer start, a stop, its parent, or its own listing
  // when that fails or finds no pods.
  predicate Ends(a: Action, h: Handle, id: DeploymentId) {
    || a == Start(id) || a == Stop(id) || a == StopAll
    || a == ParentDone(h) || a == Listed(h, false)
  }

  // Nothing after action k ends the stream h.
  predicate Undisturbed(trace: seq<Action>, k: nat, h: Handle, id: DeploymentId) {
    forall m | k < m < |trace| :: !Ends(trace[m], h, id)
  }

  lemma UndisturbedSnoc(trace: seq<Action>, a: Action, k: nat, h: Handle, id: DeploymentId)
    requires k < |trace|
    ensures Undisturbed(trace + [a], k, h, id) <==> Undisturbed(trace, k, h, id) && !Ends(a, h, id)
  {
    assert (trace + [a])[|trace|] == a;
    assert forall m | k < m < |trace| :: (trace + [a])[m] == trace[m];
  }

  lemma EndsStep(r: Registry, a: Action, h: Handle)
    requires Inv(r) && Enabled(r, a) && h < |r.contexts|
    ensures h < |Apply(r, a).contexts| && Apply(r, a).contexts[h].deployment == r.contexts[h].deployment
    ensures Live(Apply(r, a), h) <==> Live(r, h) && !Ends(a, h, r.contexts[h].deployment)
  {
    var id := r.contexts[h].deployment;
    match a {
      case Start(e) => DropKeepsInv(r, e);
      case Stop(e) => DropKeepsInv(r, e);
      case StopAll => StopAllKeepsInv(r);
      case _ =>
    }
    KeepsDeployment(r, a, h);
  }

  lemma KeepsDeployment(r: Registry, a: Action, h: Handle)
    requires h < |r.contexts|
    ensures h < |Apply(r, a).contexts| && Apply(r, a).contexts[h].deployment == r.contexts[h].deployment
  {
  }

  lemma ExecSnoc(front: seq<Action>, a: Action)
    ensures Exec(front + [a]) == Apply(Exec(front), a)
  {
    assert (front + [a])[..|front|] == front;
  }

  lemma LiveNext(front: seq<Action>, a: Action, k: nat, h: Handle, id: DeploymentId)
    requires Inv(Exec(front)) && Enabled(Exec(front), a) && k < |front|
    requires h < |Exec(front).contexts| && Exec(front).contexts[h].deployment == id
    requires Live(Exec(front), h) <==> Undisturbed(front, k, h, id)
    ensures h < |Exec(front + [a]).contexts| && Exec(front + [a]).contexts[h].deployment == id
    ensures Live(Exec(front + [a]), h) <==> Undisturbed(front + [a], k, h, id)
  {
    ExecSnoc(front, a);
    EndsStep(Exec(front), a, h);
    UndisturbedSnoc(front, a, k, h, id);
  }

  // The stream created by action k is live at the end of the run exactly when nothing since then
  // ended it: a stream whose listing finds its pods goes on until it is stopped or replaced.
  lemma {:induction false} LiveUntilEnded(trace: seq<Action>, k: nat, h: Handle)
    requires Follows(trace) && k < |trace| && trace[k].Start? && h == |Exec(trace[..k]).contexts|
    ensures h < |Exec(trace).contexts| && Exec(trace).contexts[h].deployment == trace[k].deployment
    ensures Live(Exec(trace), h) <==> Undisturbed(trace, k, h, trace[k].deployment)
    decreases |trace|
  {
    var m := |trace| - 1;
    var front, a := trace[..m], trace[m];
    if k == m {
      StartCreates(Exec(front), a.deployment);
    } else {
      assert front[..k] == trace[..k] && front[k] == trace[k];
      LiveUntilEnded(front, k, h);
      InvAlways(front);
      LiveNext(front, a, k, h, trace[k].deployment);
      assert front + [a] == trace;
    }
  }

  lemma StartCreates(r: Registry, id: DeploymentId)
    ensures var b := Apply(r, Start(id));
            |b.contexts| == |r.contexts| + 1 && b.contexts[|r.contexts|] == Context(id, false)
            && b.active == r.active[id := |r.contexts|] && b.listing == r.listing + {|r.contexts|}
            && b.streaming == r.streaming
  {
    assert (r.active - {id})[id := |r.contexts|] == r.active[id := |r.contexts|];
  }

  // Pod goroutines run for a stream exactly when its listing found pods.
  lemma {:induction false} StreamingWhenListed(trace: seq<Action>, h: Handle)
    requires Follows(trace)
    ensures h in Exec(trace).streaming <==> Listed(h, true) in trace
    decreases |trace|
  {
    if trace != [] {
      var m := |trace| - 1;
      StreamingWhenListed(trace[..m], h);
      StreamingStep(Exec(trace[..m]), trace[m], h);
      assert trace == trace[..m] + [trace[m]];
    }
  }

  lemma StreamingStep(r: Registry, a: Action, h: Handle)
    ensures h in Apply(r, a).streaming <==> h in r.streaming || a == Listed(h, true)
  {
  }

  // ---------------------------------------------------------------------
  // The number ActiveStreams reports
  // ---------------------------------------------------------------------

  ghost function LiveDeployments(r: Registry): set<DeploymentId>
    requires Inv(r)
  {
    set id | id in r.active && Live(r, r.active[id])
  }

  function LiveHandles(r: Registry): set<Handle> {
    set h | 0 <= h < |r.contexts| && Live(r, h)
  }

  lemma {:induction false} InjectiveImage(ids: set<DeploymentId>, handles: set<Handle>, m: map<DeploymentId, Handle>)
    requires ids <= m.Keys
    requires forall i, j | i in ids && j in ids && m[i] == m[j] :: i == j
    requires forall h :: h in handles <==> exists i :: i in ids && m[i] == h
    ensures |ids| == |handles|
    decreases ids
  {
    if ids == {} {
      assert handles == {};
    } else {
      var i :| i in ids;
      assert m[i] in handles;
      var rest := handles - {m[i]};
      forall h ensures h in rest <==> exists j :: j in ids - {i} && m[j] == h {
        if h in rest { var j :| j in ids && m[j] == h; assert j in ids - {i}; }
      }
      InjectiveImage(ids - {i}, rest, m);
    }
  }

  // The count never under-reports the live streams, and it is exact as long as no registered
  // context was cancelled by a failed listing or by its parent: such an entry stays in the map.
  lemma ActiveCountsLive(r: Registry)
    requires Inv(r)
    ensures |LiveHandles(r)| <= |r.active|
    ensures |LiveHandles(r)| == |r.active| <==> forall id | id in r.active :: Live(r, r.active[id])
  {
    var ids := LiveDeployments(r);
    InjectiveImage(ids, LiveHandles(r), r.active);
    assert ids <= r.active.Keys;
    CountSubset(ids, r.active.Keys);
    assert |r.active.Keys| == |r.active|;
  }

  lemma {:induction false} CountSubset(a: set<DeploymentId>, b: set<DeploymentId>)
    requires a <= b
    ensures |a| <= |b| && (|a| == |b| <==> a == b)
    decreases a
  {
    if a == {} {
      assert |b| == 0 ==> b == {};
    } else {
      var x :| x in a;
      CountSubset(a - {x}, b - {x});
      assert a == a - {x} + {x} && b == b - {x} + {x};
    }
  }

  // ---------------------------------------------------------------------
  // LogStreamer
  // ---------------------------------------------------------------------

  class LogStreamer {
    var contexts: seq<Context>
    var activeStreams: map<DeploymentId, Handle>
    var listing: set<Handle>
    var streaming: set<Handle>

    function Current(): Registry
      reads this
    {
      Registry(contexts, activeStreams, listing, streaming)
    }

    ghost predicate Valid()
      reads this
    {
      Inv(Current())
    }

    constructor ()
      ensures Valid() && Current() == EMPTY
    {
      contexts, activeStreams, listing, streaming := [], map[], {}, {};
    }

    method Cancel(h: Handle)
      modifies this
      ensures Current() == old(Current()).(contexts := CancelAt(old(contexts), h))
    {
      if h < |contexts| { contexts := contexts[h := contexts[h].(cancelled := true)]; }
    }

    // StartStreaming while it holds the lock.
    method StartStreaming(id: DeploymentId) returns (h: Handle)
      requires Valid()
      modifies this
      ensures Valid() && Current() == Apply(old(Current()), Start(id))
      ensures Live(Current(), h) && activeStreams[id] == h
      ensures forall g | Live(Current(), g) && contexts[g].deployment == id :: g == h
    {
      BeginKeepsInv(Current(), id);
      if id in activeStreams {
        Cancel(activeStreams[id]);
        activeStreams := activeStreams - {id};
      }
      h := |contexts|;
      contexts := contexts + [Context(id, false)];
      activeStreams := activeStreams[id := h];
      listing := listing + {h};
    }

    // The rest of StartStreaming: start the goroutines, or cancel its own context.
    method FinishStart(h: Handle, podsFound: bool)
      requires Valid() && h in listing
      modifies this
      ensures Valid() && Current() == Apply(old(Current()), Listed(h, podsFound))
      ensures activeStreams == old(activeStreams) && listing == old(listing) - {h}
      ensures podsFound ==> contexts == old(contexts) && streaming == old(streaming) + {h}
      ensures !podsFound ==> streaming == old(streaming) && !Live(Current(), h)
      ensures forall g | 0 <= g < |old(contexts)| && g != h :: g < |contexts| && contexts[g] == old(contexts)[g]
    {
      StepKeepsInv(Current(), Listed(h, podsFound));
      listing := listing - {h};
      if podsFound {
        streaming := streaming + {h};
      } else {
        Cancel(h);
      }
    }

    method StopStreaming(id: DeploymentId)
      requires Valid()
      modifies this
      ensures Valid() && Current() == Apply(old(Current()), Stop(id))
      ensures forall h | Live(Current(), h) :: contexts[h].deployment != id
    {
      DropKeepsInv(Current(), id);
      if id in activeStreams {
        Cancel(activeStreams[id]);
        activeStreams := activeStreams - {id};
      }
    }

    method StopAllStreams()
      requires Valid()
      modifies this
      ensures Valid() && Current() == Apply(old(Current()), StopAll)
      ensures forall h :: !Live(Current(), h)
    {
      StopAllKeepsInv(Current());
      ghost var was := Current();
      var ids := activeStreams.Keys;
      ghost var done: set<Handle> := {};
      while ids != {}
        invariant ids <= was.active.Keys
        invariant forall h | h in was.active.Values :: h in done || exists id :: id in ids && was.active[id] == h
        invariant done <= was.active.Values
        invariant activeStreams == was.active && listing == was.listing && streaming == was.streaming
        invariant contexts == CancelSet(was.contexts, done)
        decreases |ids|
      {
        var id :| id in ids;
        Cancel(activeStreams[id]);
        CancelOneMore(was.contexts, done, was.active[id]);
        ids := ids - {id};
        done := done + {was.active[id]};
      }
      assert done == was.active.Values;
      activeStreams := map[];
    }

    method ActiveStreams() returns (n: nat)
      requires Valid()
      ensures n == |activeStreams| && n >= |LiveHandles(Current())|
    {
      ActiveCountsLive(Current());
      n := |activeStreams|;
    }
  }
}
