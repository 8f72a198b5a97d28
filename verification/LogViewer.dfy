/**
 The live log view: the cursor-paged query of the API and the browser hook that polls it and
 drips the entries onto the screen.
 */
module LogViewer {
  import opened Wrappers

  datatype Entry = Entry(id: nat, timestamp: int, source: nat, message: string)

  // ---------------------------------------------------------------------
  // DeploymentsService.getLogs
  // ---------------------------------------------------------------------

  // Math.min(options.limit || 200, 500), where None stands for a missing limit or one that is not a
  // number.  The route lets a negative limit through.
  function PageSize(limit: Option<int>): (n: int)
    ensures 1 <= n <= 500 <==> limit.None? || limit.value >= 0
  {
    var asked := if limit.None? || limit.value == 0 then 200 else limit.value;
    if asked < 500 then asked else 500
  }

  // Up to 500 the limit is what was asked for, and 200 when nothing or zero was.
  lemma PageSizes(limit: Option<int>)
    ensures limit.None? || limit.value == 0 ==> PageSize(limit) == 200
    ensures limit.Some? && limit.value != 0 && limit.value <= 500 ==> PageSize(limit) == limit.value
    ensures limit.Some? && limit.value > 500 ==> PageSize(limit) == 500
  {
  }

  // limit=-5 asks the database for -5 entries.
  lemma NegativeLimit()
    ensures PageSize(Some(-5)) == -5
  {
  }

  predicate Selected(e: Entry, source: Option<nat>, after: Option<int>) {
    && (source.Some? ==> e.source == source.value)
    && (after.Some? ==> e.timestamp > after.value)
  }

  ghost predicate Sorted(es: seq<Entry>) {
    forall i, j :: 0 <= i < j < |es| ==> es[i].timestamp <= es[j].timestamp
  }

  ghost predicate DistinctIds(es: seq<Entry>) {
    forall i, j :: 0 <= i < j < |es| ==> es[i].id != es[j].id
  }

  // An answer of the query: ascending by timestamp, ties in any order, at most n entries, and
  // when entries are left out the page is full and none of them is older than its last.
  ghost predicate IsPage(store: seq<Entry>, source: Option<nat>, after: Option<int>, n: int, page: seq<Entry>) {
    && Sorted(page) && DistinctIds(page) && |page| <= n
    && (forall e | e in page :: e in store && Selected(e, source, after))
    && (forall e | e in store && Selected(e, source, after) && e !in page ::
          |page| == n && forall p | p in page :: p.timestamp <= e.timestamp)
  }

  // An answer that is not full holds exactly the stored entries of the requested source, of any if
  // none was requested, that are later than the cursor, all if there is none.
  lemma ShortAnswer(store: seq<Entry>, source: Option<nat>, after: Option<int>, n: int, page: seq<Entry>, e: Entry)
    requires IsPage(store, source, after, n, page) && |page| < n
    ensures e in page <==> e in store && source in {None, Some(e.source)}
                           && (after == None || after.value < e.timestamp)
  {
  }

  // ---------------------------------------------------------------------
  // The hook
  // ---------------------------------------------------------------------

  datatype Fetch = NotFetching | Requested(after: Option<int>) | Answered(after: Option<int>, page: seq<Entry>)

  datatype View = View(
    source: Option<nat>,
    immediate: bool,            // dripInterval === 0
    cursor: Option<int>,
    displayed: seq<Entry>,
    buffer: seq<Entry>,
    firstBatch: bool,
    dripping: bool,             // a drip timer is pending
    fetch: Fetch)

  datatype System = System(store: seq<Entry>, view: View)

  datatype Action =
    | Insert(entry: Entry)
    | BeginFetch
    | Answer(page: seq<Entry>)
    | Receive
    | FailFetch
    | DripTimer
    | Clear

  function Opened(source: Option<nat>, immediate: bool): System {
    System([], View(source, immediate, None, [], [], true, false, NotFetching))
  }

  function Drip(v: View): View {
    if v.buffer == [] then v.(dripping := false)
    else v.(displayed := v.displayed + [v.buffer[0]], buffer := v.buffer[1..], dripping := true)
  }

  function StartDrip(v: View): View {
    if v.dripping then v else Drip(v.(dripping := true))
  }

  function EnqueueLogs(v: View, incoming: seq<Entry>, immediate: bool): View {
    if incoming == [] then v
    else if immediate || v.immediate then v.(displayed := v.displayed + incoming)
    else StartDrip(v.(buffer := v.buffer + incoming))
  }

  // The continuation of fetchLogs when the response arrives.
  function ReceivePage(v: View, page: seq<Entry>): View {
    var v1 := if page == [] then v
              else EnqueueLogs(v, page, v.firstBatch).(firstBatch := false,
                                                       cursor := Some(page[|page| - 1].timestamp));
    v1.(fetch := NotFetching)
  }

  function ClearView(v: View): View {
    v.(displayed := [], buffer := [], cursor := None, firstBatch := true, dripping := false)
  }

  // Of a page that is not empty, the first since the view was opened or cleared is put on the screen
  // at once, as is any page without a drip interval; another waits in the buffer, and when no timer
  // is pending its first waiting entry is shown and the timer starts.
  ghost predicate PageTaken(v: View, t: View, page: seq<Entry>) {
    && t.source == v.source && t.immediate == v.immediate && t.fetch == NotFetching
    && if page == [] then t.(fetch := v.fetch) == v
       else
         && !t.firstBatch && t.cursor == Some(page[|page| - 1].timestamp)
         && if v.firstBatch || v.immediate
            then t.displayed == v.displayed + page && t.buffer == v.buffer && t.dripping == v.dripping
            else
              && t.dripping
              && if v.dripping then t.displayed == v.displayed && t.buffer == v.buffer + page
                 else t.displayed == v.displayed + [(v.buffer + page)[0]] && t.buffer == (v.buffer + page)[1..]
  }

  lemma ReceiveMeaning(v: View, page: seq<Entry>)
    ensures PageTaken(v, ReceivePage(v, page), page)
  {
  }

  // The limit the hook asks for.
  const LIMIT: Option<int> := Some(200)

  ghost predicate Enabled(s: System, a: Action) {
    match a
    case Insert(e) => forall x | x in s.store :: x.id != e.id
    case Answer(page) =>
      s.view.fetch.Requested? && IsPage(s.store, s.view.source, s.view.fetch.after, PageSize(LIMIT), page)
    case Receive => s.view.fetch.Answered?
    case FailFetch => !s.view.fetch.NotFetching?
    case DripTimer => s.view.dripping
    case _ => true
  }

  function Apply(s: System, a: Action): System {
    var v := s.view;
    match a
    case Insert(e) => s.(store := s.store + [e])
    case BeginFetch => if v.fetch.NotFetching? then s.(view := v.(fetch := Requested(v.cursor))) else s
    case Answer(page) => if v.fetch.Requested? then s.(view := v.(fetch := Answered(v.fetch.after, page))) else s
    case Receive => if v.fetch.Answered? then s.(view := ReceivePage(v, v.fetch.page)) else s
    case FailFetch => s.(view := v.(fetch := NotFetching))
    case DripTimer => s.(view := Drip(v))
    case Clear => s.(view := ClearView(v))
  }

  ghost predicate Follows(s: System, trace: seq<Action>)
    decreases |trace|
  {
    trace == [] || (
      var m := |trace| - 1;
      Follows(s, trace[..m]) && Enabled(Exec(s, trace[..m]), trace[m]))
  }

  // The view is never cleared while a request is out.
  predicate Calm(s: System, trace: seq<Action>)
    decreases |trace|
  {
    trace == [] || (
      var m := |trace| - 1;
      Calm(s, trace[..m]) && (trace[m].Clear? ==> Exec(s, trace[..m]).view.fetch.NotFetching?))
  }

  function Exec(s: System, trace: seq<Action>): System {
    if trace == [] then s else Apply(Exec(s, trace[..|trace| - 1]), trace[|trace| - 1])
  }

  // ---------------------------------------------------------------------
  // Any inserts: sorted, nothing twice, nothing stranded
  // ---------------------------------------------------------------------

  // Everything received since the last reset, in order of arrival.
  function Shown(v: View): seq<Entry> {
    v.displayed + v.buffer
  }

  ghost predicate Faithful(s: System, es: seq<Entry>, after: Option<int>) {
    && Sorted(es) && DistinctIds(es)
    && forall e | e in es :: e in s.store && Selected(e, s.view.source, after)
  }

  ghost predicate Inv(s: System) {
    var v := s.view;
    && DistinctIds(s.store)
    && Faithful(s, Shown(v), None)
    && (v.cursor.None? <==> Shown(v) == [])
    && (v.cursor.Some? ==> forall e | e in Shown(v) :: e.timestamp <= v.cursor.value)
    && (!v.fetch.NotFetching? ==> v.fetch.after == v.cursor || v.cursor.None?)
    && (v.fetch.Answered? ==> Faithful(s, v.fetch.page, v.fetch.after))
    && (v.buffer != [] ==> v.dripping)
    && (v.firstBatch ==> Shown(v) == [])
    && (v.immediate ==> v.buffer == [])
  }

  // Receiving appends the page to what is shown, whichever way it is enqueued.
  lemma ReceiveAppends(v: View, page: seq<Entry>)
    requires v.firstBatch || v.immediate ==> v.buffer == []
    ensures Shown(ReceivePage(v, page)) == Shown(v) + page
  {
  }

  // The other fields after a response; a timer is pending whenever entries wait.
  lemma ReceiveFields(v: View, page: seq<Entry>)
    requires v.buffer != [] ==> v.dripping
    requires v.immediate ==> v.buffer == []
    ensures var w := ReceivePage(v, page);
            && w.source == v.source && w.fetch == NotFetching
            && w.cursor == (if page == [] then v.cursor else Some(page[|page| - 1].timestamp))
            && w.firstBatch == (v.firstBatch && page == [])
            && (w.buffer != [] ==> w.dripping)
            && (w.immediate ==> w.buffer == [])
  {
  }

  lemma CursorBoundsConcat(source: Option<nat>, shown: seq<Entry>, page: seq<Entry>, cursor: Option<int>)
    requires Sorted(page) && page != []
    requires forall e | e in page :: Selected(e, source, cursor)
    requires cursor.None? ==> shown == []
    requires cursor.Some? ==> forall e | e in shown :: e.timestamp <= cursor.value
    ensures forall e | e in shown + page :: e.timestamp <= page[|page| - 1].timestamp
  {
    var last := page[|page| - 1];
    assert last in page;
  }

  lemma DripKeepsShown(v: View)
    ensures Shown(Drip(v)) == Shown(v)
  {
  }

  lemma OtherEntryOtherId(store: seq<Entry>, e: Entry, f: Entry)
    requires DistinctIds(store) && e in store && f in store && e != f
    ensures e.id != f.id
  {
    var x :| 0 <= x < |store| && store[x] == e;
    var y :| 0 <= y < |store| && store[y] == f;
  }

  lemma FaithfulConcat(s: System, a: seq<Entry>, b: seq<Entry>, cursor: Option<int>)
    requires DistinctIds(s.store)
    requires Faithful(s, a, None) && Faithful(s, b, cursor)
    requires cursor.None? ==> a == []
    requires cursor.Some? ==> forall e | e in a :: e.timestamp <= cursor.value
    ensures Faithful(s, a + b, None)
  {
    var es := a + b;
    forall i, j | 0 <= i < j < |es| ensures es[i].timestamp <= es[j].timestamp && es[i].id != es[j].id {
      if i < |a| && j >= |a| {
        assert a[i] in a && b[j - |a|] in b;
        assert es[i].timestamp < es[j].timestamp;
        OtherEntryOtherId(s.store, es[i], es[j]);
      }
    }
  }

  lemma ReceiveKeepsInv(s: System)
    requires Inv(s) && s.view.fetch.Answered?
    ensures Inv(Apply(s, Receive))
  {
    var v, page := s.view, s.view.fetch.page;
    var w := ReceivePage(v, page);
    ReceiveAppends(v, page);
    ReceiveFields(v, page);
    assert Faithful(s, page, v.cursor);
    FaithfulConcat(s, Shown(v), page, v.cursor);
    if page != [] {
      CursorBoundsConcat(v.source, Shown(v), page, v.cursor);
    }
    InvAfterReceive(s, w, Shown(v) + page);
  }

  lemma InvAfterReceive(s: System, w: View, shown: seq<Entry>)
    requires DistinctIds(s.store) && Shown(w) == shown
    requires w.source == s.view.source && w.fetch == NotFetching
    requires Faithful(s, shown, None)
    requires w.cursor.None? <==> shown == []
    requires w.cursor.Some? ==> forall e | e in shown :: e.timestamp <= w.cursor.value
    requires (w.buffer != [] ==> w.dripping) && (w.immediate ==> w.buffer == [])
    requires w.firstBatch ==> shown == []
    ensures Inv(s.(view := w))
  {
    assert Faithful(s.(view := w), shown, None);
  }

  lemma InsertKeepsInv(s: System, e: Entry)
    requires Inv(s) && Enabled(s, Insert(e))
    ensures Inv(Apply(s, Insert(e)))
  {
    var t := Apply(s, Insert(e));
    assert forall x | x in s.store :: x in t.store;
    assert Faithful(t, Shown(s.view), None);
  }

  lemma DripKeepsInv(s: System)
    requires Inv(s)
    ensures Inv(Apply(s, DripTimer))
  {
    var t := Apply(s, DripTimer);
    DripKeepsShown(s.view);
    assert Faithful(t, Shown(s.view), None);
    if t.view.fetch.Answered? {
      assert Faithful(t, t.view.fetch.page, t.view.fetch.after);
    }
  }

  lemma ClearKeepsInv(s: System)
    requires Inv(s)
    ensures Inv(Apply(s, Clear))
  {
    var t := Apply(s, Clear);
    assert Shown(t.view) == [];
    assert t.view.fetch.Answered? ==> Faithful(t, t.view.fetch.page, t.view.fetch.after);
  }

  lemma StepKeepsInv(s: System, a: Action)
    requires Inv(s) && Enabled(s, a)
    ensures Inv(Apply(s, a))
  {
    match a {
      case Insert(e) => InsertKeepsInv(s, e);
      case DripTimer => DripKeepsInv(s);
      case Receive => ReceiveKeepsInv(s);
      case Clear => ClearKeepsInv(s);
      case _ =>
    }
  }

  // In every run, what has reached the screen followed by what waits in the drip buffer is sorted,
  // holds no entry twice and nothing that was not stored; a timer is pending while entries wait.
  lemma {:induction false} InvAlways(source: Option<nat>, immediate: bool, trace: seq<Action>)
    requires Follows(Opened(source, immediate), trace)
    ensures Inv(Exec(Opened(source, immediate), trace))
    decreases |trace|
  {
    if trace != [] {
      var m := |trace| - 1;
      InvAlways(source, immediate, trace[..m]);
      StepKeepsInv(Exec(Opened(source, immediate), trace[..m]), trace[m]);
    }
  }

  // Whatever the run, a view of one source shows nothing of another.
  lemma ShowsOwnSource(source: nat, immediate: bool, trace: seq<Action>)
    requires Follows(Opened(Some(source), immediate), trace)
    ensures forall e | e in Shown(Exec(Opened(Some(source), immediate), trace).view) :: e.source == source
  {
    InvAlways(Some(source), immediate, trace);
    SourceStays(Opened(Some(source), immediate), trace);
  }

  lemma {:induction false} SourceStays(s: System, trace: seq<Action>)
    ensures Exec(s, trace).view.source == s.view.source
    decreases |trace|
  {
    if trace != [] { SourceStays(s, trace[..|trace| - 1]); }
  }

  function DripTimes(v: View, n: nat): View {
    if n == 0 then v else Drip(DripTimes(v, n - 1))
  }

  // The timer chain moves the whole buffer to the screen, in order, and then stops.
  lemma {:induction false} DripDrains(v: View, n: nat)
    requires n <= |v.buffer|
    ensures DripTimes(v, n) == v.(displayed := v.displayed + v.buffer[..n], buffer := v.buffer[n..],
                                  dripping := if n == 0 then v.dripping else true)
    ensures n == |v.buffer| ==>
              DripTimes(v, n + 1) == v.(displayed := Shown(v), buffer := [], dripping := false)
  {
    if n > 0 {
      DripDrains(v, n - 1);
      assert v.buffer[..n] == v.buffer[..n - 1] + [v.buffer[n - 1]];
      assert v.displayed + v.buffer[..n] == v.displayed + v.buffer[..n - 1] + [v.buffer[n - 1]];
    }
    if n == |v.buffer| {
      assert v.buffer[..n] == v.buffer;
      assert DripTimes(v, n + 1) == Drip(DripTimes(v, n));
    }
  }

  // ---------------------------------------------------------------------
  // Strictly increasing timestamps: exactly the stored prefix
  // ---------------------------------------------------------------------

  ghost predicate Increasing(es: seq<Entry>) {
    forall i, j :: 0 <= i < j < |es| ==> es[i].timestamp < es[j].timestamp
  }

  predicate InWindow(e: Entry, source: Option<nat>, lo: Option<int>, hi: Option<int>) {
    Selected(e, source, lo) && (hi.Some? ==> e.timestamp <= hi.value)
  }

  // The stored entries after lo and up to hi, in insertion order; hi == None asks for all of them.
  function Window(store: seq<Entry>, source: Option<nat>, lo: Option<int>, hi: Option<int>): seq<Entry> {
    if store == [] then []
    else
      var e := store[|store| - 1];
      Window(store[..|store| - 1], source, lo, hi) + (if InWindow(e, source, lo, hi) then [e] else [])
  }

  lemma {:induction false} WindowMembers(store: seq<Entry>, source: Option<nat>, lo: Option<int>, hi: Option<int>)
    ensures forall e :: e in Window(store, source, lo, hi) <==> e in store && InWindow(e, source, lo, hi)
  {
    if store != [] {
      var m := |store| - 1;
      WindowMembers(store[..m], source, lo, hi);
      assert store == store[..m] + [store[m]];
    }
  }

  lemma {:induction false} WindowIncreasing(store: seq<Entry>, source: Option<nat>, lo: Option<int>, hi: Option<int>)
    requires Increasing(store)
    ensures Increasing(Window(store, source, lo, hi))
  {
    if store != [] {
      var m := |store| - 1;
      WindowIncreasing(store[..m], source, lo, hi);
      WindowMembers(store[..m], source, lo, hi);
      var w := Window(store[..m], source, lo, hi);
      forall i | 0 <= i < |w| ensures w[i].timestamp < store[m].timestamp {
        assert w[i] in w;
        var k :| 0 <= k < m && store[k] == w[i];
      }
    }
  }

  lemma Unsnoc(es: seq<Entry>) returns (front: seq<Entry>, last: Entry)
    requires es != []
    ensures es == front + [last]
  {
    front, last := es[..|es| - 1], es[|es| - 1];
  }

  // The last entry of an increasing list is its latest, and the only one the rest lacks.
  lemma LastIsLatest(es: seq<Entry>, front: seq<Entry>, last: Entry)
    requires Increasing(es) && es == front + [last]
    ensures Increasing(front) && last in es
    ensures forall e | e in es :: e.timestamp <= last.timestamp
    ensures forall e :: e in front <==> e in es && e != last
  {
    assert forall i | 0 <= i < |front| :: front[i] == es[i];
    assert es[|front|] == last;
  }

  // Two increasing lists with the same entries are the same list.
  lemma {:induction false} SameEntriesSameList(a: seq<Entry>, b: seq<Entry>)
    requires Increasing(a) && Increasing(b)
    requires forall e :: e in a <==> e in b
    ensures a == b
    decreases |a|
  {
    if a != [] {
      assert a[0] in b && b != [];
      var a1, x := Unsnoc(a);
      var b1, y := Unsnoc(b);
      LastIsLatest(a, a1, x);
      LastIsLatest(b, b1, y);
      SameTimeSameEntry(b, x, y);
      SameEntriesSameList(a1, b1);
    } else if b != [] {
      var b1, y := Unsnoc(b);
      LastIsLatest(b, b1, y);
    }
  }

  lemma SameTimeSameEntry(store: seq<Entry>, e: Entry, f: Entry)
    requires Increasing(store) && e in store && f in store && e.timestamp == f.timestamp
    ensures e == f
  {
    var x :| 0 <= x < |store| && store[x] == e;
    var y :| 0 <= y < |store| && store[y] == f;
  }

  // An answer is exactly the stored entries from the cursor up to its last one, and when it is
  // not full there is nothing after it.
  lemma PageIsWindow(store: seq<Entry>, source: Option<nat>, after: Option<int>, n: int, page: seq<Entry>)
    requires Increasing(store) && IsPage(store, source, after, n, page)
    ensures page != [] ==> page == Window(store, source, after, Some(page[|page| - 1].timestamp))
    ensures |page| < n ==> page == Window(store, source, after, None)
  {
    forall i, j | 0 <= i < j < |page| ensures page[i].timestamp < page[j].timestamp {
      assert page[i] in page && page[j] in page;
      if page[i].timestamp == page[j].timestamp { SameTimeSameEntry(store, page[i], page[j]); }
    }
    if page != [] {
      var last := page[|page| - 1];
      var hi := Some(last.timestamp);
      var w := Window(store, source, after, hi);
      WindowMembers(store, source, after, hi);
      WindowIncreasing(store, source, after, hi);
      forall e ensures e in page <==> e in w {
        assert last in page;
        if e in w && e !in page {
          assert last.timestamp <= e.timestamp;
          SameTimeSameEntry(store, e, last);
        }
      }
      SameEntriesSameList(page, w);
    }
    if |page| < n {
      WindowMembers(store, source, after, None);
      WindowIncreasing(store, source, after, None);
      SameEntriesSameList(page, Window(store, source, after, None));
    }
  }

  lemma {:induction false} NothingLater(store: seq<Entry>, source: Option<nat>, at: int, hi: Option<int>)
    requires forall i :: 0 <= i < |store| ==> store[i].timestamp <= at
    ensures Window(store, source, Some(at), hi) == []
  {
    if store != [] {
      NothingLater(store[..|store| - 1], source, at, hi);
    }
  }

  lemma WindowSnoc(store: seq<Entry>, e: Entry, source: Option<nat>, lo: Option<int>, hi: Option<int>)
    ensures Window(store + [e], source, lo, hi)
            == Window(store, source, lo, hi) + if InWindow(e, source, lo, hi) then [e] else []
  {
    assert (store + [e])[..|store|] == store;
  }

  // A window splits at any time inside it.
  lemma {:induction false} WindowSplit(store: seq<Entry>, source: Option<nat>, at: int, hi: Option<int>)
    requires Increasing(store)
    requires hi.Some? ==> at <= hi.value
    ensures Window(store, source, None, hi) ==
            Window(store, source, None, Some(at)) + Window(store, source, Some(at), hi)
    decreases |store|
  {
    if store != [] {
      var front, e := Unsnoc(store);
      LastIsLatest(store, front, e);
      WindowSplit(front, source, at, hi);
      if e.timestamp <= at {
        assert forall i | 0 <= i < |front| :: front[i] in store;
        NothingLater(front, source, at, hi);
      }
      WindowSplitStep(front, e, source, at, hi);
    }
  }

  lemma WindowSplitStep(front: seq<Entry>, e: Entry, source: Option<nat>, at: int, hi: Option<int>)
    requires hi.Some? ==> at <= hi.value
    requires Window(front, source, None, hi)
             == Window(front, source, None, Some(at)) + Window(front, source, Some(at), hi)
    requires e.timestamp <= at ==> Window(front, source, Some(at), hi) == []
    ensures Window(front + [e], source, None, hi)
            == Window(front + [e], source, None, Some(at)) + Window(front + [e], source, Some(at), hi)
  {
    WindowSnoc(front, e, source, None, hi);
    WindowSnoc(front, e, source, None, Some(at));
    WindowSnoc(front, e, source, Some(at), hi);
  }

  // What is shown: nothing before the first answer, then everything up to the cursor.
  function UpToCursor(s: System): seq<Entry> {
    if s.view.cursor.None? then [] else Window(s.store, s.view.source, None, s.view.cursor)
  }

  ghost predicate Exact(s: System) {
    && Shown(s.view) == UpToCursor(s)
    && (!s.view.fetch.NotFetching? ==> s.view.fetch.after == s.view.cursor)
    && (s.view.fetch.Answered? && s.view.fetch.page != [] ==>
          var page := s.view.fetch.page;
          page == Window(s.store, s.view.source, s.view.cursor, Some(page[|page| - 1].timestamp)))
  }

  // A later entry does not enter a window that ends at a stored timestamp.
  lemma InsertOutside(store: seq<Entry>, e: Entry, source: Option<nat>, lo: Option<int>, hi: int)
    requires Increasing(store + [e])
    requires exists x :: x in store && hi <= x.timestamp
    ensures Window(store + [e], source, lo, Some(hi)) == Window(store, source, lo, Some(hi))
  {
    var x :| x in store && hi <= x.timestamp;
    var k :| 0 <= k < |store| && store[k] == x;
    assert (store + [e])[k] == x && (store + [e])[|store|] == e;
    assert (store + [e])[..|store|] == store;
  }

  // The cursor is the timestamp of a stored entry.
  ghost predicate CursorStored(s: System) {
    s.view.cursor.Some? ==> exists x :: x in s.store && s.view.cursor.value <= x.timestamp
  }

  lemma InsertKeepsExact(s: System, e: Entry)
    requires Inv(s) && Exact(s) && CursorStored(s) && Increasing(s.store + [e])
    ensures Exact(Apply(s, Insert(e))) && CursorStored(Apply(s, Insert(e)))
  {
    var v := s.view;
    var t := Apply(s, Insert(e));
    if v.cursor.Some? {
      InsertOutside(s.store, e, v.source, None, v.cursor.value);
      var x :| x in s.store && v.cursor.value <= x.timestamp;
      assert x in t.store;
    }
    if v.fetch.Answered? && v.fetch.page != [] {
      var last := v.fetch.page[|v.fetch.page| - 1];
      assert last in v.fetch.page;
      InsertOutside(s.store, e, v.source, v.cursor, last.timestamp);
    }
  }

  lemma ReceiveKeepsExact(s: System)
    requires Inv(s) && Exact(s) && CursorStored(s) && Increasing(s.store) && s.view.fetch.Answered?
    ensures Exact(Apply(s, Receive)) && CursorStored(Apply(s, Receive))
  {
    var v := s.view;
    var page := v.fetch.page;
    ReceiveAppends(v, page);
    if page != [] {
      var last := page[|page| - 1];
      assert last in page;
      if v.cursor.Some? {
        WindowSplit(s.store, v.source, v.cursor.value, Some(last.timestamp));
      }
    } else {
      assert Shown(v) + page == Shown(v);
    }
  }

  lemma StepKeepsExact(s: System, a: Action)
    requires Inv(s) && Exact(s) && CursorStored(s)
    requires Enabled(s, a) && (a.Clear? ==> s.view.fetch.NotFetching?)
    requires Increasing(Apply(s, a).store)
    ensures Exact(Apply(s, a)) && CursorStored(Apply(s, a))
  {
    match a {
      case Insert(e) => InsertKeepsExact(s, e);
      case Receive => ReceiveKeepsExact(s);
      case DripTimer => DripKeepsShown(s.view);
      case Answer(page) => PageIsWindow(s.store, s.view.source, s.view.cursor, PageSize(LIMIT), page);
      case _ =>
    }
  }

  lemma StoreGrows(s: System, a: Action)
    ensures s.store <= Apply(s, a).store
  {
  }

  // While stored timestamps strictly increase, and the view is not cleared while a request is out,
  // what is shown is at every moment exactly the stored entries up to the cursor, in order and
  // without gaps.
  lemma {:induction false} ShownIsStoredPrefix(source: Option<nat>, immediate: bool, trace: seq<Action>)
    requires Follows(Opened(source, immediate), trace) && Calm(Opened(source, immediate), trace)
    requires Increasing(Exec(Opened(source, immediate), trace).store)
    ensures Exact(Exec(Opened(source, immediate), trace))
    ensures CursorStored(Exec(Opened(source, immediate), trace))
    decreases |trace|
  {
    if trace != [] {
      var m := |trace| - 1;
      var s := Exec(Opened(source, immediate), trace[..m]);
      StoreGrows(s, trace[m]);
      ShownIsStoredPrefix(source, immediate, trace[..m]);
      InvAlways(source, immediate, trace[..m]);
      StepKeepsExact(s, trace[m]);
    }
  }

  // An answer that is not full completes what is shown.
  lemma ShortAnswerCompletes(store: seq<Entry>, source: Option<nat>, shown: seq<Entry>, cursor: Option<int>,
                             n: int, page: seq<Entry>)
    requires Increasing(store) && IsPage(store, source, cursor, n, page) && |page| < n
    requires shown == if cursor.None? then [] else Window(store, source, None, cursor)
    ensures shown + page == Window(store, source, None, None)
  {
    PageIsWindow(store, source, cursor, n, page);
    if cursor.Some? {
      WindowSplit(store, source, cursor.value, None);
    }
  }

  // Repeated paging equals one unpaged query: once an answer comes back that is not full, what
  // is shown with it is everything the filter selects.
  lemma CaughtUpIsEverything(source: Option<nat>, immediate: bool, trace: seq<Action>, page: seq<Entry>)
    requires Follows(Opened(source, immediate), trace) && Calm(Opened(source, immediate), trace)
    requires Increasing(Exec(Opened(source, immediate), trace).store)
    requires Enabled(Exec(Opened(source, immediate), trace), Answer(page))
    requires |page| < PageSize(LIMIT)
    ensures var s := Exec(Opened(source, immediate), trace);
            Shown(Apply(Apply(s, Answer(page)), Receive).view) == Window(s.store, s.view.source, None, None)
  {
    var s := Exec(Opened(source, immediate), trace);
    InvAlways(source, immediate, trace);
    ShownIsStoredPrefix(source, immediate, trace);
    CaughtUpFrom(s, page);
  }

  lemma CaughtUpFrom(s: System, page: seq<Entry>)
    requires Inv(s) && Exact(s) && Increasing(s.store)
    requires Enabled(s, Answer(page)) && |page| < PageSize(LIMIT)
    ensures Shown(Apply(Apply(s, Answer(page)), Receive).view) == Window(s.store, s.view.source, None, None)
  {
    var v := s.view.(fetch := Answered(s.view.fetch.after, page));
    ShortAnswerCompletes(s.store, v.source, Shown(v), v.cursor, PageSize(LIMIT), page);
    ReceiveAppends(v, page);
  }
}
