/** When the log view misses entries: late inserts, gaps in an answer, and pages cut between ties. */
module LogLoss {
  import opened Wrappers
  import opened LogViewer

  // ---------------------------------------------------------------------
  // Any run
  // ---------------------------------------------------------------------

  // The entry is stored at or before the cursor: no later query returns it.
  predicate StoredBehind(v: View, e: Entry) {
    v.cursor.Some? && Selected(e, v.source, None) && e.timestamp <= v.cursor.value
  }

  // The answer is full and leaves out an entry with its last timestamp.
  ghost predicate CutBetweenTies(store: seq<Entry>, v: View, after: Option<int>, page: seq<Entry>)
    requires page != []
  {
    && |page| == PageSize(LIMIT)
    && exists e :: e in store && Selected(e, v.source, after)
                   && e.timestamp == page[|page| - 1].timestamp && e !in page
  }

  predicate PendingPage(v: View) {
    v.fetch.Answered? && v.fetch.page != []
  }

  // At the end of the run an answer is pending, and something happened that makes it go past an
  // entry: it was cut between ties, or it was asked for before a reset, when it was computed; or
  // since then an entry was stored in its range, or the view was reset although the answer is to
  // a request with a cursor.
  ghost predicate Doubtful(s0: System, trace: seq<Action>)
    decreases |trace|
  {
    trace != [] && (
      var m := |trace| - 1;
      var v := Exec(s0, trace[..m]).view;
      match trace[m]
      case Answer(page) =>
        && v.fetch.Requested? && page != []
        && (CutBetweenTies(Exec(s0, trace[..m]).store, v, v.fetch.after, page) || v.fetch.after != v.cursor)
      case Insert(e) =>
        && PendingPage(v)
        && (Doubtful(s0, trace[..m])
            || (Selected(e, v.source, v.cursor) && e.timestamp <= v.fetch.page[|v.fetch.page| - 1].timestamp))
      case Clear => PendingPage(v) && (Doubtful(s0, trace[..m]) || v.fetch.after.Some?)
      case BeginFetch => PendingPage(v) && Doubtful(s0, trace[..m])
      case DripTimer => PendingPage(v) && Doubtful(s0, trace[..m])
      case _ => false)
  }

  // Since the last reset an entry was stored behind the cursor, or a doubtful answer was received.
  ghost predicate Lost(s0: System, trace: seq<Action>) {
    trace != [] && (
      var m := |trace| - 1;
      match trace[m]
      case Clear => false
      case Insert(e) => Lost(s0, trace[..m]) || StoredBehind(Exec(s0, trace[..m]).view, e)
      case Receive => Lost(s0, trace[..m]) || Doubtful(s0, trace[..m])
      case _ => Lost(s0, trace[..m]))
  }

  // The pending answer goes past the stored entry.
  predicate Overtaken(v: View, page: seq<Entry>, e: Entry)
    requires page != []
  {
    Selected(e, v.source, v.cursor) && e.timestamp <= page[|page| - 1].timestamp && e !in page
  }

  ghost predicate GoesPast(s: System) {
    PendingPage(s.view) && exists e :: e in s.store && Overtaken(s.view, s.view.fetch.page, e)
  }

  // What is shown holds every selected entry up to the cursor.
  ghost predicate Complete(s: System) {
    forall e | e in s.store && UpTo(s.view, e) :: e in Shown(s.view)
  }

  predicate UpTo(v: View, e: Entry) {
    v.cursor.Some? && Selected(e, v.source, None) && e.timestamp <= v.cursor.value
  }

  lemma InsertLoses(s: System, e: Entry)
    requires Inv(s) && Enabled(s, Insert(e))
    ensures Complete(Apply(s, Insert(e))) <==> Complete(s) && !StoredBehind(s.view, e)
  {
    var t := Apply(s, Insert(e));
    assert t.store[|s.store|] == e && e in t.store;
    assert forall x | x in s.store :: x in t.store;
    assert forall x | x in t.store :: x == e || x in s.store;
    assert e !in Shown(s.view);
  }

  lemma ReceiveLoses(s: System, w: View, page: seq<Entry>)
    requires Inv(s) && s.view.fetch.Answered? && s.view.fetch.page == page && page != []
    requires Shown(w) == Shown(s.view) + page && w.source == s.view.source
    requires w.cursor == Some(page[|page| - 1].timestamp)
    ensures Complete(s.(view := w)) <==> Complete(s) && !exists e :: e in s.store && Overtaken(s.view, page, e)
  {
    var v, last := s.view, page[|page| - 1];
    var t := s.(view := w);
    assert last in page && Selected(last, v.source, v.cursor);
    if Complete(t) {
      forall e | e in s.store && UpTo(v, e) ensures e in Shown(v) {
        assert UpTo(w, e);
        assert e in page ==> Selected(e, v.source, v.cursor);
      }
      forall e | e in s.store ensures !Overtaken(v, page, e) {
        if Overtaken(v, page, e) { assert UpTo(w, e); }
      }
    }
    if Complete(s) && !exists e :: e in s.store && Overtaken(v, page, e) {
      forall e | e in s.store && UpTo(w, e) ensures e in Shown(w) {
        assert !Overtaken(v, page, e);
        assert UpTo(v, e) ==> e in Shown(v);
      }
    }
  }

  lemma ReceiveStep(s: System)
    requires Inv(s) && s.view.fetch.Answered?
    ensures Complete(Apply(s, Receive)) <==> Complete(s) && !GoesPast(s)
  {
    var page := s.view.fetch.page;
    ReceiveAppends(s.view, page);
    ReceiveFields(s.view, page);
    if page != [] {
      ReceiveLoses(s, ReceivePage(s.view, page), page);
    } else {
      assert Shown(s.view) + page == Shown(s.view);
    }
  }

  // Nothing but an insert and a received answer makes what is shown incomplete, and only a reset
  // makes it complete again.
  lemma QuietForShown(s: System, a: Action)
    requires Inv(s) && Enabled(s, a) && !a.Insert? && !a.Receive?
    ensures Complete(Apply(s, a)) <==> a.Clear? || Complete(s)
  {
    if a.DripTimer? { DripKeepsShown(s.view); }
  }

  // ---------------------------------------------------------------------
  // What makes an answer go past an entry
  // ---------------------------------------------------------------------

  // A cursor, of the view or of a request, has a selected entry at or before it.
  ghost predicate Anchored(s: System) {
    && (s.view.cursor.Some? ==> Reaches(s, s.view.cursor.value))
    && (!s.view.fetch.NotFetching? && s.view.fetch.after.Some? ==> Reaches(s, s.view.fetch.after.value))
  }

  ghost predicate Reaches(s: System, time: int) {
    exists e :: e in s.store && Selected(e, s.view.source, None) && e.timestamp <= time
  }

  lemma AnchoredStep(s: System, a: Action)
    requires Inv(s) && Anchored(s) && Enabled(s, a)
    ensures Anchored(Apply(s, a))
  {
    var t := Apply(s, a);
    assert forall x | x in s.store :: x in t.store;
    forall time | Reaches(s, time) && t.view.source == s.view.source ensures Reaches(t, time) {
      var e :| e in s.store && Selected(e, s.view.source, None) && e.timestamp <= time;
      assert e in t.store;
    }
    SourceStays(s, a);
    if a.Receive? {
      ReceiveFields(s.view, s.view.fetch.page);
      if s.view.fetch.page != [] {
        var last := s.view.fetch.page[|s.view.fetch.page| - 1];
        assert last in s.view.fetch.page;
        assert Reaches(t, last.timestamp);
      }
    }
  }

  lemma SourceStays(s: System, a: Action)
    ensures Apply(s, a).view.source == s.view.source
  {
  }

  lemma AnswerGoesPast(s: System, page: seq<Entry>)
    requires Inv(s) && Anchored(s) && Enabled(s, Answer(page)) && page != []
    ensures GoesPast(Apply(s, Answer(page)))
            <==> CutBetweenTies(s.store, s.view, s.view.fetch.after, page) || s.view.fetch.after != s.view.cursor
  {
    var v, t := s.view, Apply(s, Answer(page));
    var last := page[|page| - 1];
    assert last in page;
    if v.fetch.after != v.cursor {
      var e :| e in s.store && Selected(e, v.source, None) && e.timestamp <= v.fetch.after.value;
      assert Overtaken(t.view, page, e);
    } else {
      GapInAnswer(s.store, t.view, PageSize(LIMIT), page);
    }
  }

  lemma InsertGoesPast(s: System, e: Entry)
    requires Inv(s) && Enabled(s, Insert(e)) && PendingPage(s.view)
    ensures GoesPast(Apply(s, Insert(e)))
            <==> GoesPast(s)
                 || (Selected(e, s.view.source, s.view.cursor)
                     && e.timestamp <= s.view.fetch.page[|s.view.fetch.page| - 1].timestamp)
  {
    var t, page := Apply(s, Insert(e)), s.view.fetch.page;
    assert t.store[|s.store|] == e && e in t.store;
    assert forall x | x in s.store :: x in t.store;
    assert forall x | x in t.store :: x == e || x in s.store;
    assert e !in page;
    if GoesPast(s) {
      var x :| x in s.store && Overtaken(s.view, page, x);
      assert x in t.store && Overtaken(t.view, page, x);
    }
    if Selected(e, s.view.source, s.view.cursor) && e.timestamp <= page[|page| - 1].timestamp {
      assert Overtaken(t.view, page, e);
    }
  }

  lemma ClearGoesPast(s: System)
    requires Inv(s) && Anchored(s) && PendingPage(s.view)
    ensures GoesPast(Apply(s, Clear)) <==> GoesPast(s) || s.view.fetch.after.Some?
  {
    var v, t, page := s.view, Apply(s, Clear), s.view.fetch.page;
    var last := page[|page| - 1];
    assert last in page;
    if GoesPast(s) {
      var x :| x in s.store && Overtaken(v, page, x);
      assert Overtaken(t.view, page, x);
    }
    if v.fetch.after.Some? {
      var e :| e in s.store && Selected(e, v.source, None) && e.timestamp <= v.fetch.after.value;
      assert Overtaken(t.view, page, e);
    }
  }

  lemma DoubtfulStep(s0: System, trace: seq<Action>, m: nat)
    requires |trace| == m + 1 && Follows(s0, trace)
    requires Inv(Exec(s0, trace[..m])) && Anchored(Exec(s0, trace[..m]))
    requires Doubtful(s0, trace[..m]) <==> GoesPast(Exec(s0, trace[..m]))
    ensures Doubtful(s0, trace) <==> GoesPast(Exec(s0, trace))
  {
    var s := Exec(s0, trace[..m]);
    match trace[m] {
      case Answer(page) => if page != [] { AnswerGoesPast(s, page); }
      case Insert(e) => if PendingPage(s.view) { InsertGoesPast(s, e); }
      case Clear => if PendingPage(s.view) { ClearGoesPast(s); }
      case DripTimer => DripGoesPast(s);
      case Receive => ReceiveFields(s.view, s.view.fetch.page);
      case _ =>
    }
  }

  lemma DripGoesPast(s: System)
    ensures GoesPast(Apply(s, DripTimer)) <==> GoesPast(s)
  {
    var t := Apply(s, DripTimer);
    assert t.view.fetch == s.view.fetch && t.view.cursor == s.view.cursor && t.view.source == s.view.source;
    if PendingPage(s.view) {
      assert forall e :: Overtaken(t.view, t.view.fetch.page, e) <==> Overtaken(s.view, s.view.fetch.page, e);
    }
  }

  // A pending answer goes past a stored entry exactly when one of the events named above happened.
  lemma {:induction false} DoubtfulGoesPast(s0: System, trace: seq<Action>)
    requires Follows(s0, trace) && Inv(s0) && Anchored(s0) && s0.view.fetch.NotFetching?
    ensures Inv(Exec(s0, trace)) && Anchored(Exec(s0, trace))
    ensures Doubtful(s0, trace) <==> GoesPast(Exec(s0, trace))
    decreases |trace|
  {
    if trace != [] {
      var m := |trace| - 1;
      DoubtfulGoesPast(s0, trace[..m]);
      StepKeepsInv(Exec(s0, trace[..m]), trace[m]);
      AnchoredStep(Exec(s0, trace[..m]), trace[m]);
      DoubtfulStep(s0, trace, m);
    }
  }

  lemma LostStep(s0: System, trace: seq<Action>, m: nat)
    requires |trace| == m + 1 && Follows(s0, trace) && Inv(Exec(s0, trace[..m]))
    requires Doubtful(s0, trace[..m]) <==> GoesPast(Exec(s0, trace[..m]))
    requires Complete(Exec(s0, trace[..m])) <==> !Lost(s0, trace[..m])
    ensures Complete(Exec(s0, trace)) <==> !Lost(s0, trace)
  {
    var s := Exec(s0, trace[..m]);
    match trace[m] {
      case Insert(e) => InsertLoses(s, e);
      case Receive => ReceiveStep(s);
      case _ => QuietForShown(s, trace[m]);
    }
  }

  lemma {:induction false} CompleteIffNotLost(s0: System, trace: seq<Action>)
    requires Follows(s0, trace) && Inv(s0) && Anchored(s0) && Complete(s0) && s0.view.fetch.NotFetching?
    ensures Inv(Exec(s0, trace)) && (Complete(Exec(s0, trace)) <==> !Lost(s0, trace))
    decreases |trace|
  {
    DoubtfulGoesPast(s0, trace);
    if trace != [] {
      var m := |trace| - 1;
      CompleteIffNotLost(s0, trace[..m]);
      DoubtfulGoesPast(s0, trace[..m]);
      LostStep(s0, trace, m);
    }
  }

  // In every run, with any inserts and ties, what is shown is as a set exactly the stored selection
  // up to the cursor if and only if, since the last reset, no entry was stored behind the cursor and
  // no doubtful answer was received; and by the invariant it is sorted and without repetition.  A
  // loss is not made good before the next reset.
  lemma CompleteUnlessLost(source: Option<nat>, immediate: bool, trace: seq<Action>)
    requires Follows(Opened(source, immediate), trace)
    ensures var s := Exec(Opened(source, immediate), trace);
            (forall e :: e in Shown(s.view) <==> e in s.store && UpTo(s.view, e))
            <==> !Lost(Opened(source, immediate), trace)
  {
    CompleteIffNotLost(Opened(source, immediate), trace);
    ShownIsUpTo(Exec(Opened(source, immediate), trace));
  }

  lemma ShownIsUpTo(s: System)
    requires Inv(s)
    ensures forall e | e in Shown(s.view) :: e in s.store && UpTo(s.view, e)
    ensures Complete(s) <==> forall e :: e in Shown(s.view) <==> e in s.store && UpTo(s.view, e)
  {
  }

  // Of the entries stored when it is computed, an answer to a request with the current cursor goes
  // past one only when it is full and cut between ties.
  lemma GapInAnswer(store: seq<Entry>, v: View, n: int, page: seq<Entry>)
    requires IsPage(store, v.source, v.cursor, n, page) && page != []
    ensures (exists e :: e in store && Overtaken(v, page, e))
            <==> |page| == n && exists e :: e in store && Selected(e, v.source, v.cursor)
                                            && e.timestamp == page[|page| - 1].timestamp && e !in page
  {
    var last := page[|page| - 1];
    assert last in page;
    forall e | e in store && Overtaken(v, page, e) ensures |page| == n && e.timestamp == last.timestamp {}
    if e :| e in store && Selected(e, v.source, v.cursor) && e.timestamp == last.timestamp && e !in page {
      assert Overtaken(v, page, e);
    }
  }

  // ---------------------------------------------------------------------
  // A run that loses an entry
  // ---------------------------------------------------------------------

  // n lines stored as one batch, under one timestamp.
  function Batch(n: nat): seq<Entry> {
    seq(n, (i: nat) => Entry(i, 5, 0, ""))
  }

  function Inserts(n: nat): seq<Action> {
    if n == 0 then [] else Inserts(n - 1) + [Insert(Entry(n - 1, 5, 0, ""))]
  }

  lemma Then(s0: System, trace: seq<Action>, s: System, a: Action)
    requires Follows(s0, trace) && s == Exec(s0, trace) && Enabled(s, a)
    ensures Follows(s0, trace + [a]) && Exec(s0, trace + [a]) == Apply(s, a)
  {
    assert (trace + [a])[..|trace|] == trace;
  }

  lemma {:induction false} InsertsRun(n: nat)
    ensures var s0 := Opened(None, true);
            Follows(s0, Inserts(n)) && Exec(s0, Inserts(n)) == System(Batch(n), s0.view)
    decreases n
  {
    if n > 0 {
      InsertsRun(n - 1);
      var s0 := Opened(None, true);
      Then(s0, Inserts(n - 1), System(Batch(n - 1), s0.view), Insert(Entry(n - 1, 5, 0, "")));
      assert Batch(n) == Batch(n - 1) + [Entry(n - 1, 5, 0, "")];
    }
  }

  lemma FirstPage()
    ensures IsPage(Batch(201), None, None, 200, Batch(200))
  {
    assert forall i | 0 <= i < 200 :: Batch(200)[i] == Batch(201)[i];
    forall e | e in Batch(201) && e !in Batch(200) ensures e.timestamp == 5 {}
  }

  // One poll: the answer is computed and arrives before anything else happens.
  function Polled(s: System, page: seq<Entry>): System {
    Apply(Apply(Apply(s, BeginFetch), Answer(page)), Receive)
  }

  lemma PolledFields(s: System, page: seq<Entry>)
    requires s.view.fetch.NotFetching? && (s.view.firstBatch || s.view.immediate ==> s.view.buffer == [])
    ensures var t := Polled(s, page);
            && t.store == s.store && t.view.source == s.view.source && t.view.fetch == NotFetching
            && Shown(t.view) == Shown(s.view) + page
            && (page != [] ==> t.view.cursor == Some(page[|page| - 1].timestamp))
  {
    var v := s.view.(fetch := Answered(s.view.cursor, page));
    ReceiveAppends(v, page);
    assert Polled(s, page) == s.(view := ReceivePage(v, page));
  }

  // Poll as three steps of a run.
  lemma PollRun(s0: System, trace: seq<Action>, s: System, page: seq<Entry>) returns (trace': seq<Action>)
    requires Follows(s0, trace) && s == Exec(s0, trace) && s.view.fetch.NotFetching?
    requires IsPage(s.store, s.view.source, s.view.cursor, PageSize(LIMIT), page)
    ensures Follows(s0, trace') && Exec(s0, trace') == Polled(s, page)
  {
    var s1 := Apply(s, BeginFetch);
    var s2 := Apply(s1, Answer(page));
    Then(s0, trace, s, BeginFetch);
    Then(s0, trace + [BeginFetch], s1, Answer(page));
    Then(s0, trace + [BeginFetch] + [Answer(page)], s2, Receive);
    trace' := trace + [BeginFetch] + [Answer(page)] + [Receive];
  }

  // Two lines of one second, the second stored between the computing and the arrival of the first
  // answer: the cursor is not set before, and no page holds more than one entry.
  lemma StoredBeforeArrival()
    ensures var a, b := Entry(0, 5, 0, ""), Entry(1, 5, 0, "");
            var trace := [Insert(a)] + [BeginFetch] + [Answer([a])] + [Insert(b)] + [Receive];
            var s := Exec(Opened(None, true), trace);
            && Follows(Opened(None, true), trace)
            && s.store == [a, b] && Shown(s.view) == [a] && s.view.cursor == Some(5)
  {
    var a, b := Entry(0, 5, 0, ""), Entry(1, 5, 0, "");
    var s0 := Opened(None, true);
    var v0 := s0.view;
    Then(s0, [], s0, Insert(a));
    assert [] + [Insert(a)] == [Insert(a)];
    var t := [Insert(a)];
    Then(s0, t, System([a], v0), BeginFetch);
    assert IsPage([a], None, None, 200, [a]);
    Then(s0, t + [BeginFetch], System([a], v0.(fetch := Requested(None))), Answer([a]));
    AnswerTooLate(s0, t + [BeginFetch] + [Answer([a])], System([a], v0.(fetch := Answered(None, [a]))), a, b);
  }

  lemma ReceiveOne(store: seq<Entry>, a: Entry)
    ensures Apply(System(store, View(None, true, None, [], [], true, false, Answered(None, [a]))), Receive)
            == System(store, View(None, true, Some(a.timestamp), [a], [], false, false, NotFetching))
  {
  }

  lemma AnswerTooLate(s0: System, t: seq<Action>, s: System, a: Entry, b: Entry)
    requires Follows(s0, t) && s == Exec(s0, t) && s.store == [a] && a.id != b.id
    requires s.view == View(None, true, None, [], [], true, false, Answered(None, [a]))
    ensures Follows(s0, t + [Insert(b)] + [Receive])
    ensures Exec(s0, t + [Insert(b)] + [Receive])
            == System([a, b], View(None, true, Some(a.timestamp), [a], [], false, false, NotFetching))
  {
    assert [a] + [b] == [a, b];
    var s1 := System([a, b], s.view);
    assert Apply(s, Insert(b)) == s1;
    Then(s0, t, s, Insert(b));
    Then(s0, t + [Insert(b)], s1, Receive);
    ReceiveOne([a, b], a);
  }

  // The view is reset while a request with a cursor is out: the line before the cursor is not shown
  // again, although nothing was stored behind the cursor and no page was cut.
  lemma ClearedDuringFetch() returns (trace: seq<Action>)
    ensures Follows(Opened(None, true), trace)
    ensures var s := Exec(Opened(None, true), trace);
            s.store == [Entry(0, 5, 0, ""), Entry(1, 6, 0, "")] && Shown(s.view) == [Entry(1, 6, 0, "")]
            && s.view.cursor == Some(6)
  {
    var a, b := Entry(0, 5, 0, ""), Entry(1, 6, 0, "");
    var s0 := Opened(None, true);
    var t := FirstAnswer(a);
    var s := System([a], View(None, true, Some(5), [a], [], false, false, NotFetching));
    Then(s0, t, s, Insert(b));
    assert [a] + [b] == [a, b];
    trace := ClearAndReceive(s0, t + [Insert(b)], System([a, b], s.view), a, b);
  }

  // One entry is stored and fetched.
  lemma FirstAnswer(a: Entry) returns (t: seq<Action>)
    ensures Follows(Opened(None, true), t)
    ensures Exec(Opened(None, true), t)
            == System([a], View(None, true, Some(a.timestamp), [a], [], false, false, NotFetching))
  {
    var s0 := Opened(None, true);
    var v0 := s0.view;
    Then(s0, [], s0, Insert(a));
    assert [] + [a] == [a];
    t := [] + [Insert(a)];
    Then(s0, t, System([a], v0), BeginFetch);
    t := t + [BeginFetch];
    assert IsPage([a], None, None, 200, [a]);
    Then(s0, t, System([a], v0.(fetch := Requested(None))), Answer([a]));
    t := t + [Answer([a])];
    Then(s0, t, System([a], v0.(fetch := Answered(None, [a]))), Receive);
    t := t + [Receive];
    ReceiveOne([a], a);
  }

  lemma ClearAndReceive(s0: System, t: seq<Action>, s: System, a: Entry, b: Entry) returns (trace: seq<Action>)
    requires Follows(s0, t) && s == Exec(s0, t) && s.store == [a, b] && a.timestamp == 5 && b.timestamp == 6
    requires s.view == View(None, true, Some(5), [a], [], false, false, NotFetching)
    ensures Follows(s0, trace)
    ensures var s' := Exec(s0, trace); s'.store == [a, b] && Shown(s'.view) == [b] && s'.view.cursor == Some(6)
  {
    Then(s0, t, s, BeginFetch);
    var s1 := s.(view := s.view.(fetch := Requested(Some(5))));
    Then(s0, t + [BeginFetch], s1, Clear);
    var v2 := View(None, true, None, [], [], true, false, Requested(Some(5)));
    assert IsPage([a, b], None, Some(5), 200, [b]);
    Then(s0, t + [BeginFetch] + [Clear], System([a, b], v2), Answer([b]));
    var v3 := v2.(fetch := Answered(Some(5), [b]));
    Then(s0, t + [BeginFetch] + [Clear] + [Answer([b])], System([a, b], v3), Receive);
    trace := t + [BeginFetch] + [Clear] + [Answer([b])] + [Receive];
  }

  // 201 lines of one batch: the first answer shows 200 of them, and no later query returns the last.
  lemma BatchAcrossPages() returns (trace: seq<Action>)
    ensures Follows(Opened(None, true), trace)
    ensures var s := Exec(Opened(None, true), trace);
            && s.store == Batch(201) && Shown(s.view) == Batch(200) && s.view.cursor == Some(5)
            && Entry(200, 5, 0, "") in s.store && Entry(200, 5, 0, "") !in Shown(s.view)
            && forall n: int, page | IsPage(s.store, None, s.view.cursor, n, page) :: page == []
  {
    InsertsRun(201);
    FirstPage();
    var s := System(Batch(201), Opened(None, true).view);
    trace := PollRun(Opened(None, true), Inserts(201), s, Batch(200));
    PolledFields(s, Batch(200));
    assert Shown(s.view) + Batch(200) == Batch(200);
    BatchTimes(200);
    BatchTimes(201);
    NothingAfter(Batch(201), 5);
  }

  lemma BatchTimes(n: nat)
    requires n > 0
    ensures Batch(n)[n - 1] == Entry(n - 1, 5, 0, "") && Entry(n - 1, 5, 0, "") in Batch(n)
    ensures forall e | e in Batch(n) :: e.timestamp == 5 && e.id < n
  {
    assert Batch(n)[n - 1] in Batch(n);
  }

  lemma NothingAfter(store: seq<Entry>, cursor: int)
    requires forall e | e in store :: e.timestamp <= cursor
    ensures forall n: int, page | IsPage(store, None, Some(cursor), n, page) :: page == []
  {
    forall n: int, page | IsPage(store, None, Some(cursor), n, page) ensures page == [] {
      if page != [] { HasMember(page); }
    }
  }

  lemma HasMember(es: seq<Entry>)
    requires es != []
    ensures exists e :: e in es
  {
    assert es[0] in es;
  }

  // ---------------------------------------------------------------------
  // How much a few polls show
  // ---------------------------------------------------------------------

  function All(s: System): seq<Entry> {
    Window(s.store, s.view.source, None, None)
  }

  function Min(a: nat, b: nat): nat {
    if a < b then a else b
  }

  // Exactly the stored prefix is shown and no request is out.
  ghost predicate Settled(s: System) {
    Inv(s) && Exact(s) && CursorStored(s) && Increasing(s.store) && s.view.fetch.NotFetching?
  }

  lemma ShownIsPrefix(s: System)
    requires Settled(s)
    ensures Shown(s.view) <= All(s)
  {
    if s.view.cursor.Some? { WindowSplit(s.store, s.view.source, s.view.cursor.value, None); }
  }

  lemma PollSettles(s: System, page: seq<Entry>)
    requires Settled(s) && IsPage(s.store, s.view.source, s.view.cursor, PageSize(LIMIT), page)
    ensures Settled(Polled(s, page))
  {
    var s1 := Apply(s, BeginFetch);
    StepKeepsInv(s, BeginFetch);
    StepKeepsExact(s, BeginFetch);
    var s2 := Apply(s1, Answer(page));
    AnswerSettles(s1, s2, page);
    StepKeepsInv(s2, Receive);
    StepKeepsExact(s2, Receive);
    PolledFields(s, page);
  }

  lemma AnswerSettles(s1: System, s2: System, page: seq<Entry>)
    requires Inv(s1) && Exact(s1) && CursorStored(s1) && Increasing(s1.store)
    requires Enabled(s1, Answer(page)) && s2 == Apply(s1, Answer(page))
    ensures Inv(s2) && Exact(s2) && CursorStored(s2) && s2.store == s1.store
    ensures s2.view == s1.view.(fetch := Answered(s1.view.fetch.after, page))
  {
    StepKeepsInv(s1, Answer(page));
    StepKeepsExact(s1, Answer(page));
  }

  lemma PrefixOfLength(shown: seq<Entry>, all: seq<Entry>, n: nat)
    requires shown <= all && |shown| == Min(n, |all|)
    ensures shown == all[..Min(n, |all|)]
  {
  }

  // A poll shows the next 200 entries, or all that are left.
  lemma PollShowsMore(s: System, page: seq<Entry>)
    requires Settled(s) && IsPage(s.store, s.view.source, s.view.cursor, PageSize(LIMIT), page)
    ensures Settled(Polled(s, page)) && All(Polled(s, page)) == All(s)
    ensures Shown(Polled(s, page).view) == All(s)[..Min(|Shown(s.view)| + 200, |All(s)|)]
  {
    var t := Polled(s, page);
    PollSettles(s, page);
    PolledFields(s, page);
    ShownIsPrefix(t);
    if |page| < 200 {
      ShortAnswerCompletes(s.store, s.view.source, Shown(s.view), s.view.cursor, 200, page);
    }
    PrefixOfLength(Shown(t.view), All(s), |Shown(s.view)| + 200);
  }

  // A view that is opened on a finished deployment polls when it is opened and once more when it
  // learns that the deployment is not live, and then stops: of more than 400 lines these two polls
  // show 400.
  lemma TwoPollsShow(store: seq<Entry>, source: Option<nat>, immediate: bool, p1: seq<Entry>, p2: seq<Entry>)
    requires Increasing(store) && DistinctIds(store)
    requires IsPage(store, source, None, PageSize(LIMIT), p1)
    requires var s1 := Polled(System(store, Opened(source, immediate).view), p1);
             IsPage(store, source, s1.view.cursor, PageSize(LIMIT), p2)
    ensures var s0 := System(store, Opened(source, immediate).view);
            Shown(Polled(Polled(s0, p1), p2).view) == All(s0)[..Min(400, |All(s0)|)]
  {
    var s0 := System(store, Opened(source, immediate).view);
    assert Shown(s0.view) == [];
    assert Settled(s0);
    var s1 := Polled(s0, p1);
    PollShowsMore(s0, p1);
    PolledFields(s0, p1);
    PollShowsMore(s1, p2);
  }

  // ---------------------------------------------------------------------
  // Equal timestamps: when paging loses entries
  // ---------------------------------------------------------------------

  // The entries of a fixed ascending list from index i on whose timestamp is past the cursor.
  function SkipTies(es: seq<Entry>, i: nat, cursor: int): (j: nat)
    requires i <= |es|
    ensures i <= j <= |es|
    ensures j < |es| ==> es[j].timestamp > cursor
    ensures forall k :: i <= k < j ==> es[k].timestamp <= cursor
    decreases |es| - i
  {
    if i < |es| && es[i].timestamp <= cursor then SkipTies(es, i + 1, cursor) else i
  }

  function PageFrom(es: seq<Entry>, n: nat, i: nat): seq<Entry>
    requires i <= |es|
  {
    if |es| - i <= n then es[i..] else es[i..i + n]
  }

  // The pages of n entries a poller collects from a fixed ascending list, starting at index i.
  function Paged(es: seq<Entry>, n: nat, i: nat): seq<Entry>
    requires n > 0 && i <= |es|
    decreases |es| - i
  {
    if |es| - i <= n then PageFrom(es, n, i)
    else PageFrom(es, n, i) + Paged(es, n, SkipTies(es, i + n, es[i + n - 1].timestamp))
  }

  // No page ends between two entries with the same timestamp.
  predicate CleanCuts(es: seq<Entry>, n: nat, i: nat)
    requires n > 0
    decreases |es| - i
  {
    i + n < |es| ==> es[i + n - 1].timestamp < es[i + n].timestamp && CleanCuts(es, n, i + n)
  }

  lemma {:induction false} PagedIsShorter(es: seq<Entry>, n: nat, i: nat)
    requires n > 0 && i <= |es|
    ensures |Paged(es, n, i)| <= |es| - i
    decreases |es| - i
  {
    if |es| - i > n {
      PagedIsShorter(es, n, SkipTies(es, i + n, es[i + n - 1].timestamp));
    }
  }

  lemma PagedUnfolds(es: seq<Entry>, n: nat, i: nat)
    requires n > 0 && i + n < |es|
    ensures es[i + n - 1].timestamp < es[i + n].timestamp ==>
              (Paged(es, n, i) == es[i..] <==> Paged(es, n, i + n) == es[i + n..])
    ensures es[i + n - 1].timestamp >= es[i + n].timestamp ==> Paged(es, n, i) != es[i..]
  {
    var j := SkipTies(es, i + n, es[i + n - 1].timestamp);
    var rest, whole := Paged(es, n, j), es[i..];
    PagedIsShorter(es, n, j);
    assert Paged(es, n, i) == es[i..i + n] + rest;
    assert whole == es[i..i + n] + es[i + n..];
    assert rest == (es[i..i + n] + rest)[n..];
    assert es[i + n..] == whole[n..];
  }

  ghost predicate Lossless(es: seq<Entry>, n: nat, i: nat)
    requires n > 0
  {
    i <= |es| && Paged(es, n, i) == es[i..]
  }

  ghost predicate RecursLikeCuts(es: seq<Entry>, n: nat, k: nat, here: bool, next: bool)
    requires n > 0
  {
    here == (k + n < |es| ==> es[k + n - 1].timestamp < es[k + n].timestamp && next)
  }

  // A predicate that recurs the way the cuts do is CleanCuts.
  lemma {:induction false} CutsInduction(es: seq<Entry>, n: nat, i: nat, holds: nat -> bool)
    requires n > 0 && i <= |es|
    requires forall k: nat | k <= |es| :: RecursLikeCuts(es, n, k, holds(k), holds(k + n))
    ensures holds(i) <==> CleanCuts(es, n, i)
    decreases |es| - i
  {
    assert RecursLikeCuts(es, n, i, holds(i), holds(i + n));
    if i + n < |es| {
      CutsInduction(es, n, i + n, holds);
    }
  }

  lemma LosslessRecurs(es: seq<Entry>, n: nat, k: nat)
    requires n > 0 && k <= |es| && Sorted(es)
    ensures RecursLikeCuts(es, n, k, Lossless(es, n, k), Lossless(es, n, k + n))
  {
    if k + n < |es| { PagedUnfolds(es, n, k); }
  }

  // The pages put together give the whole list exactly when every page boundary falls between
  // different timestamps. A batch of lines is stored with one timestamp, so it can fail.
  lemma PagingIsLossless(es: seq<Entry>, n: nat)
    requires n > 0 && Sorted(es)
    ensures Paged(es, n, 0) == es <==> CleanCuts(es, n, 0)
  {
    var holds := (k: nat) => Lossless(es, n, k);
    forall k: nat | k <= |es| ensures RecursLikeCuts(es, n, k, holds(k), holds(k + n)) {
      LosslessRecurs(es, n, k);
    }
    CutsInduction(es, n, 0, holds);
    assert es[0..] == es;
  }

  lemma SliceMembers(es: seq<Entry>, i: nat, j: nat)
    requires i <= j <= |es| && Sorted(es) && DistinctIds(es)
    ensures Sorted(es[i..j]) && DistinctIds(es[i..j])
    ensures forall k | i <= k < j :: es[k] in es[i..j]
    ensures forall p | p in es[i..j] :: exists k | i <= k < j :: es[k] == p
  {
    var page := es[i..j];
    forall p | p in page ensures exists k | i <= k < j :: es[k] == p {
      var x :| 0 <= x < |page| && page[x] == p;
      assert es[i + x] == p;
    }
    forall k | i <= k < j ensures es[k] in page { assert page[k - i] == es[k]; }
  }

  // The poller's list is what the query selects without a cursor, in the order of the answers.
  ghost predicate IsSelection(es: seq<Entry>, store: seq<Entry>, source: Option<nat>) {
    Sorted(es) && DistinctIds(es) && forall e :: e in es <==> e in store && Selected(e, source, None)
  }

  lemma SliceIsPage(es: seq<Entry>, store: seq<Entry>, source: Option<nat>, n: nat, after: Option<int>, i: nat)
    requires IsSelection(es, store, source) && n > 0 && i <= |es|
    requires forall k :: 0 <= k < |es| ==> (Selected(es[k], source, after) <==> i <= k)
    ensures IsPage(store, source, after, n, PageFrom(es, n, i))
  {
    var page := PageFrom(es, n, i);
    var j := i + |page|;
    assert page == es[i..j];
    SliceMembers(es, i, j);
    forall e | e in store && Selected(e, source, after) && e !in page
      ensures |page| == n
      ensures forall p | p in page :: p.timestamp <= e.timestamp
    {
      assert e in es;
      var x :| 0 <= x < |es| && es[x] == e;
      assert j <= x;
      forall p | p in page ensures p.timestamp <= e.timestamp {
        var k :| i <= k < j && es[k] == p;
      }
    }
    forall p | p in page ensures p in store && Selected(p, source, after) {
      var k :| i <= k < j && es[k] == p;
      assert p in es;
    }
  }

  // Where the poller's next page starts.
  function StartAfter(es: seq<Entry>, after: Option<int>): (i: nat)
    ensures i <= |es|
  {
    if after.None? then 0 else SkipTies(es, 0, after.value)
  }

  // Each page of that poller is an answer of the query, for any source and with or without a cursor.
  lemma NextPageIsPage(es: seq<Entry>, store: seq<Entry>, source: Option<nat>, n: nat, after: Option<int>)
    requires IsSelection(es, store, source) && n > 0
    ensures IsPage(store, source, after, n, PageFrom(es, n, StartAfter(es, after)))
  {
    var i := StartAfter(es, after);
    forall k | 0 <= k < |es| ensures Selected(es[k], source, after) <==> i <= k {
      assert es[k] in es;
    }
    SliceIsPage(es, store, source, n, after, i);
  }
}
