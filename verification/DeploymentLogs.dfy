/** The browser hook as an object: its refs and state, and the run that led to them. */
module DeploymentLogs {
  import opened Wrappers
  import opened LogViewer
  import LogLoss

  class LogsHook {
    const source: Option<nat>
    const immediate: bool
    var logs: seq<Entry>
    var buffer: seq<Entry>
    var cursor: Option<int>
    var isFirstBatch: bool
    var isDripping: bool
    var fetch: Fetch

    // The log table of the deployment and everything that happened so far.
    ghost var store: seq<Entry>
    ghost var trace: seq<Action>

    function Current(): View
      reads this
    {
      View(source, immediate, cursor, logs, buffer, isFirstBatch, isDripping, fetch)
    }

    ghost function Snapshot(): System
      reads this
    {
      System(store, Current())
    }

    ghost predicate Valid()
      reads this
    {
      Follows(Opened(source, immediate), trace) && Snapshot() == Exec(Opened(source, immediate), trace)
    }

    // What is shown is sorted, without repetition and stored; a timer is pending while entries wait;
    // it is complete up to the cursor exactly when nothing was lost since the last reset.
    ghost predicate Sound()
      reads this
    {
      && Inv(Snapshot())
      && (LogLoss.Complete(Snapshot()) <==> !LogLoss.Lost(Opened(source, immediate), trace))
    }

    // The step just taken was a.
    twostate predicate Took(a: Action)
      reads this
    {
      Valid() && trace == old(trace) + [a]
    }

    lemma ValidIsSound()
      requires Valid()
      ensures Sound()
    {
      LogLoss.CompleteIffNotLost(Opened(source, immediate), trace);
    }

    // With increasing timestamps and no reset during a fetch, exactly the stored prefix is shown.
    lemma ValidIsExact()
      requires Valid() && Increasing(store) && Calm(Opened(source, immediate), trace)
      ensures Shown(Current()) == UpToCursor(Snapshot())
    {
      ShownIsStoredPrefix(source, immediate, trace);
    }

    // The action a, from the valid state s, leads to a valid state.
    lemma Extend(s: System, a: Action)
      requires Follows(Opened(source, immediate), trace) && s == Exec(Opened(source, immediate), trace) && Enabled(s, a)
      ensures Follows(Opened(source, immediate), trace + [a])
      ensures Exec(Opened(source, immediate), trace + [a]) == Apply(s, a)
    {
      LogLoss.Then(Opened(source, immediate), trace, s, a);
    }

    constructor (source: Option<nat>, immediate: bool)
      ensures Valid() && trace == [] && Shown(Current()) == []
    {
      this.source, this.immediate := source, immediate;
      logs, buffer, cursor := [], [], None;
      isFirstBatch, isDripping, fetch := true, false, NotFetching;
      store, trace := [], [];
    }

    // An entry is stored.
    ghost method Store(e: Entry)
      requires Valid() && forall x | x in store :: x.id != e.id
      modifies this`store, this`trace
      ensures Took(Insert(e)) && store == old(store) + [e]
    {
      Extend(Snapshot(), Insert(e));
      store := store + [e];
      trace := trace + [Insert(e)];
    }

    // The body of the drip callback.
    method Drip()
      modifies this`logs, this`buffer, this`isDripping
      ensures Current() == LogViewer.Drip(old(Current()))
    {
      if |buffer| == 0 {
        isDripping := false;
        return;
      }
      var next := buffer[0];
      buffer := buffer[1..];
      logs := logs + [next];
      isDripping := true;
    }

    method StartDrip()
      modifies this`logs, this`buffer, this`isDripping
      ensures Current() == LogViewer.StartDrip(old(Current()))
    {
      if isDripping { return; }
      isDripping := true;
      Drip();
    }

    method EnqueueLogs(incoming: seq<Entry>, now: bool)
      modifies this`logs, this`buffer, this`isDripping
      ensures Current() == LogViewer.EnqueueLogs(old(Current()), incoming, now)
    {
      if |incoming| == 0 { return; }
      if now || immediate {
        logs := logs + incoming;
        return;
      }
      buffer := buffer + incoming;
      StartDrip();
    }

    // The drip timer fires: one entry moves to the screen, in order, and the timer goes on while
    // there was one to move; nothing is gained or lost.
    method OnTimer()
      requires Valid() && isDripping
      modifies this
      ensures Took(DripTimer) && Sound()
      ensures Shown(Current()) == old(Shown(Current())) && store == old(store)
      ensures logs == old(logs) + old(if buffer == [] then [] else buffer[..1])
      ensures isDripping <==> old(buffer) != []
    {
      Extend(Snapshot(), DripTimer);
      DripKeepsShown(Current());
      Drip();
      trace := trace + [DripTimer];
      ValidIsSound();
    }

    // fetchLogs up to the request: it goes out with the cursor, and only when none is out.
    method BeginFetch() returns (sent: bool)
      requires Valid()
      modifies this`fetch, this`trace
      ensures Took(Action.BeginFetch) && Sound()
      ensures sent <==> old(fetch) == NotFetching
      ensures fetch == if sent then Requested(cursor) else old(fetch)
    {
      Extend(Snapshot(), Action.BeginFetch);
      sent := fetch.NotFetching?;
      if sent { fetch := Requested(cursor); }
      trace := trace + [Action.BeginFetch];
      ValidIsSound();
    }

    // The server answers the request.
    method OnAnswer(page: seq<Entry>)
      requires Valid() && Enabled(Snapshot(), Answer(page))
      modifies this`fetch, this`trace
      ensures Took(Answer(page)) && Sound()
      ensures fetch == Answered(old(fetch).after, page)
    {
      Extend(Snapshot(), Answer(page));
      fetch := Answered(fetch.after, page);
      trace := trace + [Answer(page)];
      ValidIsSound();
    }

    method TakePage(page: seq<Entry>)
      modifies this`logs, this`buffer, this`isDripping, this`isFirstBatch, this`cursor, this`fetch
      ensures Current() == ReceivePage(old(Current()), page)
      ensures PageTaken(old(Current()), Current(), page)
    {
      ReceiveMeaning(Current(), page);
      if |page| > 0 {
        if isFirstBatch {
          EnqueueLogs(page, true);
          isFirstBatch := false;
        } else {
          EnqueueLogs(page, false);
        }
        cursor := Some(page[|page| - 1].timestamp);
      }
      fetch := NotFetching;
    }

    // fetchLogs from the response on: the page goes behind everything shown, the cursor to its last
    // entry, and the next fetch may begin.
    method Receive()
      requires Valid() && fetch.Answered?
      modifies this
      ensures Took(Action.Receive) && Sound()
      ensures Shown(Current()) == old(Shown(Current())) + old(fetch).page && store == old(store)
      ensures fetch == NotFetching
      ensures cursor == if old(fetch).page == [] then old(cursor)
                        else Some(old(fetch).page[|old(fetch).page| - 1].timestamp)
      ensures PageTaken(old(Current()), Current(), old(fetch).page)
    {
      var page := fetch.page;
      ghost var s, t := Snapshot(), trace + [Action.Receive];
      Extend(s, Action.Receive);
      ReceiveShows(page);
      TakePage(page);
      trace := t;
      ValidIsSound();
    }

    // What is received goes behind everything shown.
    lemma ReceiveShows(page: seq<Entry>)
      requires Valid()
      ensures Shown(ReceivePage(Current(), page)) == Shown(Current()) + page
    {
      ValidIsSound();
      ReceiveAppends(Current(), page);
    }

    // The catch and finally blocks of fetchLogs: nothing shown is affected and a fetch may begin.
    method OnError()
      requires Valid() && fetch != NotFetching
      modifies this`fetch, this`trace
      ensures Took(FailFetch) && Sound()
      ensures fetch == NotFetching
    {
      Extend(Snapshot(), FailFetch);
      fetch := NotFetching;
      trace := trace + [FailFetch];
      ValidIsSound();
    }

    // clear: the next answer that is received starts the view afresh, and nothing counts as lost.
    method Clear()
      requires Valid()
      modifies this
      ensures Took(Action.Clear) && Sound()
      ensures Shown(Current()) == [] && cursor == None && isFirstBatch && !isDripping
      ensures !LogLoss.Lost(Opened(source, immediate), trace)
      ensures fetch == old(fetch) && store == old(store)
    {
      Extend(Snapshot(), Action.Clear);
      logs, buffer, cursor := [], [], None;
      isFirstBatch, isDripping := true, false;
      trace := trace + [Action.Clear];
      ValidIsSound();
    }
  }

  // One poll whose answer arrives before anything else happens: the page is appended, and if it is
  // not full and nothing was lost since the last reset, everything stored is shown.
  method Poll(hook: LogsHook, page: seq<Entry>)
    requires hook.Valid() && hook.fetch == NotFetching
    requires IsPage(hook.store, hook.source, hook.cursor, PageSize(LIMIT), page)
    modifies hook
    ensures hook.Valid() && hook.fetch == NotFetching
    ensures Shown(hook.Current()) == old(Shown(hook.Current())) + page
    ensures old(!LogLoss.Lost(Opened(hook.source, hook.immediate), hook.trace)) && |page| < PageSize(LIMIT) ==>
              forall e | e in hook.store && Selected(e, hook.source, None) :: e in Shown(hook.Current())
  {
    hook.ValidIsSound();
    ghost var before := Shown(hook.Current());
    var _ := hook.BeginFetch();
    hook.OnAnswer(page);
    hook.Receive();
    forall e | e in hook.store && Selected(e, hook.source, None) && |page| < PageSize(LIMIT)
               && old(!LogLoss.Lost(Opened(hook.source, hook.immediate), hook.trace))
      ensures e in Shown(hook.Current())
    {
      if Selected(e, hook.source, old(hook.cursor)) {
        assert e in page;
      } else {
        assert LogLoss.UpTo(old(hook.Current()), e);
        assert e in before;
      }
    }
  }
}
