/** Where every accepted batch of a suite is, at every moment of every run
    (compat/orchestrator.go). */
module SuiteConservation {
  import opened Wrappers
  import opened Suite
  import opened SuiteRuns

  /** How often a batch occurs in a list. */
  function Times(bs: seq<Batch>, b: Batch): nat {
    if bs == [] then 0
    else Times(bs[..|bs| - 1], b) + if bs[|bs| - 1] == b then 1 else 0
  }

  lemma {:induction false} TimesAppend(xs: seq<Batch>, ys: seq<Batch>, b: Batch)
    ensures Times(xs + ys, b) == Times(xs, b) + Times(ys, b)
  {
    if ys == [] {
      assert xs + ys == xs;
    } else {
      var init := ys[..|ys| - 1];
      assert (xs + ys)[..|xs + ys| - 1] == xs + init;
      TimesAppend(xs, init, b);
    }
  }

  lemma TimesSnoc(bs: seq<Batch>, last: Batch, b: Batch)
    ensures Times(bs + [last], b) == Times(bs, b) + if last == b then 1 else 0
  {
    assert (bs + [last])[..|bs|] == bs;
  }

  lemma {:induction false} TimesOfMember(bs: seq<Batch>, b: Batch)
    ensures Times(bs, b) > 0 <==> b in bs
  {
    if bs != [] {
      TimesOfMember(bs[..|bs| - 1], b);
      assert bs == bs[..|bs| - 1] + [bs[|bs| - 1]];
    }
  }

  lemma TimesOfOne(o: Option<Batch>, b: Batch)
    ensures Times(Listed(o), b) == TimesActive(o, b)
  {
    if o.Some? { assert Listed(o)[..0] == []; }
  }

  /** How often a batch is held by reloads in progress. */
  ghost function TimesSaved(saved: map<nat, seq<Batch>>, b: Batch): nat
    decreases |saved|
  {
    if saved == map[] then 0
    else
      var k :| k in saved;
      Times(saved[k], b) + TimesSaved(saved - {k}, b)
  }

  /** Any one reload can be singled out. */
  lemma {:induction false} SavedSplit(saved: map<nat, seq<Batch>>, k: nat, b: Batch)
    requires k in saved
    ensures TimesSaved(saved, b) == Times(saved[k], b) + TimesSaved(saved - {k}, b)
    decreases |saved|
  {
    var c :| c in saved && TimesSaved(saved, b) == Times(saved[c], b) + TimesSaved(saved - {c}, b);
    if c != k {
      SavedSplit(saved - {c}, k, b);
      SavedSplit(saved - {k}, c, b);
      assert saved - {c} - {k} == saved - {k} - {c};
    }
  }

  lemma SavedAdd(saved: map<nat, seq<Batch>>, k: nat, queue: seq<Batch>, b: Batch)
    requires k !in saved
    ensures TimesSaved(saved[k := queue], b) == TimesSaved(saved, b) + Times(queue, b)
  {
    SavedSplit(saved[k := queue], k, b);
    assert saved[k := queue] - {k} == saved;
  }

  function TimesActive(active: Option<Batch>, b: Batch): nat { if active == Some(b) then 1 else 0 }

  /** How often a batch is in the queue, the active slot or the pending buffer. */
  function TimesIn(s: SuiteValue, b: Batch): nat {
    Times(s.queue, b) + TimesActive(s.active, b) + Times(s.pending, b)
  }

  /** How often a batch is in any of the places there are for one. */
  ghost function TimesAnywhere(w: World, b: Batch): nat {
    TimesIn(w.suite, b) + TimesSaved(w.saved, b) + Times(w.flushed, b) + Times(w.retired, b)
  }

  lemma {:induction false} CancelSplitsQueue(c: CancelRequest, name: string, queue: seq<Batch>, b: Batch)
    ensures Times(queue, b) == Times(Uncancelled(c, name, queue), b) + Times(Dropped(c, name, queue), b)
  {
    if queue != [] {
      var init, last := queue[..|queue| - 1], queue[|queue| - 1];
      CancelSplitsQueue(c, name, init, b);
      var kept, gone := Uncancelled(c, name, init), Dropped(c, name, init);
      if Cancels(c, name, last) {
        assert Uncancelled(c, name, queue) == kept && Dropped(c, name, queue) == gone + [last];
        TimesSnoc(gone, last, b);
      } else {
        assert Uncancelled(c, name, queue) == kept + [last] && Dropped(c, name, queue) == gone;
        TimesSnoc(kept, last, b);
      }
    }
  }

  lemma PlaceAddsOne(s: SuiteValue, b: Batch, x: Batch)
    ensures TimesIn(Place(s, b), x) == TimesIn(s, x) + TimesActive(Some(b), x)
  {
    match s.state
    case Ready => TimesSnoc(s.queue, b, x);
    case Building => TimesSnoc(s.pending, b, x);
    case _ => TimesSnoc(s.queue, b, x);
  }

  lemma CancelBalances(s: SuiteValue, c: CancelRequest, name: string, b: Batch)
    ensures var gone := if s.active.Some? && Cancels(c, name, s.active.value) then Listed(s.active) else [];
      TimesIn(s, b) == TimesIn(Cancel(s, c, name), b) + Times(Dropped(c, name, s.queue) + gone, b)
  {
    var gone := if s.active.Some? && Cancels(c, name, s.active.value) then Listed(s.active) else [];
    CancelSplitsQueue(c, name, s.queue, b);
    TimesAppend(Dropped(c, name, s.queue), gone, b);
    TimesOfOne(s.active, b);
  }

  lemma DispatchBalances(s: SuiteValue, b: Batch)
    ensures TimesIn(Dispatch(s), b) == TimesIn(s, b)
  {
    if CanDispatch(s) {
      assert s.queue == Listed(Some(s.queue[0])) + s.queue[1..];
      TimesAppend(Listed(Some(s.queue[0])), s.queue[1..], b);
      TimesOfOne(Some(s.queue[0]), b);
    }
  }

  lemma ReloadBalances(w: World, name: string, e: Event, b: Batch)
    requires e.ReloadBegan? || e.ReloadEnded? || e.ReloadFailed?
    ensures TimesIn(After(w.suite, w.saved, name, e), b) + TimesSaved(SavedAfter(w, e), b)
            + Times(RetiredBy(w, name, e), b) == TimesIn(w.suite, b) + TimesSaved(w.saved, b)
  {
    var r := e.reload;
    if e.ReloadBegan? {
      if r !in w.saved { SavedAdd(w.saved, r, w.suite.queue, b); }
    } else if r in w.saved {
      SavedSplit(w.saved, r, b);
      TimesAppend(w.suite.pending, w.saved[r], b);
    } else {
      assert w.saved - {r} == w.saved;
    }
  }

  /** Every event moves batches between places: what comes in was accepted. */
  lemma EventBalances(w: World, name: string, e: Event, b: Batch)
    ensures TimesIn(After(w.suite, w.saved, name, e), b) + TimesSaved(SavedAfter(w, e), b)
            + Times(FlushedBy(w, e), b) + Times(RetiredBy(w, name, e), b)
            == TimesIn(w.suite, b) + TimesSaved(w.saved, b) + Times(AcceptedBy(w, e), b)
  {
    TimesOfOne(w.suite.active, b);
    match e
    case Submitted(id, refs) =>
      var a := Accepted(w.suite, id, refs);
      TimesOfOne(a, b);
      if a.Some? { PlaceAddsOne(w.suite, a.value, b); }
    case CancelRequested(c) => CancelBalances(w.suite, c, name, b);
    case ReloadBegan(_) => ReloadBalances(w, name, e, b);
    case ReloadEnded(_) => ReloadBalances(w, name, e, b);
    case ReloadFailed(_) => ReloadBalances(w, name, e, b);
    case QueueProcessed => DispatchBalances(w.suite, b);
    case _ =>
  }

  /** Conservation: no run loses or duplicates an accepted batch. */
  lemma {:induction false} BatchesConserved(now: Time, name: string, events: seq<Event>, b: Batch)
    ensures var w := Run(Initial(now), name, events); Times(w.accepted, b) == TimesAnywhere(w, b)
  {
    if events != [] {
      var init, e := events[..|events| - 1], events[|events| - 1];
      var w := Run(Initial(now), name, init);
      BatchesConserved(now, name, init, b);
      EventBalances(w, name, e, b);
      TimesAppend(w.accepted, AcceptedBy(w, e), b);
      TimesAppend(w.flushed, FlushedBy(w, e), b);
      TimesAppend(w.retired, RetiredBy(w, name, e), b);
    }
  }

  // ----- fresh batch IDs -----

  /** The IDs of the submissions of a run, in order. */
  function SubmittedIds(events: seq<Event>): seq<string> {
    if events == [] then []
    else
      SubmittedIds(events[..|events| - 1]) +
      match events[|events| - 1] case Submitted(id, _) => [id] case _ => []
  }

  ghost predicate FreshIds(events: seq<Event>) {
    forall i, j :: 0 <= i < j < |SubmittedIds(events)| ==> SubmittedIds(events)[i] != SubmittedIds(events)[j]
  }

  lemma FreshPrefix(events: seq<Event>)
    requires events != [] && FreshIds(events)
    ensures FreshIds(events[..|events| - 1])
    ensures events[|events| - 1].Submitted? ==>
      events[|events| - 1].id !in SubmittedIds(events[..|events| - 1])
  {
    var init, last := events[..|events| - 1], events[|events| - 1];
    var ids, before := SubmittedIds(events), SubmittedIds(init);
    assert forall k :: 0 <= k < |before| ==> ids[k] == before[k];
    if last.Submitted? {
      assert ids[|before|] == last.id;
    }
  }

  /** The step of AcceptedOnce: a fresh submission cannot repeat a batch. */
  lemma AcceptsOnce(accepted: seq<Batch>, more: Option<Batch>, ids: seq<string>, b: Batch)
    requires Times(accepted, b) <= 1 && (b in accepted ==> b.id in ids)
    requires more.Some? ==> more.value.id !in ids
    ensures Times(accepted + Listed(more), b) <= 1
    ensures b in accepted + Listed(more) ==> b in accepted || more == Some(b)
  {
    TimesAppend(accepted, Listed(more), b);
    TimesOfMember(accepted, b);
    TimesOfOne(more, b);
  }

  /** The batch an event accepts, if it accepts one. */
  function MaybeAccepted(w: World, e: Event): (a: Option<Batch>)
    ensures Listed(a) == AcceptedBy(w, e)
    ensures a.Some? ==> e.Submitted? && a.value.id == e.id
  {
    match e
    case Submitted(id, refs) => Accepted(w.suite, id, refs)
    case _ => None
  }

  lemma {:induction false} AcceptedOnce(now: Time, name: string, events: seq<Event>, b: Batch)
    requires FreshIds(events)
    ensures var w := Run(Initial(now), name, events);
      Times(w.accepted, b) <= 1 && (b in w.accepted ==> b.id in SubmittedIds(events))
  {
    if events != [] {
      var init, e := events[..|events| - 1], events[|events| - 1];
      FreshPrefix(events);
      AcceptedOnce(now, name, init, b);
      var w := Run(Initial(now), name, init);
      AcceptsOnce(w.accepted, MaybeAccepted(w, e), SubmittedIds(init), b);
    }
  }

  /** With fresh IDs, every accepted batch is in exactly one place, once. */
  lemma ExactlyOnePlace(now: Time, name: string, events: seq<Event>, b: Batch)
    requires FreshIds(events)
    requires b in Run(Initial(now), name, events).accepted
    ensures TimesAnywhere(Run(Initial(now), name, events), b) == 1
  {
    BatchesConserved(now, name, events, b);
    AcceptedOnce(now, name, events, b);
    TimesOfMember(Run(Initial(now), name, events).accepted, b);
  }

  lemma {:induction false} HistoryGrows(w: World, name: string, events: seq<Event>, b: Batch)
    ensures var w' := Run(w, name, events);
      Times(w.flushed, b) <= Times(w'.flushed, b) && Times(w.retired, b) <= Times(w'.retired, b)
  {
    if events != [] {
      var init, e := events[..|events| - 1], events[|events| - 1];
      HistoryGrows(w, name, init, b);
      var v := Run(w, name, init);
      TimesAppend(v.flushed, FlushedBy(v, e), b);
      TimesAppend(v.retired, RetiredBy(v, name, e), b);
    }
  }

  /** A batch that was flushed on `ready` or retired is never tracked, buffered
      or saved again, however the run goes on. */
  lemma GoneForGood(now: Time, name: string, events: seq<Event>, more: seq<Event>, b: Batch)
    requires FreshIds(events + more)
    requires var w := Run(Initial(now), name, events); b in w.flushed || b in w.retired
    ensures var w' := Run(Initial(now), name, events + more);
      b !in Tracked(w'.suite) && b !in w'.suite.pending && forall r :: r in w'.saved ==> b !in w'.saved[r]
  {
    var w, w' := Run(Initial(now), name, events), Run(Initial(now), name, events + more);
    RunAppend(Initial(now), name, events, more);
    HistoryGrows(w, name, more, b);
    TimesOfMember(w.flushed, b);
    TimesOfMember(w.retired, b);
    BatchesConserved(now, name, events + more, b);
    AcceptedOnce(now, name, events + more, b);
    TimesOfMember(w'.suite.queue, b);
    TimesOfMember(w'.suite.pending, b);
    forall r | r in w'.saved ensures b !in w'.saved[r] {
      SavedSplit(w'.saved, r, b);
      TimesOfMember(w'.saved[r], b);
    }
  }
}
