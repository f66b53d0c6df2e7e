/** What a suite is sent: each batch at most once, and in the order in which the
    batches were queued or buffered, over whole runs (compat/orchestrator.go). */
module SuiteSending {
  import opened Wrappers
  import opened Order
  import opened Suite
  import opened SuiteRuns
  import opened SuiteConservation

  // ----- the active batch is the one sent last -----

  /** A batch is active only if it is the last one sent. */
  ghost predicate ActiveIsSent(w: World) {
    w.suite.active.Some? ==> w.sent != [] && w.sent[|w.sent| - 1] == w.suite.active.value
  }

  /** What a step makes active it sends. */
  lemma StepSends(w: World, name: string, e: Event)
    ensures var w' := Step(w, name, e);
      && (SentBy(w, e) != [] ==> Free(w.suite) && w'.suite.active == Some(SentBy(w, e)[0]) && |SentBy(w, e)| == 1)
      && (SentBy(w, e) == [] ==> w'.suite.active == w.suite.active || w'.suite.active.None?)
  {
  }

  /** Whatever happens, the active batch is the last one the process was sent. */
  lemma {:induction false} ActiveWasSent(now: Time, name: string, events: seq<Event>)
    ensures ActiveIsSent(Run(Initial(now), name, events))
  {
    if events != [] {
      var init, e := events[..|events| - 1], events[|events| - 1];
      ActiveWasSent(now, name, init);
      StepSends(Run(Initial(now), name, init), name, e);
    }
  }

  // ----- the queue is first in, first out -----

  /** What was taken off the queue and what is on it stand in the order in which
      they were put on it. */
  ghost predicate InQueueOrder(w: World, at: seq<nat>) { Subsequence(w.taken + w.suite.queue, w.queued, at) }

  lemma OneEach(xs: seq<Batch>, ys: seq<Batch>, at: seq<nat>, b: Batch)
    requires Subsequence(xs, ys, at)
    ensures Subsequence(xs + [b], ys + [b], at + [|ys|])
  {
  }

  lemma UnderPrefix(pre: seq<Batch>, xs: seq<Batch>, ys: seq<Batch>, at: seq<nat>) returns (all: seq<nat>)
    requires Subsequence(xs, ys, at)
    ensures Subsequence(pre + xs, pre + ys, all)
  {
    all := seq(|pre| + |xs|, i requires 0 <= i < |pre| + |xs| => if i < |pre| then i else |pre| + at[i - |pre|]);
  }

  lemma Through(xs: seq<Batch>, ys: seq<Batch>, zs: seq<Batch>, at: seq<nat>, to: seq<nat>) returns (on: seq<nat>)
    requires Subsequence(xs, ys, at) && Subsequence(ys, zs, to)
    ensures Subsequence(xs, zs, on)
  {
    on := seq(|at|, k requires 0 <= k < |at| => assert at[k] < |to|; to[at[k]]);
  }

  /** What an event leaves of what was taken and what is queued. */
  lemma QueueMoves(w: World, name: string, e: Event) returns (to: seq<nat>)
    requires !e.Submitted?
    ensures var w' := Step(w, name, e); Subsequence(w'.taken + w'.suite.queue, w.taken + w.suite.queue, to)
  {
    var w' := Step(w, name, e);
    if e.CancelRequested? {
      var at := UncancelledPositions(e.request, name, w.suite.queue);
      assert w'.taken == w.taken;
      to := UnderPrefix(w.taken, w'.suite.queue, w.suite.queue, at);
    } else {
      QueueStays(w, name, e);
      to := seq(|w'.taken + w'.suite.queue|, i => i);
    }
  }

  lemma QueueStays(w: World, name: string, e: Event)
    requires !e.Submitted? && !e.CancelRequested?
    ensures var w' := Step(w, name, e);
      w'.taken + w'.suite.queue == w.taken + w.suite.queue || w'.taken + w'.suite.queue == w.taken
  {
  }

  lemma SubmitQueues(w: World, name: string, e: Event)
    requires e.Submitted?
    ensures var w' := Step(w, name, e);
      w'.taken == w.taken && w'.suite.queue == w.suite.queue + QueuedBy(w, e) && |QueuedBy(w, e)| <= 1
  {
  }

  lemma QueueStep(w: World, name: string, e: Event, at: seq<nat>) returns (next: seq<nat>)
    requires InQueueOrder(w, at)
    ensures InQueueOrder(Step(w, name, e), next)
  {
    var w' := Step(w, name, e);
    if e.Submitted? {
      SubmitQueues(w, name, e);
      var more := QueuedBy(w, e);
      assert w'.taken + w'.suite.queue == (w.taken + w.suite.queue) + more;
      if more == [] {
        next := at;
      } else {
        OneEach(w.taken + w.suite.queue, w.queued, at, more[0]);
        next := at + [|w.queued|];
      }
    } else {
      var to := QueueMoves(w, name, e);
      assert w'.queued == w.queued;
      next := Through(w'.taken + w'.suite.queue, w.taken + w.suite.queue, w.queued, to, at);
    }
  }

  /** Over every run, batches are taken off the queue in the order in which they
      were put on it, and those still queued come after them. */
  lemma {:induction false} TakenInOrder(now: Time, name: string, events: seq<Event>) returns (at: seq<nat>)
    ensures InQueueOrder(Run(Initial(now), name, events), at)
  {
    if events == [] {
      at := [];
    } else {
      var init, e := events[..|events| - 1], events[|events| - 1];
      at := TakenInOrder(now, name, init);
      at := QueueStep(Run(Initial(now), name, init), name, e, at);
    }
  }

  // ----- the pending buffer loses nothing -----

  lemma BufferStep(w: World, name: string, e: Event)
    requires w.flushed + w.suite.pending == w.buffered
    ensures var w' := Step(w, name, e); w'.flushed + w'.suite.pending == w'.buffered
  {
    var w' := Step(w, name, e);
    assert w'.suite.pending == (if FlushedBy(w, e) != [] then [] else w.suite.pending) + BufferedBy(w, e)
      || (w'.suite.pending == [] && FlushedBy(w, e) == w.suite.pending && BufferedBy(w, e) == []);
  }

  /** Over every run, what was flushed and what is pending is exactly what was
      buffered, in order: accepted while building, or queued when a reload began. */
  lemma {:induction false} BufferInOrder(now: Time, name: string, events: seq<Event>)
    ensures var w := Run(Initial(now), name, events); w.flushed + w.suite.pending == w.buffered
  {
    if events != [] {
      BufferInOrder(now, name, events[..|events| - 1]);
      BufferStep(Run(Initial(now), name, events[..|events| - 1]), name, events[|events| - 1]);
    }
  }

  // ----- nothing is sent twice -----

  /** How often a batch waits to be sent. */
  ghost function TimesWaiting(s: SuiteValue, saved: map<nat, seq<Batch>>, b: Batch): nat {
    Times(s.queue, b) + Times(s.pending, b) + TimesSaved(saved, b)
  }

  lemma SubmitWaits(s: SuiteValue, b: Batch, x: Batch)
    ensures Times(Place(s, b).queue, x) + Times(Place(s, b).pending, x)
        + (if Free(s) then TimesActive(Some(b), x) else 0)
      == Times(s.queue, x) + Times(s.pending, x) + TimesActive(Some(b), x)
  {
    TimesSnoc(s.queue, b, x);
    TimesSnoc(s.pending, b, x);
  }

  lemma TakeWaits(s: SuiteValue, b: Batch)
    requires Free(s) && s.queue != []
    ensures Times(Dispatch(s).queue, b) + Times([s.queue[0]], b) == Times(s.queue, b)
  {
    assert s.queue == [s.queue[0]] + s.queue[1..];
    TimesAppend([s.queue[0]], s.queue[1..], b);
  }

  /** What is sent was waiting, or has just been accepted. */
  ghost predicate SendsWaiting(w: World, name: string, e: Event, b: Batch) {
    var w' := Step(w, name, e);
    TimesWaiting(w'.suite, w'.saved, b) + Times(SentBy(w, e), b) + Times(FlushedBy(w, e), b)
      <= TimesWaiting(w.suite, w.saved, b) + Times(AcceptedBy(w, e), b)
  }

  lemma ReloadSends(w: World, name: string, e: Event, b: Batch)
    requires e.ReloadBegan? || e.ReloadEnded? || e.ReloadFailed?
    ensures SendsWaiting(w, name, e, b)
  {
    var r := e.reload;
    if e.ReloadBegan? {
      if r !in w.saved { SavedAdd(w.saved, r, w.suite.queue, b); }
    } else if r in w.saved {
      SavedSplit(w.saved, r, b);
      TimesAppend(w.suite.pending, w.saved[r], b);
    } else {
      assert w.saved - {r} == w.saved;
    }
  }

  lemma SubmitSends(w: World, name: string, e: Event, b: Batch)
    requires e.Submitted?
    ensures SendsWaiting(w, name, e, b)
  {
    var a := Accepted(w.suite, e.id, e.refs);
    TimesOfOne(a, b);
    if a.Some? { SubmitWaits(w.suite, a.value, b); }
  }

  lemma CancelSends(w: World, name: string, e: Event, b: Batch)
    requires e.CancelRequested?
    ensures SendsWaiting(w, name, e, b)
  {
    CancelSplitsQueue(e.request, name, w.suite.queue, b);
  }

  lemma QueueSends(w: World, name: string, e: Event, b: Batch)
    requires e.QueueProcessed?
    ensures SendsWaiting(w, name, e, b)
  {
    if Free(w.suite) && w.suite.queue != [] { TakeWaits(w.suite, b); }
  }

  lemma OtherSends(w: World, name: string, e: Event, b: Batch)
    requires e.SendFailed? || e.StoppedProcess? || e.StartedProcess? || e.OutputClosed? || e.Ticked? || e.Killed?
      || e.Printed?
    ensures SendsWaiting(w, name, e, b)
  {
    assert FlushedBy(w, e) == [] || After(w.suite, w.saved, name, e).pending == [];
  }

  lemma EventSends(w: World, name: string, e: Event, b: Batch)
    ensures SendsWaiting(w, name, e, b)
  {
    match e
    case Submitted(_, _) => SubmitSends(w, name, e, b);
    case CancelRequested(_) => CancelSends(w, name, e, b);
    case ReloadBegan(_) => ReloadSends(w, name, e, b);
    case ReloadEnded(_) => ReloadSends(w, name, e, b);
    case ReloadFailed(_) => ReloadSends(w, name, e, b);
    case QueueProcessed => QueueSends(w, name, e, b);
    case _ => OtherSends(w, name, e, b);
  }

  lemma {:induction false} SentWasAccepted(now: Time, name: string, events: seq<Event>, b: Batch)
    ensures var w := Run(Initial(now), name, events);
      TimesWaiting(w.suite, w.saved, b) + Times(w.sent, b) + Times(w.flushed, b) <= Times(w.accepted, b)
  {
    if events != [] {
      var init, e := events[..|events| - 1], events[|events| - 1];
      var w := Run(Initial(now), name, init);
      SentWasAccepted(now, name, init, b);
      EventSends(w, name, e, b);
      assert SendsWaiting(w, name, e, b);
      TimesAppend(w.accepted, AcceptedBy(w, e), b);
      TimesAppend(w.flushed, FlushedBy(w, e), b);
      TimesAppend(w.sent, SentBy(w, e), b);
    }
  }

  /** With fresh IDs no batch is sent twice, whether at once, off the queue or when
      the buffer is flushed; and what waits was not sent. */
  lemma SentOnce(now: Time, name: string, events: seq<Event>, b: Batch)
    requires FreshIds(events)
    ensures var w := Run(Initial(now), name, events);
      TimesWaiting(w.suite, w.saved, b) + Times(w.sent, b) + Times(w.flushed, b) <= 1
  {
    SentWasAccepted(now, name, events, b);
    AcceptedOnce(now, name, events, b);
  }

  // ----- a suite that is not ready is sent nothing -----

  /** The suite stops being ready: an error event, the end of its output, a kill,
      a stop or a start. */
  predicate PutsOut(e: Event) {
    || e.Killed? || e.StoppedProcess? || e.StartedProcess? || e.OutputClosed?
    || (e.Printed? && (e.output.ErrorEvent? || e.output.BuildingEvent?))
  }

  /** Only these can make a suite ready. */
  predicate MayReady(e: Event) {
    e.CancelRequested? || (e.Printed? && (e.output.ReadyEvent? || e.output.BatchComplete?))
  }

  lemma StaysOut(w: World, name: string, e: Event)
    requires PutsOut(e) || (w.suite.state != Ready && !MayReady(e))
    ensures Step(w, name, e).suite.state != Ready
  {
  }

  /** From such an event on, until the suite says that it is ready or is done with a
      batch, or a cancel reaches it, nothing is sent to it. */
  lemma {:induction false} NothingSentWhileOut(w: World, name: string, first: Event, events: seq<Event>)
    requires PutsOut(first) && forall k :: 0 <= k < |events| ==> !MayReady(events[k])
    ensures var w' := Run(Step(w, name, first), name, events);
      w'.suite.state != Ready && w'.sent == Step(w, name, first).sent
  {
    if events == [] {
      StaysOut(w, name, first);
    } else {
      var init, e := events[..|events| - 1], events[|events| - 1];
      NothingSentWhileOut(w, name, first, init);
      StaysOut(Run(Step(w, name, first), name, init), name, e);
    }
  }
}
