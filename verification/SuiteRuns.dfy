/** Whole runs of one suite: every interleaving of the lock regions of
    compat/orchestrator.go, with the history needed to say where each accepted
    batch went. */
module SuiteRuns {
  import opened Wrappers
  import opened Order
  import opened Suite

  /** One region, with its nondeterministic inputs. `reload` tells concurrent
      ReloadSuite calls apart. */
  datatype Event =
    | Submitted(id: string, refs: seq<TestRef>)
    | CancelRequested(request: CancelRequest)
    | QueueProcessed
    | SendFailed
    | ReloadBegan(reload: nat)
    | ReloadEnded(reload: nat)
    | ReloadFailed(reload: nat)
    | StoppedProcess
    | StartedProcess
    | Printed(output: Output, at: Time)
    | OutputClosed
    | Ticked(now: Time)
    | Killed

  /** The suite, the queues held by reloads in progress, and the history:
      batches accepted so far, flushed to the process on `ready`, and retired
      (completed, cancelled, or dropped); and those put on the queue, taken off it
      to be run, put into the pending buffer, and sent to the process to be run. */
  datatype World = World(
    suite: SuiteValue, saved: map<nat, seq<Batch>>,
    accepted: seq<Batch>, flushed: seq<Batch>, retired: seq<Batch>,
    queued: seq<Batch>, taken: seq<Batch>, buffered: seq<Batch>, sent: seq<Batch>)

  function Listed(o: Option<Batch>): seq<Batch> {
    match o case None => [] case Some(b) => [b]
  }

  /** The batches a cancel request takes out of a queue. */
  function Dropped(c: CancelRequest, name: string, queue: seq<Batch>): seq<Batch> {
    if queue == [] then []
    else
      var init, last := queue[..|queue| - 1], queue[|queue| - 1];
      Dropped(c, name, init) + if Cancels(c, name, last) then [last] else []
  }

  /** The suite after one event. */
  function After(s: SuiteValue, saved: map<nat, seq<Batch>>, name: string, e: Event): SuiteValue {
    match e
    case Submitted(id, refs) => Submit(s, id, refs)
    case CancelRequested(c) => Cancel(s, c, name)
    case QueueProcessed => Dispatch(s)
    case SendFailed => DropActive(s)
    case ReloadBegan(r) => if r in saved then s else TakeQueue(s)
    case ReloadEnded(r) => if r in saved then RestoreQueue(s, saved[r]) else s
    case ReloadFailed(_) => s
    case StoppedProcess => Stop(s)
    case StartedProcess => StartReset(s)
    case Printed(o, at) => Handle(s, o, at)
    case OutputClosed => Eof(s)
    case Ticked(now) => Tick(s, now)
    case Killed => Kill(s)
  }

  function SavedAfter(w: World, e: Event): map<nat, seq<Batch>> {
    match e
    case ReloadBegan(r) => if r in w.saved then w.saved else w.saved[r := w.suite.queue]
    case ReloadEnded(r) => w.saved - {r}
    case ReloadFailed(r) => w.saved - {r}
    case _ => w.saved
  }

  /** The batch an event accepts. */
  function AcceptedBy(w: World, e: Event): seq<Batch> {
    match e
    case Submitted(id, refs) => Listed(Accepted(w.suite, id, refs))
    case _ => []
  }

  /** The batches an event writes straight to the process. */
  function FlushedBy(w: World, e: Event): seq<Batch> {
    match e
    case Printed(ReadyEvent, _) => w.suite.pending
    case _ => []
  }

  /** The batches an event retires. */
  function RetiredBy(w: World, name: string, e: Event): seq<Batch> {
    var s := w.suite;
    match e
    case CancelRequested(c) =>
      Dropped(c, name, s.queue) +
      if s.active.Some? && Cancels(c, name, s.active.value) then Listed(s.active) else []
    case SendFailed => Listed(s.active)
    case StartedProcess => Listed(s.active)
    case ReloadFailed(r) => if r in w.saved then w.saved[r] else []
    case Printed(BatchComplete, _) => Listed(s.active)
    case _ => []
  }

  /** The suite can take a batch at once. */
  predicate Free(s: SuiteValue) { s.state == Ready && s.active.None? }

  /** The batches an event puts on the queue: those accepted by a suite that is
      neither free nor building. */
  function QueuedBy(w: World, e: Event): seq<Batch> {
    match e
    case Submitted(_, _) => if Free(w.suite) || w.suite.state == Building then [] else AcceptedBy(w, e)
    case _ => []
  }

  /** The batches an event puts into the pending buffer: those accepted while
      building, and the queue saved by a reload. */
  function BufferedBy(w: World, e: Event): seq<Batch> {
    match e
    case Submitted(_, _) => if w.suite.state == Building then AcceptedBy(w, e) else []
    case ReloadEnded(r) => if r in w.saved then w.saved[r] else []
    case _ => []
  }

  /** The batch an event takes off the queue to run: the first, once the suite is free. */
  function TakenBy(w: World, e: Event): seq<Batch> {
    match e
    case QueueProcessed => if Free(w.suite) && w.suite.queue != [] then [w.suite.queue[0]] else []
    case _ => []
  }

  /** The batch an event sends to the process: one accepted by a free suite, or
      one taken off the queue. */
  function SentBy(w: World, e: Event): seq<Batch> {
    match e
    case Submitted(_, _) => if Free(w.suite) then AcceptedBy(w, e) else []
    case _ => TakenBy(w, e)
  }

  function Step(w: World, name: string, e: Event): World {
    World(
      After(w.suite, w.saved, name, e), SavedAfter(w, e),
      w.accepted + AcceptedBy(w, e), w.flushed + FlushedBy(w, e), w.retired + RetiredBy(w, name, e),
      w.queued + QueuedBy(w, e), w.taken + TakenBy(w, e), w.buffered + BufferedBy(w, e), w.sent + SentBy(w, e))
  }

  function Run(w: World, name: string, events: seq<Event>): World {
    if events == [] then w
    else Step(Run(w, name, events[..|events| - 1]), name, events[|events| - 1])
  }

  /** NewOrchestrator and Start: nothing queued, nothing running. */
  function Initial(now: Time): World {
    World(SuiteValue(Stopped, [], None, [], "", false, now, None, None), map[], [], [], [], [], [], [], [])
  }

  lemma {:induction false} RunAppend(w: World, name: string, first: seq<Event>, second: seq<Event>)
    ensures Run(w, name, first + second) == Run(Run(w, name, first), name, second)
  {
    if second == [] {
      assert first + second == first;
    } else {
      var init := second[..|second| - 1];
      assert (first + second)[..|first + second| - 1] == first + init;
      RunAppend(w, name, first, init);
    }
  }

  // ----- no test is covered by two tracked batches -----

  ghost predicate Covers(b: Batch, group: string, test: string) {
    exists k :: 0 <= k < |b.tests| && RefCovers(b.tests[k], group, test)
  }

  predicate RefCovers(ref: TestRef, group: string, test: string) {
    ref.group == group && (ref.tests == [] || test in ref.tests)
  }

  ghost predicate Apart(a: Batch, b: Batch) {
    forall group, test :: !(Covers(a, group, test) && Covers(b, group, test))
  }

  ghost predicate PairwiseApart(bs: seq<Batch>) {
    forall i, j {:trigger Apart(bs[i], bs[j])} :: 0 <= i < j < |bs| ==> Apart(bs[i], bs[j])
  }

  predicate RunsAll(b: Batch) { b.tests == [] }

  /** At most one run-all batch, and only as the active batch or at the head of the queue. */
  ghost predicate RunAllFirst(s: SuiteValue) {
    && (forall i :: 1 <= i < |s.queue| ==> !RunsAll(s.queue[i]))
    && (s.active.Some? && RunsAll(s.active.value) ==> forall i :: 0 <= i < |s.queue| ==> !RunsAll(s.queue[i]))
  }

  ghost predicate Orderly(s: SuiteValue) {
    PairwiseApart(Tracked(s)) && RunAllFirst(s)
  }

  /** What survives dedup clashes with nothing tracked. */
  lemma {:induction false} KeptTestIsNew(s: SuiteValue, group: string, tests: seq<string>, test: string)
    requires test in KeepTests(s, group, tests)
    ensures !IsDuplicate(s, group, test)
  {
    if tests != [] {
      var init, last := tests[..|tests| - 1], tests[|tests| - 1];
      if test in KeepTests(s, group, init) {
        KeptTestIsNew(s, group, init, test);
      }
    }
  }

  lemma {:induction false} KeptRefIsNew(s: SuiteValue, refs: seq<TestRef>, ref: TestRef)
    requires ref in Dedupe(s, refs)
    ensures if ref.tests == [] then !IsDuplicate(s, ref.group, "")
            else forall t :: t in ref.tests ==> !IsDuplicate(s, ref.group, t)
  {
    if refs != [] {
      var init, last := refs[..|refs| - 1], refs[|refs| - 1];
      if ref in Dedupe(s, init) {
        KeptRefIsNew(s, init, ref);
      } else {
        assert ref in KeepRef(s, last);
        forall t | t in ref.tests ensures !IsDuplicate(s, ref.group, t) {
          KeptTestIsNew(s, last.group, last.tests, t);
        }
      }
    }
  }

  lemma NewBatchApart(s: SuiteValue, id: string, refs: seq<TestRef>, i: nat)
    requires Accepted(s, id, refs).Some? && i < |Tracked(s)|
    ensures Apart(Accepted(s, id, refs).value, Tracked(s)[i])
  {
    var b, old_ := Accepted(s, id, refs).value, Tracked(s)[i];
    forall group, test ensures !(Covers(b, group, test) && Covers(old_, group, test)) {
      if Covers(b, group, test) && Covers(old_, group, test) {
        var k :| 0 <= k < |b.tests| && RefCovers(b.tests[k], group, test);
        var l :| 0 <= l < |old_.tests| && RefCovers(old_.tests[l], group, test);
        KeptRefIsNew(s, refs, b.tests[k]);
        var asked := if b.tests[k].tests == [] then "" else test;
        assert RefClashes(old_.tests[l], group, asked);
        assert RefsClash(old_.tests, group, asked);
        TrackedClash(s, i, group, asked);
      }
    }
  }

  lemma TrackedClash(s: SuiteValue, i: nat, group: string, test: string)
    requires i < |Tracked(s)| && RefsClash(Tracked(s)[i].tests, group, test)
    ensures IsDuplicate(s, group, test)
  {
    if s.active.Some? {
      if i > 0 { assert Tracked(s)[i] == s.queue[i - 1]; }
    } else {
      assert Tracked(s)[i] == s.queue[i];
    }
  }

  lemma ApartSymmetric(a: Batch, b: Batch)
    requires Apart(a, b)
    ensures Apart(b, a)
  {
  }

  lemma AppendApart(bs: seq<Batch>, b: Batch)
    requires PairwiseApart(bs) && forall i :: 0 <= i < |bs| ==> Apart(bs[i], b)
    ensures PairwiseApart(bs + [b])
  {
    var more := bs + [b];
    forall i, j | 0 <= i < j < |more| ensures Apart(more[i], more[j]) {
      assert more[i] == bs[i];
      if j < |bs| { assert more[j] == bs[j] && Apart(bs[i], bs[j]); }
    }
  }

  lemma PrependApart(b: Batch, bs: seq<Batch>)
    requires PairwiseApart(bs) && forall i :: 0 <= i < |bs| ==> Apart(b, bs[i])
    ensures PairwiseApart([b] + bs)
  {
    var more := [b] + bs;
    forall i, j | 0 <= i < j < |more| ensures Apart(more[i], more[j]) {
      assert more[j] == bs[j - 1];
      if i > 0 { assert more[i] == bs[i - 1] && Apart(bs[i - 1], bs[j - 1]); }
    }
  }

  lemma SubmitKeepsOrder(s: SuiteValue, id: string, refs: seq<TestRef>)
    requires Orderly(s)
    ensures Orderly(Submit(s, id, refs))
  {
    var a := Accepted(s, id, refs);
    if a.Some? {
      var s', b := Submit(s, id, refs), a.value;
      forall i | 0 <= i < |Tracked(s)| ensures Apart(b, Tracked(s)[i]) && Apart(Tracked(s)[i], b) {
        NewBatchApart(s, id, refs, i);
        ApartSymmetric(b, Tracked(s)[i]);
      }
      AppendApart(Tracked(s), b);
      PrependApart(b, Tracked(s));
      PlacedFirstOrLast(s, b);
      assert refs != [] ==> !RunsAll(b);
    }
  }

  lemma PlacedFirstOrLast(s: SuiteValue, b: Batch)
    ensures var after := Tracked(Place(s, b));
      after == Tracked(s) || after == Tracked(s) + [b] || after == [b] + Tracked(s)
  {
  }

  lemma {:induction false} UncancelledPositions(c: CancelRequest, name: string, queue: seq<Batch>)
    returns (at: seq<nat>)
    ensures Subsequence(Uncancelled(c, name, queue), queue, at)
  {
    if queue == [] {
      at := [];
    } else {
      var init, last := queue[..|queue| - 1], queue[|queue| - 1];
      at := UncancelledPositions(c, name, init);
      if !Cancels(c, name, last) {
        at := at + [|init|];
      }
    }
  }

  lemma SubsequenceApart(xs: seq<Batch>, ys: seq<Batch>, at: seq<nat>)
    requires Subsequence(xs, ys, at) && PairwiseApart(ys)
    ensures PairwiseApart(xs)
  {
    forall i, j | 0 <= i < j < |xs| ensures Apart(xs[i], xs[j]) {
      assert at[i] < at[j] && Apart(ys[at[i]], ys[at[j]]);
    }
  }

  lemma {:induction false} PositionsGrow<T>(xs: seq<T>, ys: seq<T>, at: seq<nat>, i: nat)
    requires Subsequence(xs, ys, at) && i < |xs|
    ensures at[i] >= i
  {
    if i > 0 {
      PositionsGrow(xs, ys, at, i - 1);
      assert at[i - 1] < at[i];
    }
  }

  function Shift(at: seq<nat>): seq<nat> {
    seq(|at|, i requires 0 <= i < |at| => at[i] + 1)
  }

  lemma SubsequenceUnderHead<T>(xs: seq<T>, ys: seq<T>, at: seq<nat>, x: T)
    requires Subsequence(xs, ys, at)
    ensures Subsequence(xs, [x] + ys, Shift(at))
    ensures Subsequence([x] + xs, [x] + ys, [0] + Shift(at))
  {
  }

  /** What stays tracked after a cancel keeps its order. */
  lemma CancelledTracked(s: SuiteValue, c: CancelRequest, name: string, at: seq<nat>) returns (all: seq<nat>)
    requires Subsequence(Uncancelled(c, name, s.queue), s.queue, at)
    ensures Subsequence(Tracked(Cancel(s, c, name)), Tracked(s), all)
  {
    var kept := Uncancelled(c, name, s.queue);
    if s.active.None? {
      all := at;
      assert Tracked(s) == s.queue && Tracked(Cancel(s, c, name)) == kept;
    } else {
      var a := s.active.value;
      SubsequenceUnderHead(kept, s.queue, at, a);
      if Cancels(c, name, a) {
        all := Shift(at);
        assert Tracked(Cancel(s, c, name)) == kept;
      } else {
        all := [0] + Shift(at);
      }
    }
  }

  lemma CancelKeepsRunAll(s: SuiteValue, c: CancelRequest, name: string, at: seq<nat>)
    requires RunAllFirst(s) && Subsequence(Uncancelled(c, name, s.queue), s.queue, at)
    ensures RunAllFirst(Cancel(s, c, name))
  {
    var s' := Cancel(s, c, name);
    forall i | 0 <= i < |s'.queue| ensures at[i] >= i && s'.queue[i] == s.queue[at[i]] {
      PositionsGrow(s'.queue, s.queue, at, i);
    }
  }

  lemma CancelKeepsOrder(s: SuiteValue, c: CancelRequest, name: string)
    requires Orderly(s)
    ensures Orderly(Cancel(s, c, name))
  {
    var at := UncancelledPositions(c, name, s.queue);
    var all := CancelledTracked(s, c, name, at);
    SubsequenceApart(Tracked(Cancel(s, c, name)), Tracked(s), all);
    CancelKeepsRunAll(s, c, name, at);
  }

  lemma DispatchKeepsOrder(s: SuiteValue)
    requires Orderly(s)
    ensures Orderly(Dispatch(s))
  {
    if CanDispatch(s) {
      assert Tracked(Dispatch(s)) == Tracked(s);
    }
  }

  lemma LosingActiveKeepsOrder(s: SuiteValue, s': SuiteValue)
    requires Orderly(s) && s'.queue == s.queue && (s'.active == s.active || s'.active.None?)
    ensures Orderly(s')
  {
    if s'.active != s.active {
      assert Subsequence(Tracked(s'), Tracked(s), seq(|s.queue|, i => i + 1));
      SubsequenceApart(Tracked(s'), Tracked(s), seq(|s.queue|, i => i + 1));
    } else {
      assert Tracked(s') == Tracked(s);
    }
  }

  lemma StepKeepsOrder(w: World, name: string, e: Event)
    requires Orderly(w.suite)
    ensures Orderly(Step(w, name, e).suite)
  {
    var s, s' := w.suite, Step(w, name, e).suite;
    match e
    case Submitted(id, refs) => SubmitKeepsOrder(s, id, refs);
    case CancelRequested(c) => CancelKeepsOrder(s, c, name);
    case QueueProcessed => DispatchKeepsOrder(s);
    case ReloadBegan(r) =>
      if r !in w.saved {
        assert |Tracked(s')| <= 1;
      }
    case _ => LosingActiveKeepsOrder(s, s');
  }

  /** In every reachable state no test is covered by two tracked batches, and a
      run-all batch is alone and first. */
  lemma {:induction false} RunsAreOrderly(now: Time, name: string, events: seq<Event>)
    ensures Orderly(Run(Initial(now), name, events).suite)
  {
    if events != [] {
      RunsAreOrderly(now, name, events[..|events| - 1]);
      StepKeepsOrder(Run(Initial(now), name, events[..|events| - 1]), name, events[|events| - 1]);
    }
  }

  // ----- what a cancel request drops -----

  lemma {:induction false} UncancelledMembers(c: CancelRequest, name: string, queue: seq<Batch>, b: Batch)
    ensures b in Uncancelled(c, name, queue) <==> b in queue && !Cancels(c, name, b)
  {
    if queue != [] {
      var init, last := queue[..|queue| - 1], queue[|queue| - 1];
      assert queue == init + [last];
      UncancelledMembers(c, name, init, b);
    }
  }

  lemma {:induction false} SameUncancelled(c: CancelRequest, d: CancelRequest, name: string, queue: seq<Batch>)
    requires forall b :: Cancels(c, name, b) == Cancels(d, name, b)
    ensures Uncancelled(c, name, queue) == Uncancelled(d, name, queue)
  {
    if queue != [] {
      SameUncancelled(c, d, name, queue[..|queue| - 1]);
    }
  }

  /** The group and test of a request have no effect on what is dropped. */
  lemma FiltersDropNothing(s: SuiteValue, c: CancelRequest, name: string, group: string, test: string)
    ensures Cancel(s, c, name) == Cancel(s, c.(group := group, test := test), name)
  {
    SameUncancelled(c, c.(group := group, test := test), name, s.queue);
  }

  /** A cancel drops exactly the tracked batches it matches, whole. */
  lemma CancelDropsMatches(s: SuiteValue, c: CancelRequest, name: string, b: Batch)
    ensures b in Tracked(Cancel(s, c, name)) <==> b in Tracked(s) && !Cancels(c, name, b)
  {
    UncancelledMembers(c, name, s.queue, b);
    var s' := Cancel(s, c, name);
    assert b in Tracked(s) <==> s.active == Some(b) || b in s.queue;
    assert b in Tracked(s') <==> s'.active == Some(b) || b in s'.queue;
  }

  /** The batch runs this test; one without refs runs every test of the suite. */
  ghost predicate Runs(b: Batch, group: string, test: string) { RunsAll(b) || Covers(b, group, test) }

  /** The test is one the request asks for; an empty filter asks for all. */
  predicate Asked(c: CancelRequest, group: string, test: string) {
    (c.group == "" || group == c.group) && (c.test == "" || test == c.test)
  }

  /** The ref names nothing but tests the request asks for. */
  predicate Within(c: CancelRequest, ref: TestRef) {
    && (c.group == "" || ref.group == c.group)
    && (c.test == "" || (ref.tests != [] && forall k :: 0 <= k < |ref.tests| ==> ref.tests[k] == c.test))
  }

  predicate BatchWithin(c: CancelRequest, b: Batch) {
    (c.group == "" && c.test == "") || (!RunsAll(b) && forall k :: 0 <= k < |b.tests| ==> Within(c, b.tests[k]))
  }

  /** Some text other than `s`. */
  function Other(s: string): (r: string)
    ensures r != s
  {
    if s == "x" then "y" else "x"
  }

  /** A batch runs only what was asked for exactly when every ref of it does. */
  lemma WithinIsExact(c: CancelRequest, b: Batch)
    ensures BatchWithin(c, b) <==> forall group, test :: Runs(b, group, test) ==> Asked(c, group, test)
  {
    if BatchWithin(c, b) {
      forall group, test | Runs(b, group, test) ensures Asked(c, group, test) {
        if c.group != "" || c.test != "" {
          var k :| 0 <= k < |b.tests| && RefCovers(b.tests[k], group, test);
          assert Within(c, b.tests[k]);
        }
      }
    } else if RunsAll(b) {
      assert Runs(b, Other(c.group), Other(c.test)) && !Asked(c, Other(c.group), Other(c.test));
    } else {
      var k :| 0 <= k < |b.tests| && !Within(c, b.tests[k]);
      var group, test := StrayTest(c, b.tests[k]);
      assert Covers(b, group, test);
    }
  }

  lemma StrayTest(c: CancelRequest, ref: TestRef) returns (group: string, test: string)
    requires !Within(c, ref)
    ensures RefCovers(ref, group, test) && !Asked(c, group, test)
  {
    group := ref.group;
    if ref.tests == [] {
      test := Other(c.test);
    } else if c.group != "" && ref.group != c.group {
      test := ref.tests[0];
    } else {
      var k :| 0 <= k < |ref.tests| && ref.tests[k] != c.test;
      test := ref.tests[k];
    }
  }

  /** A filtered cancel takes away only what it asks for exactly when every batch
      it matches lies within the group and the test of the request. */
  lemma CancelTakesOnlyAsked(s: SuiteValue, c: CancelRequest, name: string)
    ensures
      (forall b, group, test ::
        b in Tracked(s) && b !in Tracked(Cancel(s, c, name)) && Runs(b, group, test) ==> Asked(c, group, test))
      <==> (forall b :: b in Tracked(s) && Cancels(c, name, b) ==> BatchWithin(c, b))
  {
    forall b ensures b in Tracked(s) && b !in Tracked(Cancel(s, c, name)) <==> b in Tracked(s) && Cancels(c, name, b) {
      CancelDropsMatches(s, c, name, b);
    }
    forall b ensures BatchWithin(c, b) <==> forall group, test :: Runs(b, group, test) ==> Asked(c, group, test) {
      WithinIsExact(c, b);
    }
  }

  // ----- what the caller is told -----

  /** A test a request names, or a whole group when there is no test. */
  datatype Name = Name(group: string, test: string)

  function NamedTests(group: string, tests: seq<string>): seq<Name> {
    if tests == [] then []
    else NamedTests(group, tests[..|tests| - 1]) + [Name(group, tests[|tests| - 1])]
  }

  function NamedBy(ref: TestRef): seq<Name> {
    if ref.tests == [] then [Name(ref.group, "")] else NamedTests(ref.group, ref.tests)
  }

  /** Everything the refs name, in order. */
  function NamedIn(refs: seq<TestRef>): seq<Name> {
    if refs == [] then [] else NamedIn(refs[..|refs| - 1]) + NamedBy(refs[|refs| - 1])
  }

  /** What is named and neither queued nor running. */
  function NewAmong(s: SuiteValue, names: seq<Name>): seq<Name> {
    if names == [] then []
    else
      var last := names[|names| - 1];
      NewAmong(s, names[..|names| - 1]) + if IsDuplicate(s, last.group, last.test) then [] else [last]
  }

  function EntryOf(id: string, suite: string, n: Name): QueueEntry { QueueEntry(id, suite, n.group, n.test, false) }

  function EntriesOf(id: string, suite: string, names: seq<Name>): seq<QueueEntry> {
    seq(|names|, k requires 0 <= k < |names| => EntryOf(id, suite, names[k]))
  }

  lemma {:induction false} NewJoin(s: SuiteValue, a: seq<Name>, b: seq<Name>)
    ensures NewAmong(s, a + b) == NewAmong(s, a) + NewAmong(s, b)
  {
    if b == [] {
      assert a + b == a;
    } else {
      assert (a + b)[..|a + b| - 1] == a + b[..|b| - 1];
      NewJoin(s, a, b[..|b| - 1]);
    }
  }

  lemma NewSnoc(s: SuiteValue, names: seq<Name>, n: Name)
    ensures NewAmong(s, names + [n]) == NewAmong(s, names) + if IsDuplicate(s, n.group, n.test) then [] else [n]
  {
    assert (names + [n])[..|names|] == names;
  }

  lemma TestsSnoc(group: string, tests: seq<string>, test: string)
    ensures NamedTests(group, tests + [test]) == NamedTests(group, tests) + [Name(group, test)]
  {
    assert (tests + [test])[..|tests|] == tests;
  }

  lemma RefsSnoc(refs: seq<TestRef>, ref: TestRef)
    ensures NamedIn(refs + [ref]) == NamedIn(refs) + NamedBy(ref)
  {
    assert (refs + [ref])[..|refs|] == refs;
  }

  lemma OneNamed(ref: TestRef)
    ensures NamedIn([ref]) == NamedBy(ref)
  {
    assert [ref][..0] == [];
  }

  lemma NamedMore(refs: seq<TestRef>, more: seq<TestRef>)
    requires |more| <= 1
    ensures NamedIn(refs + more) == NamedIn(refs) + NamedIn(more)
  {
    if more == [] {
      assert refs + more == refs;
    } else {
      var ref := more[0];
      assert more == [ref];
      OneNamed(ref);
      RefsSnoc(refs, ref);
    }
  }

  lemma {:induction false} KeptTestsAreNew(s: SuiteValue, group: string, tests: seq<string>)
    ensures NamedTests(group, KeepTests(s, group, tests)) == NewAmong(s, NamedTests(group, tests))
    ensures |NewAmong(s, NamedTests(group, tests))| + SkippedTests(s, group, tests) == |NamedTests(group, tests)|
  {
    if tests != [] {
      var init, last := tests[..|tests| - 1], tests[|tests| - 1];
      KeptTestsAreNew(s, group, init);
      NewSnoc(s, NamedTests(group, init), Name(group, last));
      TestsSnoc(group, KeepTests(s, group, init), last);
      assert IsDuplicate(s, group, last) ==> KeepTests(s, group, tests) == KeepTests(s, group, init);
    }
  }

  lemma KeptRefIsNewNames(s: SuiteValue, ref: TestRef)
    ensures NamedIn(KeepRef(s, ref)) == NewAmong(s, NamedBy(ref))
    ensures |NewAmong(s, NamedBy(ref))| + SkippedRef(s, ref) == |NamedBy(ref)|
  {
    if ref.tests == [] {
      OneNew(s, Name(ref.group, ""));
      OneNamed(ref);
    } else {
      KeptTestsAreNew(s, ref.group, ref.tests);
      OneNamed(TestRef(ref.group, KeepTests(s, ref.group, ref.tests)));
    }
  }

  lemma OneNew(s: SuiteValue, n: Name)
    ensures NewAmong(s, [n]) == if IsDuplicate(s, n.group, n.test) then [] else [n]
  {
    assert [n][..0] == [];
  }

  /** What dedup keeps names exactly what is new, in order. */
  lemma {:induction false} KeptIsNew(s: SuiteValue, refs: seq<TestRef>)
    ensures NamedIn(Dedupe(s, refs)) == NewAmong(s, NamedIn(refs))
    ensures |NewAmong(s, NamedIn(refs))| + SkippedRefs(s, refs) == |NamedIn(refs)|
  {
    if refs != [] {
      var init, last := refs[..|refs| - 1], refs[|refs| - 1];
      KeptIsNew(s, init);
      KeptRefIsNewNames(s, last);
      NewJoin(s, NamedIn(init), NamedBy(last));
      NamedMore(Dedupe(s, init), KeepRef(s, last));
    }
  }

  lemma {:induction false} TestsReported(b: Batch, name: string, group: string, tests: seq<string>)
    ensures ReportTests(b, name, group, tests, EVERYTHING, false) == EntriesOf(b.id, name, NamedTests(group, tests))
  {
    if tests != [] {
      var init, last := tests[..|tests| - 1], tests[|tests| - 1];
      TestsReported(b, name, group, init);
      EntriesJoin(b.id, name, NamedTests(group, init), [Name(group, last)]);
    }
  }

  lemma OneRefReported(b: Batch, name: string, ref: TestRef)
    ensures ReportRef(b, name, ref, EVERYTHING, false) == EntriesOf(b.id, name, NamedBy(ref))
  {
    TestsReported(b, name, ref.group, ref.tests);
  }

  lemma EntriesJoin(id: string, suite: string, a: seq<Name>, b: seq<Name>)
    ensures EntriesOf(id, suite, a + b) == EntriesOf(id, suite, a) + EntriesOf(id, suite, b)
  {
  }

  lemma EntriesMembers(id: string, suite: string, names: seq<Name>, n: Name)
    ensures EntryOf(id, suite, n) in EntriesOf(id, suite, names) <==> n in names
  {
    var entries := EntriesOf(id, suite, names);
    if n in names {
      var k :| 0 <= k < |names| && names[k] == n;
      assert entries[k] == EntryOf(id, suite, n);
    }
    if EntryOf(id, suite, n) in entries {
      var k :| 0 <= k < |entries| && entries[k] == EntryOf(id, suite, n);
      assert names[k] == n;
    }
  }

  lemma {:induction false} RefsReported(b: Batch, name: string, refs: seq<TestRef>)
    ensures ReportRefs(b, name, refs, EVERYTHING, false) == EntriesOf(b.id, name, NamedIn(refs))
  {
    if refs != [] {
      var last := refs[|refs| - 1];
      RefsReported(b, name, refs[..|refs| - 1]);
      OneRefReported(b, name, last);
      EntriesJoin(b.id, name, NamedIn(refs[..|refs| - 1]), NamedBy(last));
    }
  }

  /** A submission accounts for everything it was asked to run: what it reports as
      queued is, in order, each named test or whole group that was neither queued
      nor running, and every other one counts as skipped. A request that names
      nothing is one entry, queued exactly when nothing is tracked. */
  lemma SubmitAccounts(s: SuiteValue, id: string, refs: seq<TestRef>, name: string)
    ensures refs != [] ==>
      && ReportQueued(s, id, refs, name) == EntriesOf(id, name, NewAmong(s, NamedIn(refs)))
      && |ReportQueued(s, id, refs, name)| + Skipped(s, refs) == |NamedIn(refs)|
    ensures refs == [] ==>
      && ReportQueued(s, id, refs, name) == (if Tracked(s) == [] then [QueueEntry(id, name, "", "", false)] else [])
      && |ReportQueued(s, id, refs, name)| + Skipped(s, refs) == 1
  {
    if refs != [] {
      var kept := Dedupe(s, refs);
      KeptIsNew(s, refs);
      RefsReported(Batch(id, kept), name, kept);
    }
  }

  /** New names are exactly those that are no duplicate. */
  lemma {:induction false} NewAmongMembers(s: SuiteValue, names: seq<Name>, n: Name)
    ensures n in NewAmong(s, names) <==> n in names && !IsDuplicate(s, n.group, n.test)
  {
    if names != [] {
      var init, last := names[..|names| - 1], names[|names| - 1];
      assert names == init + [last];
      NewAmongMembers(s, init, n);
    }
  }

  /** A test or a whole group is reported as queued exactly when the request names
      it and no tracked batch clashes with it. */
  lemma QueuedExactly(s: SuiteValue, id: string, refs: seq<TestRef>, name: string, n: Name)
    requires refs != []
    ensures EntryOf(id, name, n) in ReportQueued(s, id, refs, name) <==>
      n in NamedIn(refs) && !IsDuplicate(s, n.group, n.test)
  {
    SubmitAccounts(s, id, refs, name);
    NewAmongMembers(s, NamedIn(refs), n);
    EntriesMembers(id, name, NewAmong(s, NamedIn(refs)), n);
  }

  // ----- what a cancel reports -----

  /** The ref names this and lets it past the filter; a whole group passes any test filter. */
  predicate RefReports(ref: TestRef, f: Filter, group: string, test: string) {
    && ref.group == group && (f.group == "" || group == f.group)
    && if ref.tests == [] then test == "" else test in ref.tests && (f.test == "" || test == f.test)
  }

  ghost predicate BatchReports(b: Batch, f: Filter, group: string, test: string) {
    exists k :: 0 <= k < |b.tests| && RefReports(b.tests[k], f, group, test)
  }

  lemma {:induction false} TestReported(b: Batch, name: string, group: string, tests: seq<string>, f: Filter,
                                        running: bool, e: QueueEntry)
    ensures e in ReportTests(b, name, group, tests, f, running) <==>
      e == QueueEntry(b.id, name, group, e.test, running) && e.test in tests && (f.test == "" || e.test == f.test)
  {
    if tests != [] {
      var init := tests[..|tests| - 1];
      assert tests == init + [tests[|tests| - 1]];
      TestReported(b, name, group, init, f, running, e);
    }
  }

  lemma {:induction false} RefReported(b: Batch, name: string, refs: seq<TestRef>, f: Filter, running: bool,
                                       e: QueueEntry)
    ensures e in ReportRefs(b, name, refs, f, running) <==>
      e == QueueEntry(b.id, name, e.group, e.test, running)
      && exists k :: 0 <= k < |refs| && RefReports(refs[k], f, e.group, e.test)
  {
    if refs != [] {
      var init, last := refs[..|refs| - 1], refs[|refs| - 1];
      RefReported(b, name, init, f, running, e);
      TestReported(b, name, last.group, last.tests, f, running, e);
      assert e in ReportRef(b, name, last, f, running) <==>
        e == QueueEntry(b.id, name, e.group, e.test, running) && RefReports(last, f, e.group, e.test);
      SomeRefReports(init, last, f, e);
      assert refs == init + [last];
    }
  }

  lemma SomeRefReports(init: seq<TestRef>, last: TestRef, f: Filter, e: QueueEntry)
    ensures var refs := init + [last];
      (exists k :: 0 <= k < |refs| && RefReports(refs[k], f, e.group, e.test)) <==>
        RefReports(last, f, e.group, e.test) || exists k :: 0 <= k < |init| && RefReports(init[k], f, e.group, e.test)
  {
    var refs := init + [last];
    assert refs[|init|] == last && forall k :: 0 <= k < |init| ==> refs[k] == init[k];
  }

  /** The entry is about this batch and something the request lets through. */
  ghost predicate Tells(e: QueueEntry, b: Batch, c: CancelRequest, name: string) {
    && Cancels(c, name, b) && e == QueueEntry(b.id, name, e.group, e.test, e.running)
    && BatchReports(b, Filter(c.group, c.test), e.group, e.test)
  }

  lemma BatchReported(b: Batch, name: string, c: CancelRequest, running: bool, e: QueueEntry)
    requires Cancels(c, name, b)
    ensures e in ReportRefs(b, name, b.tests, Filter(c.group, c.test), running) <==>
      e.running == running && Tells(e, b, c, name)
  {
    RefReported(b, name, b.tests, Filter(c.group, c.test), running, e);
  }

  lemma {:induction false} QueueReported(c: CancelRequest, name: string, queue: seq<Batch>, e: QueueEntry)
    ensures e in ReportQueue(c, name, queue) <==> !e.running && exists b :: b in queue && Tells(e, b, c, name)
  {
    if queue != [] {
      var init, last := queue[..|queue| - 1], queue[|queue| - 1];
      assert queue == init + [last];
      QueueReported(c, name, init, e);
      if Cancels(c, name, last) { BatchReported(last, name, c, false, e); }
      if e in ReportQueue(c, name, queue) && e !in ReportQueue(c, name, init) {
        assert last in queue && Tells(e, last, c, name);
      }
    }
  }

  /** What a cancel reports, exactly: of each batch it drops, from the queue or
      running, the named tests and whole groups that pass the filter. */
  lemma CancelReportsExactly(s: SuiteValue, c: CancelRequest, name: string, e: QueueEntry)
    ensures e in ReportCancelled(s, c, name) <==>
      if e.running then s.active.Some? && Tells(e, s.active.value, c, name)
      else exists b :: b in s.queue && Tells(e, b, c, name)
    ensures e in ReportCancelled(s, c, name) ==>
      exists b :: b in Tracked(s) && b !in Tracked(Cancel(s, c, name)) && Tells(e, b, c, name)
  {
    QueueReported(c, name, s.queue, e);
    if s.active.Some? && Cancels(c, name, s.active.value) {
      BatchReported(s.active.value, name, c, true, e);
    }
    forall b ensures b in Tracked(Cancel(s, c, name)) <==> b in Tracked(s) && !Cancels(c, name, b) {
      CancelDropsMatches(s, c, name, b);
    }
    assert forall b :: b in Tracked(s) <==> s.active == Some(b) || b in s.queue;
  }

  /** The batch names a whole group that passes the group filter. */
  predicate NamesGroup(b: Batch, group: string) {
    exists k :: 0 <= k < |b.tests| && b.tests[k].tests == [] && (group == "" || b.tests[k].group == group)
  }

  lemma GroupReported(s: SuiteValue, c: CancelRequest, name: string, b: Batch) returns (e: QueueEntry)
    requires b in Tracked(s) && Cancels(c, name, b) && NamesGroup(b, c.group)
    ensures e in ReportCancelled(s, c, name) && e.test == ""
  {
    var k :| 0 <= k < |b.tests| && b.tests[k].tests == [] && (c.group == "" || b.tests[k].group == c.group);
    e := QueueEntry(b.id, name, b.tests[k].group, "", s.active == Some(b));
    assert RefReports(b.tests[k], Filter(c.group, c.test), e.group, "");
    assert Tells(e, b, c, name);
    CancelReportsExactly(s, c, name, e);
  }

  /** Everything reported was asked for exactly when the request names no test, or
      no batch it matches names a whole group: those are reported whatever the test. */
  lemma ReportedIsAsked(s: SuiteValue, c: CancelRequest, name: string)
    ensures (forall e :: e in ReportCancelled(s, c, name) ==> Asked(c, e.group, e.test)) <==>
      c.test == "" || forall b :: b in Tracked(s) && Cancels(c, name, b) ==> !NamesGroup(b, c.group)
  {
    forall e | e in ReportCancelled(s, c, name)
      ensures Asked(c, e.group, e.test) || c.test != ""
      ensures Asked(c, e.group, e.test) || exists b :: b in Tracked(s) && Cancels(c, name, b) && NamesGroup(b, c.group)
    {
      CancelReportsExactly(s, c, name, e);
      var b :| b in Tracked(s) && b !in Tracked(Cancel(s, c, name)) && Tells(e, b, c, name);
      var k :| 0 <= k < |b.tests| && RefReports(b.tests[k], Filter(c.group, c.test), e.group, e.test);
    }
    if c.test != "" {
      forall b | b in Tracked(s) && Cancels(c, name, b) && NamesGroup(b, c.group)
        ensures exists e :: e in ReportCancelled(s, c, name) && !Asked(c, e.group, e.test)
      {
        var e := GroupReported(s, c, name, b);
      }
    }
  }

  // ----- a cancel that takes more than it was asked for -----

  lemma RunSnoc(w: World, name: string, events: seq<Event>, e: Event)
    ensures Run(w, name, events + [e]) == Step(Run(w, name, events), name, e)
  {
    assert (events + [e])[..|events|] == events;
  }

  lemma TwoTestsKept(s: SuiteValue, group: string, a: string, b: string)
    requires Tracked(s) == []
    ensures Dedupe(s, [TestRef(group, [a, b])]) == [TestRef(group, [a, b])]
  {
    assert s.active.None? && s.queue == [];
    assert [a, b][..1] == [a] && [a][..0] == [];
    assert KeepTests(s, group, [a]) == [a];
    assert KeepTests(s, group, [a, b]) == [a, b];
    assert [TestRef(group, [a, b])][..0] == [];
  }

  /** A suite that is ready and runs one batch of two tests. */
  lemma TwoTestsRunning(now: Time, name: string) returns (events: seq<Event>)
    ensures Run(Initial(now), name, events).suite
      == SuiteValue(Ready, [], Some(Batch("b", [TestRef("g", ["t", "u"])])), [], "", true, now, None, None)
  {
    var w := Initial(now);
    var started, read := [StartedProcess], [StartedProcess, Printed(ReadyEvent, now)];
    var submit := Submitted("b", [TestRef("g", ["t", "u"])]);
    RunSnoc(w, name, [], StartedProcess);
    assert [] + [StartedProcess] == started;
    RunSnoc(w, name, started, Printed(ReadyEvent, now));
    assert started + [Printed(ReadyEvent, now)] == read;
    RunSnoc(w, name, read, submit);
    TwoTestsKept(Run(w, name, read).suite, "g", "t", "u");
    events := read + [submit];
  }

  /** A reachable cancel of one test of a batch drops the other test with it, and
      does not report that one. */
  lemma CancelDropsUnasked(now: Time, name: string) returns (events: seq<Event>, c: CancelRequest, b: Batch)
    ensures b in Tracked(Run(Initial(now), name, events).suite)
    ensures b !in Tracked(Run(Initial(now), name, events + [CancelRequested(c)]).suite)
    ensures Runs(b, "g", "u") && !Asked(c, "g", "u")
    ensures forall e :: e in ReportCancelled(Run(Initial(now), name, events).suite, c, name) ==> e.test != "u"
  {
    events := TwoTestsRunning(now, name);
    c, b := CancelRequest("b", "", "g", "t", false), Batch("b", [TestRef("g", ["t", "u"])]);
    var s := Run(Initial(now), name, events).suite;
    RunSnoc(Initial(now), name, events, CancelRequested(c));
    CancelDropsMatches(s, c, name, b);
    assert RefCovers(b.tests[0], "g", "u");
    forall e | e in ReportCancelled(s, c, name) ensures e.test != "u" {
      CancelReportsExactly(s, c, name, e);
    }
  }
}
