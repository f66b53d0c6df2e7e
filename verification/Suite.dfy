/** One suite process of the orchestrator (compat/orchestrator.go): its fields,
    what each lock region does to them, and the class whose methods run those
    regions. */
module Suite {
  import opened Wrappers

  datatype SuiteState = Building | Ready | Busy | Error | Stopped

  /** A group, or some of its tests; no tests means the whole group. */
  datatype TestRef = TestRef(group: string, tests: seq<string>)

  /** A batch; no refs means every test of the suite. */
  datatype Batch = Batch(id: string, tests: seq<TestRef>)

  /** Nanoseconds; an unset Go time is None. */
  type Time = int

  const SECOND: Time := 1_000_000_000
  const SILENCE_LIMIT: Time := 10 * SECOND
  const PING_TIMEOUT: Time := 5 * SECOND
  const KILL_GRACE: Time := 10 * SECOND
  const BUILD_TIMEOUT: Time := 300 * SECOND

  datatype SuiteValue = SuiteValue(
    state: SuiteState, queue: seq<Batch>, active: Option<Batch>, pending: seq<Batch>,
    runningTest: string, interactive: bool,
    lastEventAt: Time, pingSentAt: Option<Time>, cancelSentAt: Option<Time>)

  // ----- duplicates -----

  /** The `check` closure of isDuplicate. */
  predicate RefsClash(refs: seq<TestRef>, group: string, test: string) {
    exists k :: 0 <= k < |refs| && RefClashes(refs[k], group, test)
  }

  predicate RefClashes(ref: TestRef, group: string, test: string) {
    ref.group == group && (test == "" || ref.tests == [] || test in ref.tests)
  }

  predicate IsDuplicate(s: SuiteValue, group: string, test: string) {
    || (s.active.Some? && RefsClash(s.active.value.tests, group, test))
    || exists k :: 0 <= k < |s.queue| && RefsClash(s.queue[k].tests, group, test)
  }

  function KeepTests(s: SuiteValue, group: string, tests: seq<string>): seq<string> {
    if tests == [] then []
    else
      var init, last := tests[..|tests| - 1], tests[|tests| - 1];
      KeepTests(s, group, init) + if IsDuplicate(s, group, last) then [] else [last]
  }

  function KeepRef(s: SuiteValue, ref: TestRef): seq<TestRef> {
    if ref.tests == [] then
      if IsDuplicate(s, ref.group, "") then [] else [ref]
    else
      var kept := KeepTests(s, ref.group, ref.tests);
      if kept == [] then [] else [TestRef(ref.group, kept)]
  }

  /** The refs of a request that are not already queued or running. */
  function Dedupe(s: SuiteValue, refs: seq<TestRef>): seq<TestRef> {
    if refs == [] then []
    else Dedupe(s, refs[..|refs| - 1]) + KeepRef(s, refs[|refs| - 1])
  }

  // ----- regions -----

  /** Where an accepted batch goes. */
  function Place(s: SuiteValue, b: Batch): SuiteValue {
    match s.state
    case Ready => if s.active.None? then s.(active := Some(b)) else s.(queue := s.queue + [b])
    case Building => s.(pending := s.pending + [b])
    case _ => s.(queue := s.queue + [b])
  }

  /** The batch a request is accepted as, if it is. */
  function Accepted(s: SuiteValue, id: string, refs: seq<TestRef>): Option<Batch> {
    if refs == [] then
      if s.active.Some? || |s.queue| > 0 then None else Some(Batch(id, []))
    else
      var kept := Dedupe(s, refs);
      if kept == [] then None else Some(Batch(id, kept))
  }

  function Submit(s: SuiteValue, id: string, refs: seq<TestRef>): SuiteValue {
    match Accepted(s, id, refs)
    case None => s
    case Some(b) => Place(s, b)
  }

  /** A cancel request: by batch, by suite, or everything. */
  datatype CancelRequest = CancelRequest(batchID: string, suite: string, group: string, test: string, all: bool)

  predicate Cancels(c: CancelRequest, name: string, b: Batch) {
    c.all || (c.batchID != "" && b.id == c.batchID) || (c.suite != "" && name == c.suite)
  }

  function Uncancelled(c: CancelRequest, name: string, queue: seq<Batch>): seq<Batch> {
    if queue == [] then []
    else
      var init, last := queue[..|queue| - 1], queue[|queue| - 1];
      Uncancelled(c, name, init) + if Cancels(c, name, last) then [] else [last]
  }

  function Cancel(s: SuiteValue, c: CancelRequest, name: string): SuiteValue {
    var s' := s.(queue := Uncancelled(c, name, s.queue));
    if s.active.Some? && Cancels(c, name, s.active.value)
    then s'.(active := None, runningTest := "", state := Ready)
    else s'
  }

  // ----- what the caller is told -----

  /** A test, or a whole group when it names no test, that was queued or running. */
  datatype QueueEntry = QueueEntry(batchID: string, suite: string, group: string, test: string, running: bool)

  /** What a report is narrowed to; an empty field does not narrow it. */
  datatype Filter = Filter(group: string, test: string)

  const EVERYTHING := Filter("", "")

  function ReportTests(b: Batch, name: string, group: string, tests: seq<string>, f: Filter,
                       running: bool): seq<QueueEntry> {
    if tests == [] then []
    else
      var init, last := tests[..|tests| - 1], tests[|tests| - 1];
      ReportTests(b, name, group, init, f, running)
      + if f.test == "" || last == f.test then [QueueEntry(b.id, name, group, last, running)] else []
  }

  function ReportRef(b: Batch, name: string, ref: TestRef, f: Filter, running: bool): seq<QueueEntry> {
    if f.group != "" && ref.group != f.group then []
    else if ref.tests == [] then [QueueEntry(b.id, name, ref.group, "", running)]
    else ReportTests(b, name, ref.group, ref.tests, f, running)
  }

  function ReportRefs(b: Batch, name: string, refs: seq<TestRef>, f: Filter, running: bool): seq<QueueEntry> {
    if refs == [] then []
    else ReportRefs(b, name, refs[..|refs| - 1], f, running) + ReportRef(b, name, refs[|refs| - 1], f, running)
  }

  function ReportQueue(c: CancelRequest, name: string, queue: seq<Batch>): seq<QueueEntry> {
    if queue == [] then []
    else
      var b := queue[|queue| - 1];
      ReportQueue(c, name, queue[..|queue| - 1])
      + if Cancels(c, name, b) then ReportRefs(b, name, b.tests, Filter(c.group, c.test), false) else []
  }

  /** The entries a cancel request reports: only here do its group and test matter. */
  function ReportCancelled(s: SuiteValue, c: CancelRequest, name: string): seq<QueueEntry> {
    ReportQueue(c, name, s.queue)
    + if s.active.Some? && Cancels(c, name, s.active.value)
      then ReportRefs(s.active.value, name, s.active.value.tests, Filter(c.group, c.test), true) else []
  }

  /** The entries a submission reports as queued. */
  function ReportQueued(s: SuiteValue, id: string, refs: seq<TestRef>, name: string): seq<QueueEntry> {
    match Accepted(s, id, refs)
    case None => []
    case Some(b) =>
      if refs == [] then [QueueEntry(id, name, "", "", false)] else ReportRefs(b, name, b.tests, EVERYTHING, false)
  }

  function SkippedTests(s: SuiteValue, group: string, tests: seq<string>): nat {
    if tests == [] then 0
    else SkippedTests(s, group, tests[..|tests| - 1]) + if IsDuplicate(s, group, tests[|tests| - 1]) then 1 else 0
  }

  function SkippedRef(s: SuiteValue, ref: TestRef): nat {
    if ref.tests == [] then (if IsDuplicate(s, ref.group, "") then 1 else 0)
    else SkippedTests(s, ref.group, ref.tests)
  }

  function SkippedRefs(s: SuiteValue, refs: seq<TestRef>): nat {
    if refs == [] then 0 else SkippedRefs(s, refs[..|refs| - 1]) + SkippedRef(s, refs[|refs| - 1])
  }

  /** How many duplicates a submission skips. */
  function Skipped(s: SuiteValue, refs: seq<TestRef>): nat {
    if refs == [] then (if s.active.Some? || |s.queue| > 0 then 1 else 0) else SkippedRefs(s, refs)
  }

  // ----- more regions -----

  /** Active batch first, then the queue. */
  function Tracked(s: SuiteValue): seq<Batch> {
    (if s.active.Some? then [s.active.value] else []) + s.queue
  }

  predicate CanDispatch(s: SuiteValue) {
    s.state == Ready && s.active.None? && |s.queue| > 0
  }

  /** The first region of processQueue. */
  function Dispatch(s: SuiteValue): SuiteValue {
    if CanDispatch(s) then s.(active := Some(s.queue[0]), queue := s.queue[1..]) else s
  }

  /** processQueue's region after a failed send: whatever is active is dropped. */
  function DropActive(s: SuiteValue): SuiteValue { s.(active := None) }

  function TakeQueue(s: SuiteValue): SuiteValue { s.(queue := []) }

  function RestoreQueue(s: SuiteValue, saved: seq<Batch>): SuiteValue { s.(pending := s.pending + saved) }

  function StartReset(s: SuiteValue): SuiteValue { s.(state := Building, active := None, runningTest := "") }

  function Stop(s: SuiteValue): SuiteValue { s.(state := Stopped) }

  function Kill(s: SuiteValue): SuiteValue { s.(state := Error) }

  function Eof(s: SuiteValue): SuiteValue { if s.state == Stopped then s else s.(state := Error) }

  /** An NDJSON line read from the suite, by its event field. */
  datatype Output =
    | BuildingEvent | ReadyEvent | TestStart(test: string) | TestResult | BatchComplete
    | ErrorEvent | CancelledEvent | Pong | OtherEvent

  function Handle(s: SuiteValue, e: Output, at: Time): SuiteValue {
    var s := s.(lastEventAt := at);
    match e
    case BuildingEvent => s.(state := Building)
    case ReadyEvent => s.(state := Ready, interactive := true, pending := [])
    case TestStart(test) => s.(state := Busy, runningTest := test)
    case BatchComplete => if s.active.Some? then s.(active := None, runningTest := "", state := Ready) else s
    case ErrorEvent => s.(state := Error)
    case Pong => s.(pingSentAt := None)
    case _ => s
  }

  // ----- the watchdog -----

  datatype Action = Idle | KillBuilding | KillUnresponsive | SendPing | SendCancel(batchID: string)

  predicate Monitored(s: SuiteValue) { s.state == Busy && s.interactive && s.active.Some? }

  predicate CancelExpired(s: SuiteValue, now: Time) {
    s.cancelSentAt.Some? && now - s.cancelSentAt.value > KILL_GRACE
  }

  predicate Silent(s: SuiteValue, now: Time) { now - s.lastEventAt > SILENCE_LIMIT }

  /** What one watchdog check decides. */
  function Decide(s: SuiteValue, now: Time): Action {
    if s.state == Building then
      if now - s.lastEventAt > BUILD_TIMEOUT then KillBuilding else Idle
    else if !Monitored(s) then Idle
    else if CancelExpired(s, now) then KillUnresponsive
    else if !Silent(s, now) then Idle
    else if s.pingSentAt.None? then SendPing
    else if now - s.pingSentAt.value > PING_TIMEOUT then SendCancel(s.active.value.id)
    else Idle
  }

  /** What it leaves behind. */
  function Tick(s: SuiteValue, now: Time): SuiteValue {
    match Decide(s, now)
    case SendPing => s.(pingSentAt := Some(now))
    case SendCancel(_) => s.(pingSentAt := None, cancelSentAt := Some(now))
    case Idle =>
      if Monitored(s) && !Silent(s, now) then s.(pingSentAt := None, cancelSentAt := None) else s
    case _ => s
  }

  // ----- the process object -----

  /** SuiteProcess: every method is one region held under its mutex. */
  class SuiteProcess {
    const name: string
    var state: SuiteState
    var queue: seq<Batch>
    var active: Option<Batch>
    var pending: seq<Batch>
    var runningTest: string
    var interactive: bool
    var lastEventAt: Time
    var pingSentAt: Option<Time>
    var cancelSentAt: Option<Time>

    constructor (name: string, now: Time)
      ensures this.name == name
      ensures Value() == SuiteValue(Stopped, [], None, [], "", false, now, None, None)
    {
      this.name := name;
      state, queue, active, pending, runningTest := Stopped, [], None, [], "";
      interactive, lastEventAt, pingSentAt, cancelSentAt := false, now, None, None;
    }

    ghost function Value(): SuiteValue
      reads this
    {
      SuiteValue(state, queue, active, pending, runningTest, interactive, lastEventAt, pingSentAt, cancelSentAt)
    }

    /** `isDuplicate`. */
    method FindDuplicate(group: string, test: string) returns (found: bool)
      ensures found == IsDuplicate(Value(), group, test)
    {
      if active.Some? {
        found := CheckRefs(active.value.tests, group, test);
        if found { return; }
      }
      for k := 0 to |queue|
        invariant !(active.Some? && RefsClash(active.value.tests, group, test))
        invariant forall l :: 0 <= l < k ==> !RefsClash(queue[l].tests, group, test)
      {
        found := CheckRefs(queue[k].tests, group, test);
        if found { return; }
      }
      return false;
    }

    static method CheckRefs(refs: seq<TestRef>, group: string, test: string) returns (found: bool)
      ensures found == RefsClash(refs, group, test)
    {
      for k := 0 to |refs|
        invariant forall l :: 0 <= l < k ==> !RefClashes(refs[l], group, test)
      {
        var ref := refs[k];
        if ref.group != group {
          continue;
        }
        if test == "" || ref.tests == [] || test in ref.tests {
          return true;
        }
      }
      return false;
    }

    /** The region of SubmitTests for one suite; `sent` is the batch to send at
        once, the other results are what it adds to the answer. */
    method SubmitTests(id: string, refs: seq<TestRef>)
      returns (sent: Option<Batch>, queued: seq<QueueEntry>, skipped: nat)
      modifies this
      ensures Value() == Submit(old(Value()), id, refs)
      ensures sent == if old(state) == Ready && old(active).None? then Accepted(old(Value()), id, refs) else None
      ensures queued == ReportQueued(old(Value()), id, refs, name) && skipped == Skipped(old(Value()), refs)
    {
      sent, queued, skipped := None, [], 0;
      var batch := Batch(id, []);
      if refs == [] {
        if active.Some? || |queue| > 0 {
          skipped := 1;
          return;
        }
        queued := [QueueEntry(id, name, "", "", false)];
      } else {
        var deduped;
        deduped, skipped := DedupeRefs(refs);
        if deduped == [] {
          return;
        }
        batch := Batch(id, deduped);
        queued := ReportBatch(batch, EVERYTHING, false);
      }
      match state {
        case Ready =>
          if active.None? {
            active, sent := Some(batch), Some(batch);
          } else {
            queue := queue + [batch];
          }
        case Building => pending := pending + [batch];
        case _ => queue := queue + [batch];
      }
    }

    /** SubmitTests' dedup loop. */
    method DedupeRefs(refs: seq<TestRef>) returns (deduped: seq<TestRef>, skipped: nat)
      ensures deduped == Dedupe(Value(), refs) && skipped == SkippedRefs(Value(), refs)
    {
      deduped, skipped := [], 0;
      for i := 0 to |refs|
        invariant deduped == Dedupe(Value(), refs[..i]) && skipped == SkippedRefs(Value(), refs[..i])
      {
        assert refs[..i + 1][..i] == refs[..i];
        var kept, dups := DedupeRef(refs[i]);
        deduped, skipped := deduped + kept, skipped + dups;
      }
      assert refs[..|refs|] == refs;
    }

    /** One turn of it. */
    method DedupeRef(ref: TestRef) returns (kept: seq<TestRef>, skipped: nat)
      ensures kept == KeepRef(Value(), ref) && skipped == SkippedRef(Value(), ref)
    {
      skipped := 0;
      if ref.tests == [] {
        var dup := FindDuplicate(ref.group, "");
        if dup {
          kept, skipped := [], 1;
        } else {
          kept := [ref];
        }
      } else {
        var tests: seq<string> := [];
        for i := 0 to |ref.tests|
          invariant tests == KeepTests(Value(), ref.group, ref.tests[..i])
          invariant skipped == SkippedTests(Value(), ref.group, ref.tests[..i])
        {
          assert ref.tests[..i + 1][..i] == ref.tests[..i];
          var dup := FindDuplicate(ref.group, ref.tests[i]);
          if dup {
            skipped := skipped + 1;
          } else {
            tests := tests + [ref.tests[i]];
          }
        }
        assert ref.tests[..|ref.tests|] == ref.tests;
        kept := if tests == [] then [] else [TestRef(ref.group, tests)];
      }
    }

    /** The loops that build the entries of a batch. */
    method ReportBatch(b: Batch, f: Filter, running: bool) returns (entries: seq<QueueEntry>)
      ensures entries == ReportRefs(b, name, b.tests, f, running)
    {
      entries := [];
      for i := 0 to |b.tests|
        invariant entries == ReportRefs(b, name, b.tests[..i], f, running)
      {
        assert b.tests[..i + 1][..i] == b.tests[..i];
        var ref := b.tests[i];
        if f.group != "" && ref.group != f.group {
          continue;
        }
        if ref.tests == [] {
          entries := entries + [QueueEntry(b.id, name, ref.group, "", running)];
        } else {
          var more := ReportRefTests(b, ref.group, ref.tests, f, running);
          entries := entries + more;
        }
      }
      assert b.tests[..|b.tests|] == b.tests;
    }

    method ReportRefTests(b: Batch, group: string, tests: seq<string>, f: Filter, running: bool)
      returns (entries: seq<QueueEntry>)
      ensures entries == ReportTests(b, name, group, tests, f, running)
    {
      entries := [];
      for i := 0 to |tests|
        invariant entries == ReportTests(b, name, group, tests[..i], f, running)
      {
        assert tests[..i + 1][..i] == tests[..i];
        if f.test != "" && tests[i] != f.test {
          continue;
        }
        entries := entries + [QueueEntry(b.id, name, group, tests[i], running)];
      }
      assert tests[..|tests|] == tests;
    }

    /** The region of CancelTests for one suite; `cancelled` is the running batch to
        cancel, `entries` what is reported. */
    method CancelTests(c: CancelRequest) returns (cancelled: Option<Batch>, entries: seq<QueueEntry>)
      modifies this
      ensures Value() == Cancel(old(Value()), c, name)
      ensures cancelled ==
        if old(active).Some? && Cancels(c, name, old(active).value) then old(active) else None
      ensures entries == ReportCancelled(old(Value()), c, name)
    {
      var f := Filter(c.group, c.test);
      var kept;
      kept, entries := CancelQueued(c);
      queue := kept;
      cancelled := None;
      if active.Some? && Cancels(c, name, active.value) {
        var more := ReportBatch(active.value, f, true);
        entries := entries + more;
        cancelled, active, runningTest, state := active, None, "", Ready;
      }
    }

    /** The queue loop of CancelTests. */
    method CancelQueued(c: CancelRequest) returns (kept: seq<Batch>, entries: seq<QueueEntry>)
      ensures kept == Uncancelled(c, name, queue) && entries == ReportQueue(c, name, queue)
    {
      kept, entries := [], [];
      for i := 0 to |queue|
        invariant kept == Uncancelled(c, name, queue[..i]) && entries == ReportQueue(c, name, queue[..i])
      {
        assert queue[..i + 1][..i] == queue[..i];
        if !Cancels(c, name, queue[i]) {
          kept := kept + [queue[i]];
          continue;
        }
        var more := ReportBatch(queue[i], Filter(c.group, c.test), false);
        entries := entries + more;
      }
      assert queue[..|queue|] == queue;
    }

    /** The first region of processQueue. */
    method ProcessQueue() returns (sent: Option<Batch>)
      modifies this
      ensures Value() == Dispatch(old(Value()))
      ensures sent.Some? <==> old(state) == Ready && old(active).None? && old(queue) != []
      ensures sent.Some? ==> active == sent && sent.value == old(queue)[0]
      ensures sent.None? ==> Value() == old(Value())
      ensures Tracked(Value()) == Tracked(old(Value()))
    {
      if state != Ready || active.Some? || |queue| == 0 {
        return None;
      }
      sent := Some(queue[0]);
      active, queue := sent, queue[1..];
    }

    method SendFailed()
      modifies this`active
      ensures Value() == DropActive(old(Value()))
    {
      active := None;
    }

    /** The first region of ReloadSuite. */
    method SaveQueue() returns (saved: seq<Batch>)
      modifies this`queue
      ensures saved == old(queue) && Value() == TakeQueue(old(Value()))
    {
      saved, queue := queue, [];
    }

    /** The last region of ReloadSuite: the saved batches become pending commands. */
    method RestoreSaved(saved: seq<Batch>)
      modifies this`pending
      ensures Value() == RestoreQueue(old(Value()), saved)
    {
      for i := 0 to |saved|
        invariant pending == old(pending) + saved[..i]
      {
        assert saved[..i + 1] == saved[..i] + [saved[i]];
        pending := pending + [saved[i]];
      }
      assert saved[..|saved|] == saved;
    }

    /** The region of startSuite after the process has started. */
    method ResetOnStart()
      modifies this`state, this`active, this`runningTest
      ensures Value() == StartReset(old(Value()))
    {
      state, active, runningTest := Building, None, "";
    }

    /** The region of stopSuiteProcess. */
    method MarkStopped()
      modifies this`state
      ensures Value() == Stop(old(Value()))
    {
      state := Stopped;
    }

    /** The region of killSuite. */
    method MarkKilled()
      modifies this`state
      ensures Value() == Kill(old(Value()))
    {
      state := Error;
    }

    /** The region readStdout runs at end of file. */
    method ReachEof()
      modifies this`state
      ensures Value() == Eof(old(Value()))
    {
      if state != Stopped {
        state := Error;
      }
    }

    /** The region readStdout runs for one event; `flushed` are the commands it will write. */
    method ReadEvent(e: Output, at: Time) returns (flushed: seq<Batch>)
      modifies this
      ensures Value() == Handle(old(Value()), e, at)
      ensures flushed == if e.ReadyEvent? then old(pending) else []
    {
      flushed := [];
      lastEventAt := at;
      match e {
        case BuildingEvent => state := Building;
        case ReadyEvent =>
          state, interactive := Ready, true;
          flushed, pending := pending, [];
        case TestStart(test) => state, runningTest := Busy, test;
        case BatchComplete =>
          if active.Some? {
            active, runningTest, state := None, "", Ready;
          }
        case ErrorEvent => state := Error;
        case Pong => pingSentAt := None;
        case TestResult =>
        case CancelledEvent =>
        case OtherEvent =>
      }
    }

    /** The watchdog's region for this suite. */
    method Check(now: Time) returns (action: Action)
      modifies this`pingSentAt, this`cancelSentAt
      ensures action == Decide(old(Value()), now)
      ensures Value() == Tick(old(Value()), now)
    {
      match state {
        case Building =>
          if now - lastEventAt > BUILD_TIMEOUT {
            return KillBuilding;
          }
        case Busy =>
          if !interactive || active.None? {
            return Idle;
          }
          if cancelSentAt.Some? && now - cancelSentAt.value > KILL_GRACE {
            return KillUnresponsive;
          }
          if now - lastEventAt > SILENCE_LIMIT {
            if pingSentAt.None? {
              pingSentAt := Some(now);
              return SendPing;
            }
            if now - pingSentAt.value > PING_TIMEOUT {
              pingSentAt, cancelSentAt := None, Some(now);
              return SendCancel(active.value.id);
            }
          } else {
            pingSentAt, cancelSentAt := None, None;
          }
        case _ =>
      }
      return Idle;
    }
  }
}
