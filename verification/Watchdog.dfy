/** Timing properties of the watchdog (compat/orchestrator.go) over whole runs
    of a suite. */
module Watchdog {
  import opened Wrappers
  import opened Suite
  import opened SuiteRuns

  // ----- runs as the list of states they pass -----

  ghost predicate Follows(trace: seq<World>, name: string, events: seq<Event>, k: nat)
    requires k < |events| && |trace| == |events| + 1
  {
    trace[k + 1] == Step(trace[k], name, events[k])
  }

  /** `trace` lists the states of a run: the first one, and one after each event. */
  ghost predicate IsRun(trace: seq<World>, name: string, events: seq<Event>) {
    && |trace| == |events| + 1
    && forall k :: 0 <= k < |events| ==> Follows(trace, name, events, k)
  }

  lemma {:induction false} TraceIsRun(trace: seq<World>, name: string, events: seq<Event>, k: nat)
    requires IsRun(trace, name, events) && k <= |events|
    ensures trace[k] == Run(trace[0], name, events[..k])
  {
    if k > 0 {
      TraceIsRun(trace, name, events, k - 1);
      assert Follows(trace, name, events, k - 1);
      assert events[..k][..k - 1] == events[..k - 1];
    }
  }

  /** What each event does to the three times the watchdog reads. */
  lemma TimersAfter(w: World, name: string, e: Event)
    ensures var s, s' := w.suite, Step(w, name, e).suite;
      match e
      case Printed(o, at) =>
        s'.lastEventAt == at && s'.cancelSentAt == s.cancelSentAt
        && s'.pingSentAt == (if o.Pong? then None else s.pingSentAt)
      case Ticked(now) => s' == Tick(s, now) && s'.lastEventAt == s.lastEventAt
      case _ =>
        s'.lastEventAt == s.lastEventAt && s'.cancelSentAt == s.cancelSentAt && s'.pingSentAt == s.pingSentAt
  {
  }

  // ----- a cancel is justified -----

  predicate IsPong(e: Event) { e.Printed? && e.output.Pong? }

  /** The time of the last line read before event `k`, or `start`. */
  function LastOutput(start: Time, events: seq<Event>, k: nat): Time
    requires k <= |events|
  {
    if k == 0 then start
    else match events[k - 1]
      case Printed(_, at) => at
      case _ => LastOutput(start, events, k - 1)
  }

  lemma {:induction false} LastEventIsLastOutput(trace: seq<World>, name: string, events: seq<Event>, k: nat)
    requires IsRun(trace, name, events) && k <= |events|
    ensures trace[k].suite.lastEventAt == LastOutput(trace[0].suite.lastEventAt, events, k)
  {
    if k > 0 {
      LastEventIsLastOutput(trace, name, events, k - 1);
      assert Follows(trace, name, events, k - 1);
      TimersAfter(trace[k - 1], name, events[k - 1]);
    }
  }

  /** Event `j` is the tick that sent the ping still recorded before event `k`. */
  ghost predicate PingSentAtTick(trace: seq<World>, events: seq<Event>, j: nat, k: nat, ping: Time)
    requires k <= |events| == |trace| - 1
  {
    && j < k && events[j] == Ticked(ping)
    && Decide(trace[j].suite, ping) == SendPing
    && forall m :: j < m < k ==> !IsPong(events[m])
  }

  /** A recorded ping was sent by some tick, and no pong came since. */
  lemma {:induction false} PingHasOrigin(trace: seq<World>, name: string, events: seq<Event>, k: nat) returns (j: nat)
    requires IsRun(trace, name, events) && k <= |events|
    requires trace[0].suite.pingSentAt.None? && trace[k].suite.pingSentAt.Some?
    ensures PingSentAtTick(trace, events, j, k, trace[k].suite.pingSentAt.value)
  {
    var e := events[k - 1];
    assert Follows(trace, name, events, k - 1);
    TimersAfter(trace[k - 1], name, e);
    if e.Ticked? && Decide(trace[k - 1].suite, e.now) == SendPing {
      j := k - 1;
    } else {
      j := PingHasOrigin(trace, name, events, k - 1);
    }
  }

  /** A watchdog cancel goes only to a busy, interactive suite with that batch
      active, silent for longer than the limit since its last output, with a ping
      sent by an earlier tick, older than the timeout and not answered since. */
  lemma CancelIsJustified(trace: seq<World>, name: string, events: seq<Event>, k: nat, id: string) returns (j: nat)
    requires IsRun(trace, name, events) && trace[0] == Initial(trace[0].suite.lastEventAt)
    requires k < |events| && events[k].Ticked? && Decide(trace[k].suite, events[k].now) == SendCancel(id)
    ensures var s, now := trace[k].suite, events[k].now;
      && s.state == Busy && s.interactive && s.active.Some? && s.active.value.id == id
      && now - LastOutput(trace[0].suite.lastEventAt, events, k) > SILENCE_LIMIT
      && s.pingSentAt.Some? && now - s.pingSentAt.value > PING_TIMEOUT
      && PingSentAtTick(trace, events, j, k, s.pingSentAt.value)
  {
    LastEventIsLastOutput(trace, name, events, k);
    j := PingHasOrigin(trace, name, events, k);
  }

  // ----- the kill grace -----

  /** The time of the last watchdog check before event `k`, or `from`. */
  function LastTick(from: Time, events: seq<Event>, k: nat): Time
    requires k <= |events|
  {
    if k == 0 then from
    else match events[k - 1]
      case Ticked(now) => now
      case _ => LastTick(from, events, k - 1)
  }

  /** Event `k` comes at most `gap` after the last check if it is a check, and
      not before that check if it is a line read. */
  ghost predicate OnTime(from: Time, events: seq<Event>, gap: Time, k: nat)
    requires k < |events|
  {
    match events[k]
    case Ticked(now) => LastTick(from, events, k) <= now <= LastTick(from, events, k) + gap
    case Printed(_, at) => LastTick(from, events, k) <= at
    case _ => true
  }

  /** If event `k` is a check, it finds the suite busy, interactive and with an active batch. */
  ghost predicate Watched(trace: seq<World>, events: seq<Event>, k: nat)
    requires k < |events| < |trace|
  {
    events[k].Ticked? ==> Monitored(trace[k].suite)
  }

  /** The timers right after the watchdog has sent a cancel at `at`. */
  predicate JustCancelled(s: SuiteValue, at: Time) {
    s.cancelSentAt == Some(at) && s.pingSentAt.None?
  }

  /** A run from a watchdog cancel, with checks at most `gap` apart, each finding
      the suite monitored. */
  ghost predicate MonitoredRun(trace: seq<World>, name: string, events: seq<Event>, from: Time, gap: Time) {
    && IsRun(trace, name, events) && JustCancelled(trace[0].suite, from)
    && forall k :: 0 <= k < |events| ==> OnTime(from, events, gap, k) && Watched(trace, events, k)
  }

  /** Between checks: a cancel still recorded was sent at the last check, or a
      ping followed it within one gap, or the suite has spoken since. */
  ghost predicate Armed(s: SuiteValue, tick: Time, gap: Time) {
    s.cancelSentAt.Some? ==>
      var c := s.cancelSentAt.value;
      && tick - c <= PING_TIMEOUT + gap
      && (|| s.lastEventAt >= tick
          || (s.pingSentAt.None? && tick == c)
          || (s.pingSentAt.Some? && s.pingSentAt.value - c <= gap && tick - s.pingSentAt.value <= PING_TIMEOUT))
  }

  lemma TickKeepsArmed(s: SuiteValue, tick: Time, gap: Time, now: Time)
    requires Armed(s, tick, gap) && Monitored(s) && tick <= now <= tick + gap
    requires 0 <= gap && 2 * gap + PING_TIMEOUT <= KILL_GRACE
    ensures Armed(Tick(s, now), now, gap)
    ensures Decide(s, now) != KillUnresponsive
    ensures s.cancelSentAt.Some? ==> now - s.cancelSentAt.value <= KILL_GRACE
  {
  }

  lemma {:induction false} StaysArmed(trace: seq<World>, name: string, events: seq<Event>, from: Time, gap: Time,
                                      k: nat)
    requires MonitoredRun(trace, name, events, from, gap) && k <= |events|
    requires 0 <= gap && 2 * gap + PING_TIMEOUT <= KILL_GRACE
    ensures Armed(trace[k].suite, LastTick(from, events, k), gap)
  {
    if k > 0 {
      var e := events[k - 1];
      StaysArmed(trace, name, events, from, gap, k - 1);
      assert Follows(trace, name, events, k - 1);
      assert OnTime(from, events, gap, k - 1) && Watched(trace, events, k - 1);
      TimersAfter(trace[k - 1], name, e);
      if e.Ticked? {
        TickKeepsArmed(trace[k - 1].suite, LastTick(from, events, k - 1), gap, e.now);
      }
    }
  }

  /** After a watchdog cancel, while every check finds the suite monitored and
      checks are at most `gap` apart, the elapsed time tested against the kill
      grace never exceeds it: the suite is pinged and cancelled again first. */
  lemma RearmedInTime(trace: seq<World>, name: string, events: seq<Event>, from: Time, gap: Time, k: nat)
    requires MonitoredRun(trace, name, events, from, gap) && k < |events| && events[k].Ticked?
    requires 0 <= gap && 2 * gap + PING_TIMEOUT <= KILL_GRACE
    ensures Decide(trace[k].suite, events[k].now) != KillUnresponsive
    ensures trace[k].suite.cancelSentAt.Some? ==> events[k].now - trace[k].suite.cancelSentAt.value <= KILL_GRACE
  {
    assert OnTime(from, events, gap, k) && Watched(trace, events, k);
    StaysArmed(trace, name, events, from, gap, k);
    TickKeepsArmed(trace[k].suite, LastTick(from, events, k), gap, events[k].now);
  }

  /** Event `k` is a check that decides to kill an unresponsive suite. */
  ghost predicate KillsAt(trace: seq<World>, events: seq<Event>, k: nat) {
    k < |events| < |trace| && events[k].Ticked? && Decide(trace[k].suite, events[k].now) == KillUnresponsive
  }

  /** Event `j` is a check that sends a cancel. */
  ghost predicate CancelsAt(trace: seq<World>, events: seq<Event>, j: nat) {
    j < |events| < |trace| && events[j].Ticked? && Decide(trace[j].suite, events[j].now).SendCancel?
  }

  /** A run from a fresh start. */
  ghost predicate FreshRun(trace: seq<World>, name: string, events: seq<Event>) {
    IsRun(trace, name, events) && trace[0] == Initial(trace[0].suite.lastEventAt)
  }

  /** After event `j` and up to event `k`, checks are at most `gap` apart. */
  ghost predicate OnTimeSince(events: seq<Event>, gap: Time, j: nat, k: nat)
    requires k < |events|
  {
    forall m {:trigger OnTime(0, events, gap, m)} :: j < m <= k ==> OnTime(0, events, gap, m)
  }

  /** After event `j` and up to event `k`, checks find the suite monitored. */
  ghost predicate WatchedSince(trace: seq<World>, events: seq<Event>, j: nat, k: nat)
    requires k < |events| < |trace|
  {
    forall m {:trigger Watched(trace, events, m)} :: j < m <= k ==> Watched(trace, events, m)
  }

  lemma {:induction false} LastTickSince(events: seq<Event>, j: nat, m: nat, end: nat)
    requires j < end <= |events| && events[j].Ticked? && j + 1 + m <= end
    ensures LastTick(events[j].now, events[j + 1..end], m) == LastTick(0, events, j + 1 + m)
  {
    if m > 0 {
      LastTickSince(events, j, m - 1, end);
      assert events[j + 1..end][m - 1] == events[j + m];
    }
  }

  /** What follows a watchdog cancel is a monitored run. */
  lemma SinceCancel(trace: seq<World>, name: string, events: seq<Event>, gap: Time, j: nat, k: nat)
    requires IsRun(trace, name, events) && CancelsAt(trace, events, j) && j < k < |events|
    requires OnTimeSince(events, gap, j, k) && WatchedSince(trace, events, j, k)
    ensures MonitoredRun(trace[j + 1..k + 2], name, events[j + 1..k + 1], events[j].now, gap)
  {
    var from, states, later := events[j].now, trace[j + 1..k + 2], events[j + 1..k + 1];
    assert Follows(trace, name, events, j);
    TimersAfter(trace[j], name, events[j]);
    forall m | 0 <= m < |later|
      ensures Follows(states, name, later, m) && OnTime(from, later, gap, m) && Watched(states, later, m)
    {
      var n := j + 1 + m;
      assert states[m] == trace[n] && states[m + 1] == trace[n + 1] && later[m] == events[n];
      assert Follows(trace, name, events, n) && OnTime(0, events, gap, n) && Watched(trace, events, n);
      LastTickSince(events, j, m, k + 1);
    }
  }

  /** From a fresh start, a check can send a cancel and a later one kill the
      suite, although every check in between found it monitored and checks were at
      most `gap` apart. */
  ghost predicate KillReachable(gap: Time) {
    exists trace, name, events, j, k
      {:trigger FreshRun(trace, name, events), CancelsAt(trace, events, j), KillsAt(trace, events, k)} ::
      FreshRun(trace, name, events) && CancelsAt(trace, events, j) && KillsAt(trace, events, k)
      && j < k && OnTimeSince(events, gap, j, k) && WatchedSince(trace, events, j, k)
  }

  lemma NoKillInTime(trace: seq<World>, name: string, events: seq<Event>, gap: Time, j: nat, k: nat)
    requires IsRun(trace, name, events) && CancelsAt(trace, events, j) && j < k < |events|
    requires OnTimeSince(events, gap, j, k) && WatchedSince(trace, events, j, k)
    requires 0 <= gap && 2 * gap + PING_TIMEOUT <= KILL_GRACE
    ensures !KillsAt(trace, events, k)
  {
    if events[k].Ticked? {
      SinceCancel(trace, name, events, gap, j, k);
      var states, later, m := trace[j + 1..k + 2], events[j + 1..k + 1], k - j - 1;
      assert states[m] == trace[k] && later[m] == events[k];
      RearmedInTime(states, name, later, events[j].now, gap, m);
    }
  }

  /** An unresponsive suite that stays monitored can be killed exactly when checks
      may be further apart than half of what the kill grace leaves after a ping:
      2.5 seconds, where the watchdog ticks every 2. */
  lemma KillNeedsSlowChecks(gap: Time)
    requires 0 <= gap
    ensures KillReachable(gap) <==> 2 * gap + PING_TIMEOUT > KILL_GRACE
  {
    if 2 * gap + PING_TIMEOUT > KILL_GRACE {
      if gap <= PING_TIMEOUT { FourChecksKill(gap); } else { TwoChecksKill(gap); }
    } else if KillReachable(gap) {
      var trace, name, events, j, k :| FreshRun(trace, name, events) && CancelsAt(trace, events, j)
        && KillsAt(trace, events, k) && j < k && OnTimeSince(events, gap, j, k) && WatchedSince(trace, events, j, k);
      NoKillInTime(trace, name, events, gap, j, k);
    }
  }

  // ----- when a kill is decided -----

  /** The cancel of check `j` is still recorded at event `k`: no check in between
      sent another, and none found the suite monitored, not silent and within the
      kill grace of it. */
  ghost predicate StandingCancel(trace: seq<World>, events: seq<Event>, j: nat, k: nat)
    requires k <= |events| < |trace|
  {
    && j < k && CancelsAt(trace, events, j)
    && forall m {:trigger Forgets(trace, events, j, m)} :: j < m < k ==> !Forgets(trace, events, j, m)
  }

  /** Check `m` replaces or clears the cancel time of check `j`. */
  ghost predicate Forgets(trace: seq<World>, events: seq<Event>, j: nat, m: nat)
    requires j < m < |events| < |trace|
  {
    events[m].Ticked? && (CancelsAt(trace, events, m) ||
      (events[j].Ticked? && Monitored(trace[m].suite) && !Silent(trace[m].suite, events[m].now)
       && events[m].now - events[j].now <= KILL_GRACE))
  }

  lemma {:induction false} CancelStands(trace: seq<World>, name: string, events: seq<Event>, j: nat, k: nat)
    requires IsRun(trace, name, events) && k <= |events| && StandingCancel(trace, events, j, k)
    ensures trace[k].suite.cancelSentAt == Some(events[j].now)
  {
    assert Follows(trace, name, events, k - 1);
    TimersAfter(trace[k - 1], name, events[k - 1]);
    if j < k - 1 {
      CancelStands(trace, name, events, j, k - 1);
      assert !Forgets(trace, events, j, k - 1);
    }
  }

  lemma {:induction false} CancelHasOrigin(trace: seq<World>, name: string, events: seq<Event>, k: nat) returns (j: nat)
    requires IsRun(trace, name, events) && k <= |events|
    requires trace[0].suite.cancelSentAt.None? && trace[k].suite.cancelSentAt.Some?
    ensures StandingCancel(trace, events, j, k) && events[j].now == trace[k].suite.cancelSentAt.value
  {
    assert Follows(trace, name, events, k - 1);
    TimersAfter(trace[k - 1], name, events[k - 1]);
    if CancelsAt(trace, events, k - 1) {
      j := k - 1;
    } else {
      j := CancelHasOrigin(trace, name, events, k - 1);
      assert !Forgets(trace, events, j, k - 1);
    }
  }

  /** Over every run from a fresh start: a check kills the suite as unresponsive
      exactly when it finds it monitored and a cancel stands that is older than the
      kill grace. What the suite has printed since does not matter. */
  lemma KillsExactly(trace: seq<World>, name: string, events: seq<Event>, k: nat)
    requires FreshRun(trace, name, events) && k < |events| && events[k].Ticked?
    ensures trace[k] == Run(trace[0], name, events[..k])
    ensures KillsAt(trace, events, k) <==>
      Monitored(trace[k].suite)
      && exists j: nat :: StandingCancel(trace, events, j, k) && events[k].now - events[j].now > KILL_GRACE
  {
    TraceIsRun(trace, name, events, k);
    if trace[k].suite.cancelSentAt.Some? {
      var j := CancelHasOrigin(trace, name, events, k);
      assert StandingCancel(trace, events, j, k);
    }
    forall j: nat | StandingCancel(trace, events, j, k) ensures trace[k].suite.cancelSentAt == Some(events[j].now) {
      CancelStands(trace, name, events, j, k);
    }
  }

  /** Up to event `k`, each check comes at most `gap` after the check before it;
      the first may come at any time. */
  ghost predicate SpacedUntil(events: seq<Event>, gap: Time, k: nat)
    requires k < |events|
  {
    forall f, m {:trigger events[f], OnTime(0, events, gap, m)} :: 0 <= f < m <= k && events[f].Ticked? ==>
      OnTime(0, events, gap, m)
  }

  /** With checks at most 2.5 seconds apart, a suite that is killed as unresponsive
      was found not monitored by some check after the cancel: it had finished the
      batch, left Busy or been restarted, and is killed for a cancel it outlived. */
  lemma KillNeedsLapse(trace: seq<World>, name: string, events: seq<Event>, gap: Time, k: nat) returns (j: nat, m: nat)
    requires FreshRun(trace, name, events) && KillsAt(trace, events, k)
    requires 0 <= gap && 2 * gap + PING_TIMEOUT <= KILL_GRACE && SpacedUntil(events, gap, k)
    ensures StandingCancel(trace, events, j, k) && events[k].now - events[j].now > KILL_GRACE
    ensures j < m < k && events[m].Ticked? && !Monitored(trace[m].suite)
  {
    j := CancelHasOrigin(trace, name, events, k);
    assert events[j].Ticked?;
    assert Watched(trace, events, k);
    if WatchedSince(trace, events, j, k) {
      NoKillInTime(trace, name, events, gap, j, k);
    }
    m :| j < m <= k && !Watched(trace, events, m);
  }

  // ----- silence is answered -----

  /** Over every run from a fresh start: a check pings exactly when it finds the
      suite monitored, the last line read older than the silence limit, no ping
      recorded and no cancel older than the kill grace. */
  lemma PingsExactly(trace: seq<World>, name: string, events: seq<Event>, k: nat)
    requires FreshRun(trace, name, events) && k < |events| && events[k].Ticked?
    ensures Decide(trace[k].suite, events[k].now) == SendPing <==>
      && Monitored(trace[k].suite) && trace[k].suite.pingSentAt.None? && !CancelExpired(trace[k].suite, events[k].now)
      && events[k].now - LastOutput(trace[0].suite.lastEventAt, events, k) > SILENCE_LIMIT
  {
    LastEventIsLastOutput(trace, name, events, k);
  }

  /** A run in which the suite prints nothing, with checks at most `gap` apart,
      each finding it monitored; the check before came no later than the silence
      limit after its last line, and a ping recorded by then is not younger. */
  ghost predicate SilentRun(trace: seq<World>, name: string, events: seq<Event>, from: Time, gap: Time) {
    && IsRun(trace, name, events) && from <= trace[0].suite.lastEventAt + SILENCE_LIMIT
    && PingedBy(trace[0].suite, from)
    && forall k :: 0 <= k < |events| ==> SilentStep(trace, events, from, gap, k)
  }

  ghost predicate SilentStep(trace: seq<World>, events: seq<Event>, from: Time, gap: Time, k: nat)
    requires k < |events| < |trace|
  {
    !events[k].Printed? && OnTime(from, events, gap, k) && Watched(trace, events, k)
  }

  predicate PingedBy(s: SuiteValue, time: Time) { s.pingSentAt.Some? ==> s.pingSentAt.value <= time }

  /** Check `m` cancels the batch or kills the suite. */
  ghost predicate AnswersAt(trace: seq<World>, events: seq<Event>, m: nat) {
    CancelsAt(trace, events, m) || KillsAt(trace, events, m)
  }

  /** While silence has not been answered: the last check came in time, or a ping
      was sent in time. */
  predicate Waiting(s: SuiteValue, t: Time, tick: Time, gap: Time) {
    && s.lastEventAt == t && PingedBy(s, t + SILENCE_LIMIT + gap)
    && (tick <= t + SILENCE_LIMIT || s.pingSentAt.Some?)
  }

  lemma TickKeepsWaiting(s: SuiteValue, t: Time, tick: Time, gap: Time, now: Time)
    requires Waiting(s, t, tick, gap) && Monitored(s) && 0 <= gap && tick <= now <= tick + gap
    requires !Decide(s, now).SendCancel? && Decide(s, now) != KillUnresponsive
    ensures Waiting(Tick(s, now), t, now, gap) && now <= t + SILENCE_LIMIT + gap + PING_TIMEOUT
  {
  }

  lemma {:induction false} StaysWaiting(trace: seq<World>, name: string, events: seq<Event>, from: Time, gap: Time,
                                        k: nat)
    requires SilentRun(trace, name, events, from, gap) && 0 <= gap && k <= |events|
    requires forall m: nat :: m < k ==> !AnswersAt(trace, events, m)
    ensures Waiting(trace[k].suite, trace[0].suite.lastEventAt, LastTick(from, events, k), gap)
  {
    if k > 0 {
      var e := events[k - 1];
      StaysWaiting(trace, name, events, from, gap, k - 1);
      assert Follows(trace, name, events, k - 1) && SilentStep(trace, events, from, gap, k - 1);
      assert !AnswersAt(trace, events, k - 1);
      TimersAfter(trace[k - 1], name, e);
      if e.Ticked? {
        TickKeepsWaiting(trace[k - 1].suite, trace[0].suite.lastEventAt, LastTick(from, events, k - 1), gap, e.now);
      }
    }
  }

  /** A monitored suite that has gone silent is pinged and then cancelled: no check
      later than the silence limit, the ping timeout and one gap after its last line
      is the first to act on it. */
  lemma SilenceIsAnswered(trace: seq<World>, name: string, events: seq<Event>, from: Time, gap: Time, k: nat)
    requires SilentRun(trace, name, events, from, gap) && 0 <= gap && k < |events| && events[k].Ticked?
    requires events[k].now > trace[0].suite.lastEventAt + SILENCE_LIMIT + PING_TIMEOUT + gap
    ensures exists m: nat :: m <= k && AnswersAt(trace, events, m)
  {
    if forall m: nat :: m < k ==> !AnswersAt(trace, events, m) {
      StaysWaiting(trace, name, events, from, gap, k);
      assert SilentStep(trace, events, from, gap, k);
      ActsNow(trace[k].suite, trace[0].suite.lastEventAt, LastTick(from, events, k), gap, events[k].now);
      assert AnswersAt(trace, events, k);
    }
  }

  lemma ActsNow(s: SuiteValue, t: Time, tick: Time, gap: Time, now: Time)
    requires Waiting(s, t, tick, gap) && Monitored(s) && 0 <= gap && tick <= now <= tick + gap
    requires now > t + SILENCE_LIMIT + gap + PING_TIMEOUT
    ensures Decide(s, now).SendCancel? || Decide(s, now) == KillUnresponsive
  {
  }

  // ----- the build timeout -----

  /** Event `k` is a check that decides to kill a suite as never ready. */
  ghost predicate KillsBuildAt(trace: seq<World>, events: seq<Event>, k: nat) {
    k < |events| < |trace| && events[k].Ticked? && Decide(trace[k].suite, events[k].now) == KillBuilding
  }

  /** Over every run from a fresh start: a check kills the suite as never ready
      exactly when it finds it building and the last line read, of this process or
      of one before it, is older than the build timeout. How long the suite has
      been building does not matter. */
  lemma BuildKillsExactly(trace: seq<World>, name: string, events: seq<Event>, k: nat)
    requires FreshRun(trace, name, events) && k < |events| && events[k].Ticked?
    ensures KillsBuildAt(trace, events, k) <==>
      trace[k].suite.state == Building
      && events[k].now - LastOutput(trace[0].suite.lastEventAt, events, k) > BUILD_TIMEOUT
  {
    LastEventIsLastOutput(trace, name, events, k);
  }

  // ----- runs that are killed -----

  /** A run from a fresh start at 0 that ends in `s`, its last check at `last`. */
  ghost predicate ReachedBy(trace: seq<World>, name: string, events: seq<Event>, s: SuiteValue, last: Time) {
    && IsRun(trace, name, events) && trace[0] == Initial(0) && trace[|events|].suite == s
    && LastTick(0, events, |events|) == last
  }

  /** Every check of the run comes at most `gap` after the one before it. */
  ghost predicate Paced(events: seq<Event>, gap: Time) {
    forall m {:trigger OnTime(0, events, gap, m)} :: 0 <= m < |events| ==> OnTime(0, events, gap, m)
  }

  lemma {:induction false} LastTickSame(events: seq<Event>, e: Event, m: nat)
    requires m <= |events|
    ensures LastTick(0, events + [e], m) == LastTick(0, events, m)
  {
    if m > 0 { LastTickSame(events, e, m - 1); }
  }

  lemma OneMore(trace: seq<World>, name: string, events: seq<Event>, s: SuiteValue, last: Time, e: Event,
                s': SuiteValue)
    returns (trace': seq<World>, events': seq<Event>)
    requires ReachedBy(trace, name, events, s, last)
    requires !e.ReloadEnded? && (e.ReloadBegan? ==> s.queue == [])
    requires s' == After(s, map[], name, e)
    ensures ReachedBy(trace', name, events', s', if e.Ticked? then e.now else last)
    ensures events' == events + [e] && |trace'| == |trace| + 1 && trace <= trace'
  {
    trace', events' := trace + [Step(trace[|events|], name, e)], events + [e];
    forall k | 0 <= k < |events'| ensures Follows(trace', name, events', k) {
      if k < |events| { assert Follows(trace, name, events, k); }
    }
    LastTickSame(events, e, |events|);
  }

  /** One more event in time. */
  lemma PacedMore(trace: seq<World>, name: string, events: seq<Event>, s: SuiteValue, last: Time, gap: Time, e: Event,
                  s': SuiteValue)
    returns (trace': seq<World>, events': seq<Event>)
    requires ReachedBy(trace, name, events, s, last) && Paced(events, gap)
    requires !e.ReloadEnded? && (e.ReloadBegan? ==> s.queue == [])
    requires (e.Printed? ==> last <= e.at) && (e.Ticked? ==> last <= e.now <= last + gap)
    requires s' == After(s, map[], name, e)
    ensures ReachedBy(trace', name, events', s', if e.Ticked? then e.now else last) && Paced(events', gap)
    ensures events' == events + [e] && |trace'| == |trace| + 1 && trace <= trace'
  {
    trace', events' := OneMore(trace, name, events, s, last, e, s');
    forall m | 0 <= m < |events'| ensures OnTime(0, events', gap, m) {
      LastTickSame(events, e, m);
      if m < |events| { assert OnTime(0, events, gap, m); }
    }
  }

  const CADENCE: Time := 2 * SECOND

  function CheckTime(last: Time, i: nat): Time { last + i * CADENCE }

  predicate Unmoved(s: SuiteValue, now: Time) { Tick(s, now) == s }

  /** Checks at the watchdog's cadence that change nothing. */
  lemma {:induction false} IdleChecks(trace: seq<World>, name: string, events: seq<Event>, s: SuiteValue, last: Time,
                                      n: nat)
    returns (trace': seq<World>, events': seq<Event>)
    requires ReachedBy(trace, name, events, s, last) && Paced(events, CADENCE)
    requires forall i {:trigger CheckTime(last, i)} :: 0 < i <= n ==> Unmoved(s, CheckTime(last, i))
    ensures ReachedBy(trace', name, events', s, CheckTime(last, n)) && Paced(events', CADENCE)
  {
    trace', events' := trace, events;
    if n > 0 {
      trace', events' := IdleChecks(trace, name, events, s, last, n - 1);
      var now := CheckTime(last, n);
      assert Unmoved(s, now);
      trace', events' := PacedMore(trace', name, events', s, CheckTime(last, n - 1), CADENCE, Ticked(now), s);
    }
  }

  function Running(): SuiteValue {
    SuiteValue(Busy, [], Some(Batch("b1", [])), [], "t1", true, SECOND, None, None)
  }

  /** Started, ready, one batch running. */
  lemma RunningAt1(name: string) returns (trace: seq<World>, events: seq<Event>)
    ensures ReachedBy(trace, name, events, Running(), 0) && Paced(events, CADENCE)
  {
    var stopped := Initial(0).suite;
    var building := stopped.(state := Building);
    var idle := SuiteValue(Ready, [], None, [], "", true, 0, None, None);
    var sent := idle.(active := Some(Batch("b1", [])));
    trace, events := [Initial(0)], [];
    trace, events := PacedMore(trace, name, events, stopped, 0, CADENCE, StartedProcess, building);
    trace, events := PacedMore(trace, name, events, building, 0, CADENCE, Printed(ReadyEvent, 0), idle);
    trace, events := PacedMore(trace, name, events, idle, 0, CADENCE, Submitted("b1", []), sent);
    trace, events := PacedMore(trace, name, events, sent, 0, CADENCE, Printed(TestStart("t1"), SECOND), Running());
  }

  function Cancelled(ping: Option<Time>): SuiteValue {
    Running().(cancelSentAt := Some(18 * SECOND), pingSentAt := ping)
  }

  /** Then silence, checked every two seconds: pinged at 12 s, cancelled at 18 s. */
  lemma CancelledAt18(name: string) returns (trace: seq<World>, events: seq<Event>)
    ensures ReachedBy(trace, name, events, Cancelled(None), 18 * SECOND) && Paced(events, CADENCE)
    ensures |events| > 0 && CancelsAt(trace, events, |events| - 1)
  {
    trace, events := RunningAt1(name);
    trace, events := IdleChecks(trace, name, events, Running(), 0, 5);
    var pinged := Running().(pingSentAt := Some(12 * SECOND));
    trace, events := PacedMore(trace, name, events, Running(), 10 * SECOND, CADENCE, Ticked(12 * SECOND), pinged);
    trace, events := IdleChecks(trace, name, events, pinged, 12 * SECOND, 2);
    trace, events := PacedMore(trace, name, events, pinged, 16 * SECOND, CADENCE, Ticked(18 * SECOND), Cancelled(None));
  }

  /** A run with a cancel at event `j` and only checks in time and monitored since. */
  ghost predicate Watching(trace: seq<World>, name: string, events: seq<Event>, gap: Time, j: nat, s: SuiteValue,
                           last: Time) {
    && ReachedBy(trace, name, events, s, last) && CancelsAt(trace, events, j)
    && OnTimeSince(events, gap, j, |events| - 1) && WatchedSince(trace, events, j, |events| - 1)
  }

  lemma WatchMore(trace: seq<World>, name: string, events: seq<Event>, gap: Time, j: nat, s: SuiteValue, last: Time,
                  now: Time)
    returns (trace': seq<World>, events': seq<Event>)
    requires Watching(trace, name, events, gap, j, s, last) && Monitored(s) && last <= now <= last + gap
    ensures Watching(trace', name, events', gap, j, Tick(s, now), now)
    ensures |events'| == |events| + 1 && events'[|events|] == Ticked(now) && trace'[|events|].suite == s
  {
    trace', events' := OneMore(trace, name, events, s, last, Ticked(now), Tick(s, now));
    forall m | j < m < |events'| ensures OnTime(0, events', gap, m) && Watched(trace', events', m) {
      LastTickSame(events, Ticked(now), m);
      if m < |events| { assert OnTime(0, events, gap, m) && Watched(trace, events, m); }
    }
  }

  lemma KillWhileWatching(trace: seq<World>, name: string, events: seq<Event>, gap: Time, j: nat, s: SuiteValue,
                          last: Time, now: Time)
    requires Watching(trace, name, events, gap, j, s, last) && last <= now <= last + gap
    requires Decide(s, now) == KillUnresponsive
    ensures KillReachable(gap)
  {
    var trace', events' := WatchMore(trace, name, events, gap, j, s, last, now);
    assert FreshRun(trace', name, events') && CancelsAt(trace', events', j) && KillsAt(trace', events', |events|);
  }

  lemma StartWatching(gap: Time) returns (trace: seq<World>, events: seq<Event>, j: nat)
    ensures Watching(trace, "suite", events, gap, j, Cancelled(None), 18 * SECOND)
  {
    trace, events := CancelledAt18("suite");
    j := |events| - 1;
  }

  /** Ping, wait, wait, kill. */
  lemma FourChecksKill(gap: Time)
    requires 2 * gap + PING_TIMEOUT > KILL_GRACE && gap <= PING_TIMEOUT
    ensures KillReachable(gap)
  {
    var c := 18 * SECOND;
    var pinged := Cancelled(Some(c + gap));
    var trace, events, j := StartWatching(gap);
    trace, events := WatchMore(trace, "suite", events, gap, j, Cancelled(None), c, c + gap);
    trace, events := WatchMore(trace, "suite", events, gap, j, pinged, c + gap, c + 2 * gap);
    trace, events := WatchMore(trace, "suite", events, gap, j, pinged, c + 2 * gap, c + gap + PING_TIMEOUT);
    KillWhileWatching(trace, "suite", events, gap, j, pinged, c + gap + PING_TIMEOUT, c + 2 * gap + PING_TIMEOUT);
  }

  /** Ping, kill: enough when checks may be more than the ping timeout apart. */
  lemma TwoChecksKill(gap: Time)
    requires gap > PING_TIMEOUT
    ensures KillReachable(gap)
  {
    var c := 18 * SECOND;
    var pinged := Cancelled(Some(c + PING_TIMEOUT + 1));
    var trace, events, j := StartWatching(gap);
    trace, events := WatchMore(trace, "suite", events, gap, j, Cancelled(None), c, c + PING_TIMEOUT + 1);
    KillWhileWatching(trace, "suite", events, gap, j, pinged, c + PING_TIMEOUT + 1, c + KILL_GRACE + 2);
  }

  /** At check `k` the suite's last line is younger than `age`. */
  ghost predicate SpokeWithin(trace: seq<World>, events: seq<Event>, k: nat, age: Time) {
    k < |events| < |trace| && events[k].Ticked? && events[k].now - trace[k].suite.lastEventAt < age
  }

  /** Such a kill at the watchdog's own cadence: the suite is cancelled at 18 s,
      completes the batch at 19 s, is found idle by five checks, starts the next
      batch at 29 s and is killed by the check at 30 s. */
  lemma HealthySuiteKilled(name: string) returns (trace: seq<World>, events: seq<Event>, k: nat)
    ensures FreshRun(trace, name, events) && Paced(events, CADENCE)
    ensures KillsAt(trace, events, k) && SpokeWithin(trace, events, k, CADENCE)
  {
    var b2 := Batch("b2", []);
    trace, events := CancelledAt18(name);
    var answered := SuiteValue(Ready, [], None, [], "", true, 19 * SECOND, None, Some(18 * SECOND));
    trace, events := PacedMore(trace, name, events, Cancelled(None), 18 * SECOND, CADENCE,
                               Printed(BatchComplete, 19 * SECOND), answered);
    trace, events := IdleChecks(trace, name, events, answered, 18 * SECOND, 5);
    var ready := answered.(active := Some(b2));
    trace, events := PacedMore(trace, name, events, answered, 28 * SECOND, CADENCE, Submitted("b2", []), ready);
    var again := SuiteValue(Busy, [], Some(b2), [], "t2", true, 29 * SECOND, None, Some(18 * SECOND));
    trace, events := PacedMore(trace, name, events, ready, 28 * SECOND, CADENCE,
                               Printed(TestStart("t2"), 29 * SECOND), again);
    k := |events|;
    var now := 30 * SECOND;
    trace, events := PacedMore(trace, name, events, again, 28 * SECOND, CADENCE, Ticked(now), Tick(again, now));
  }

  function Quiet(state: SuiteState): SuiteValue { SuiteValue(state, [], None, [], "", true, 0, None, None) }

  /** Ready at 0 s, and found idle by every check up to 300 s. */
  lemma IdleAt300(name: string) returns (trace: seq<World>, events: seq<Event>)
    ensures ReachedBy(trace, name, events, Quiet(Ready), 300 * SECOND) && Paced(events, CADENCE)
  {
    var stopped := Initial(0).suite;
    var building := stopped.(state := Building);
    trace, events := [Initial(0)], [];
    trace, events := PacedMore(trace, name, events, stopped, 0, CADENCE, StartedProcess, building);
    trace, events := PacedMore(trace, name, events, building, 0, CADENCE, Printed(ReadyEvent, 0), Quiet(Ready));
    trace, events := IdleChecks(trace, name, events, Quiet(Ready), 0, 150);
  }

  /** A suite reloaded after five quiet minutes, at the watchdog's cadence: the next
      check, at 302 s and the first since the start, kills it as never ready. */
  lemma ReloadedSuiteKilled(name: string) returns (trace: seq<World>, events: seq<Event>, k: nat)
    ensures FreshRun(trace, name, events) && Paced(events, CADENCE)
    ensures k > 0 && KillsBuildAt(trace, events, k) && events[k - 1] == StartedProcess
  {
    var last, now := 300 * SECOND, 302 * SECOND;
    trace, events := IdleAt300(name);
    trace, events := PacedMore(trace, name, events, Quiet(Ready), last, CADENCE, ReloadBegan(0), Quiet(Ready));
    trace, events := PacedMore(trace, name, events, Quiet(Ready), last, CADENCE, StoppedProcess, Quiet(Stopped));
    trace, events := PacedMore(trace, name, events, Quiet(Stopped), last, CADENCE, OutputClosed, Quiet(Stopped));
    trace, events := PacedMore(trace, name, events, Quiet(Stopped), last, CADENCE, StartedProcess, Quiet(Building));
    k := |events|;
    trace, events := PacedMore(trace, name, events, Quiet(Building), last, CADENCE, Ticked(now), Quiet(Building));
  }
}
