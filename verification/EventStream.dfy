/** The replay buffer and live subscribers of the compat server
    (compat/server.go): Broadcast, ResetRun, the registration and replay of
    serveEvents, and the buffer clear of serveReset. */
module EventStream {
  import opened Wrappers
  import opened Order

  /** An event line; `suite` is its suite field when it parses as JSON. */
  datatype Message = Message(text: string, suite: Option<string>)

  const MAX_REPLAY: nat := 10_000
  const CHANNEL_CAPACITY: nat := 256

  // ----- what each region does -----

  /** The buffer after a broadcast: the oldest event makes room when it is full. */
  function Push(buf: seq<Message>, m: Message): seq<Message> {
    (if |buf| >= MAX_REPLAY then buf[1..] else buf) + [m]
  }

  predicate OfSuites(m: Message, suites: seq<string>) { m.suite.Some? && m.suite.value in suites }

  /** The events a partial reset keeps. */
  function KeepOthers(buf: seq<Message>, suites: seq<string>): (kept: seq<Message>)
    ensures |kept| <= |buf|
  {
    if buf == [] then []
    else
      var init, last := buf[..|buf| - 1], buf[|buf| - 1];
      KeepOthers(init, suites) + if OfSuites(last, suites) then [] else [last]
  }

  /** `kept` is what is left of `buf` when the events with the property are taken out. */
  ghost predicate Without(buf: seq<Message>, kept: seq<Message>, gone: Message -> bool, at: seq<nat>) {
    && Subsequence(kept, buf, at) && (forall m :: m in kept ==> !gone(m))
    && forall i :: 0 <= i < |buf| && i !in at ==> gone(buf[i])
  }

  lemma WithoutSnoc(buf: seq<Message>, kept: seq<Message>, gone: Message -> bool, at: seq<nat>, last: Message)
    requires Without(buf, kept, gone, at)
    ensures gone(last) ==> Without(buf + [last], kept, gone, at)
    ensures !gone(last) ==> Without(buf + [last], kept + [last], gone, at + [|buf|])
  {
    var more, all := at + [|buf|], buf + [last];
    forall i | 0 <= i < |all| && i !in more ensures gone(all[i]) {
      PlaceKept(at, |buf|, i);
    }
  }

  lemma PlaceKept(at: seq<nat>, n: nat, i: nat)
    requires i !in at + [n]
    ensures i !in at && i != n
  {
    assert (at + [n])[|at|] == n;
    assert forall k :: 0 <= k < |at| ==> (at + [n])[k] == at[k];
  }

  /** The events of the suites. */
  function SuiteTest(suites: seq<string>): Message -> bool { (m: Message) => OfSuites(m, suites) }

  /** A partial reset drops exactly the events of the reset suites. */
  lemma {:induction false} ResetDropsSuites(buf: seq<Message>, suites: seq<string>) returns (at: seq<nat>)
    ensures Without(buf, KeepOthers(buf, suites), SuiteTest(suites), at)
  {
    if buf == [] {
      at := [];
    } else {
      var init, last := buf[..|buf| - 1], buf[|buf| - 1];
      assert buf == init + [last];
      at := ResetDropsSuites(init, suites);
      WithoutSnoc(init, KeepOthers(init, suites), SuiteTest(suites), at, last);
      if OfSuites(last, suites) {
        assert KeepOthers(buf, suites) == KeepOthers(init, suites);
      } else {
        at := at + [|init|];
      }
    }
  }

  /** A broadcast adds its event at the end, and only the oldest makes room for it,
      when there are ten thousand. */
  lemma PushKeepsLatest(buf: seq<Message>, m: Message)
    ensures var now := Push(buf, m); var all := buf + [m];
      && now == all[|all| - |now|..] && now[|now| - 1] == m
      && |now| == if |buf| >= 10_000 then |buf| else |buf| + 1
  {
  }

  /** The buffer after ResetRun; no suites means a full reset. */
  function Reset(buf: seq<Message>, suites: seq<string>, marker: Message): seq<Message> {
    (if suites == [] then [] else KeepOthers(buf, suites)) + [marker]
  }

  /** A send that never blocks: dropped when the channel is full. */
  function Offer(channel: seq<Message>, m: Message): seq<Message> {
    if |channel| < CHANNEL_CAPACITY then channel + [m] else channel
  }

  // ----- the server object -----

  class Server {
    var buf: seq<Message>
    var clients: map<nat, seq<Message>>  // live channels, by client

    constructor ()
      ensures buf == [] && clients == map[]
    {
      buf, clients := [], map[];
    }

    /** The `for ch := range s.clients` send loop, in any order. */
    method SendAll(m: Message)
      modifies this`clients
      ensures clients == map c | c in old(clients) :: Offer(old(clients)[c], m)
    {
      var left := clients.Keys;
      while left != {}
        invariant left <= old(clients).Keys && clients.Keys == old(clients).Keys
        invariant forall c :: c in clients ==>
          clients[c] == if c in left then old(clients)[c] else Offer(old(clients)[c], m)
        decreases left
      {
        var c :| c in left;
        left := left - {c};
        if |clients[c]| < CHANNEL_CAPACITY {
          clients := clients[c := clients[c] + [m]];
        }
      }
    }

    method Broadcast(m: Message)
      modifies this
      ensures buf == Push(old(buf), m)
      ensures clients == map c | c in old(clients) :: Offer(old(clients)[c], m)
    {
      if |buf| >= MAX_REPLAY {
        buf := buf[1..];
      }
      buf := buf + [m];
      SendAll(m);
    }

    method ResetRun(suites: seq<string>, marker: Message)
      modifies this
      ensures buf == Reset(old(buf), suites, marker)
      ensures clients == map c | c in old(clients) :: Offer(old(clients)[c], marker)
    {
      if suites == [] {
        buf := [];
      } else {
        var kept: seq<Message> := [];
        for i := 0 to |buf|
          invariant unchanged(this)
          invariant kept == KeepOthers(buf[..i], suites)
        {
          assert buf[..i + 1][..i] == buf[..i];
          if !OfSuites(buf[i], suites) {
            kept := kept + [buf[i]];
          }
        }
        assert buf[..|buf|] == buf;
        buf := kept;
      }
      buf := buf + [marker];
      SendAll(marker);
    }

    /** Registration: the snapshot and the subscription are one region. */
    method Register(c: nat) returns (snapshot: seq<Message>)
      requires c !in clients
      modifies this`clients
      ensures snapshot == buf && clients == old(clients)[c := []]
    {
      snapshot, clients := buf, clients[c := []];
    }

    method Unregister(c: nat)
      modifies this`clients
      ensures clients == old(clients) - {c}
    {
      clients := clients - {c};
    }

    /** The client's receive from its channel. */
    method Receive(c: nat) returns (m: Option<Message>)
      requires c in clients
      modifies this`clients
      ensures old(clients)[c] == [] ==> m == None && clients == old(clients)
      ensures old(clients)[c] != [] ==>
        m == Some(old(clients)[c][0]) && clients == old(clients)[c := old(clients)[c][1..]]
    {
      if clients[c] == [] {
        return None;
      }
      m, clients := Some(clients[c][0]), clients[c := clients[c][1..]];
    }

    /** The last region of serveReset. */
    method ClearBuffer()
      modifies this`buf
      ensures buf == []
    {
      buf := [];
    }
  }

  // ----- whole runs -----

  datatype Event =
    | Broadcasted(message: Message)
    | ResetDone(suites: seq<string>, marker: Message)
    | Cleared
    | Connected(client: nat)
    | Delivered(client: nat)
    | Disconnected(client: nat)

  /** A connected client: what is left of its snapshot, its channel, and what it has been sent. */
  datatype Session = Session(snapshot: seq<Message>, channel: seq<Message>, written: seq<Message>)

  datatype World = World(buf: seq<Message>, sessions: map<nat, Session>)

  function Offered(sessions: map<nat, Session>, m: Message): map<nat, Session> {
    map c | c in sessions :: sessions[c].(channel := Offer(sessions[c].channel, m))
  }

  /** serveEvents writes its snapshot first, then what it receives. */
  function WriteNext(s: Session): Session {
    if s.snapshot != [] then s.(snapshot := s.snapshot[1..], written := s.written + [s.snapshot[0]])
    else if s.channel != [] then s.(channel := s.channel[1..], written := s.written + [s.channel[0]])
    else s
  }

  function Step(w: World, e: Event): World {
    match e
    case Broadcasted(m) => World(Push(w.buf, m), Offered(w.sessions, m))
    case ResetDone(suites, marker) => World(Reset(w.buf, suites, marker), Offered(w.sessions, marker))
    case Cleared => w.(buf := [])
    case Connected(c) => if c in w.sessions then w else w.(sessions := w.sessions[c := Session(w.buf, [], [])])
    case Delivered(c) => if c in w.sessions then w.(sessions := w.sessions[c := WriteNext(w.sessions[c])]) else w
    case Disconnected(c) => w.(sessions := w.sessions - {c})
  }

  function Run(w: World, events: seq<Event>): World {
    if events == [] then w else Step(Run(w, events[..|events| - 1]), events[|events| - 1])
  }

  const Start := World([], map[])

  /** The events published by a list of steps. */
  function Published(events: seq<Event>): seq<Message> {
    if events == [] then []
    else
      Published(events[..|events| - 1]) +
      match events[|events| - 1]
      case Broadcasted(m) => [m]
      case ResetDone(_, marker) => [marker]
      case _ => []
  }

  predicate Publishes(e: Event) { e.Broadcasted? || e.ResetDone? }

  /** Everything a client has been sent or still will be, if nothing more is published. */
  function Stream(s: Session): seq<Message> { s.written + s.snapshot + s.channel }

  /** The client stays connected through `events`. */
  ghost predicate Stays(c: nat, events: seq<Event>) {
    forall k :: 0 <= k < |events| ==> events[k] != Disconnected(c)
  }

  /** No publication of `events` finds the client's channel full. */
  ghost predicate NeverFull(w: World, c: nat, events: seq<Event>) {
    events == [] ||
    (var init := events[..|events| - 1];
     NeverFull(w, c, init) &&
     (Publishes(events[|events| - 1]) ==>
        var v := Run(w, init); c in v.sessions && |v.sessions[c].channel| < CHANNEL_CAPACITY))
  }

  lemma WriteNextKeepsStream(s: Session)
    ensures Stream(WriteNext(s)) == Stream(s)
  {
    if s.snapshot != [] {
      assert s.snapshot == [s.snapshot[0]] + s.snapshot[1..];
    } else if s.channel != [] {
      assert s.channel == [s.channel[0]] + s.channel[1..];
    }
  }

  /** One step appends what it publishes to a client's stream, unless its channel is full. */
  lemma StepStream(w: World, e: Event, c: nat)
    requires c in w.sessions && e != Disconnected(c)
    ensures c in Step(w, e).sessions
    ensures var s, s' := w.sessions[c], Step(w, e).sessions[c];
      Stream(s') == if Publishes(e) && |s.channel| < CHANNEL_CAPACITY
                    then Stream(s) + [if e.Broadcasted? then e.message else e.marker] else Stream(s)
  {
    var s := w.sessions[c];
    WriteNextKeepsStream(s);
    if Publishes(e) && |s.channel| < CHANNEL_CAPACITY {
      var m := if e.Broadcasted? then e.message else e.marker;
      assert s.written + s.snapshot + (s.channel + [m]) == s.written + s.snapshot + s.channel + [m];
    }
  }

  /** A client whose channel never fills gets everything published after it
      registered, exactly once and in order, behind what it had coming. */
  lemma {:induction false} StreamIsExact(w: World, c: nat, events: seq<Event>)
    requires c in w.sessions && Stays(c, events) && NeverFull(w, c, events)
    ensures c in Run(w, events).sessions
    ensures Stream(Run(w, events).sessions[c]) == Stream(w.sessions[c]) + Published(events)
  {
    if events == [] {
      assert Stream(w.sessions[c]) + [] == Stream(w.sessions[c]);
    } else {
      var init, e := events[..|events| - 1], events[|events| - 1];
      assert forall k :: 0 <= k < |init| ==> events[k] == init[k];
      StreamIsExact(w, c, init);
      assert e != Disconnected(c);
      StepStream(Run(w, init), e, c);
      if Publishes(e) {
        var m := if e.Broadcasted? then e.message else e.marker;
        assert Published(events) == Published(init) + [m];
        assert Stream(w.sessions[c]) + Published(init) + [m] == Stream(w.sessions[c]) + (Published(init) + [m]);
      } else {
        assert Published(events) == Published(init);
      }
    }
  }

  /** Replay, then live: whatever has happened since it connected, what a client
      has been sent is a prefix of the buffer at registration followed by every
      later event, and the rest is on its way. */
  lemma ReplayThenLive(before: seq<Event>, c: nat, after: seq<Event>)
    requires c !in Run(Start, before).sessions
    requires Stays(c, after) && NeverFull(Step(Run(Start, before), Connected(c)), c, after)
    ensures var w := Run(Step(Run(Start, before), Connected(c)), after);
      && c in w.sessions
      && Stream(w.sessions[c]) == Run(Start, before).buf + Published(after)
      && w.sessions[c].written <= Run(Start, before).buf + Published(after)
  {
    var w0 := Step(Run(Start, before), Connected(c));
    StreamIsExact(w0, c, after);
    var s := Run(w0, after).sessions[c];
    assert Stream(w0.sessions[c]) == Run(Start, before).buf;
    assert s.written <= Stream(s);
  }

  lemma SubsequenceSelf(xs: seq<Message>) returns (at: seq<nat>)
    ensures Subsequence(xs, xs, at)
  {
    at := seq(|xs|, k => k);
  }

  lemma SubsequenceGrows(xs: seq<Message>, ys: seq<Message>, at: seq<nat>, m: Message)
    requires Subsequence(xs, ys, at)
    ensures Subsequence(xs, ys + [m], at) && Subsequence(xs + [m], ys + [m], at + [|ys|])
  {
  }

  lemma SubsequencePast(xs: seq<Message>, had: seq<Message>, published: seq<Message>, at: seq<nat>, m: Message)
    requires Subsequence(xs, had + published, at)
    ensures Subsequence(xs, had + (published + [m]), at)
    ensures Subsequence(xs + [m], had + (published + [m]), at + [|had + published|])
  {
    SubsequenceGrows(xs, had + published, at, m);
    assert had + published + [m] == had + (published + [m]);
  }

  /** A slow client loses events but never sees one twice or out of order. */
  lemma {:induction false} SlowClientGetsSubsequence(w: World, c: nat, events: seq<Event>) returns (at: seq<nat>)
    requires c in w.sessions && Stays(c, events)
    ensures c in Run(w, events).sessions
    ensures Subsequence(Stream(Run(w, events).sessions[c]), Stream(w.sessions[c]) + Published(events), at)
  {
    var had := Stream(w.sessions[c]);
    if events == [] {
      assert had + [] == had;
      at := SubsequenceSelf(had);
    } else {
      var init, e := events[..|events| - 1], events[|events| - 1];
      assert forall k :: 0 <= k < |init| ==> events[k] == init[k];
      at := SlowClientGetsSubsequence(w, c, init);
      assert e != Disconnected(c);
      var s := Run(w, init).sessions[c];
      StepStream(Run(w, init), e, c);
      if Publishes(e) {
        var m := if e.Broadcasted? then e.message else e.marker;
        assert Published(events) == Published(init) + [m];
        SubsequencePast(Stream(s), had, Published(init), at, m);
        if |s.channel| < CHANNEL_CAPACITY {
          at := at + [|had + Published(init)|];
        }
      } else {
        assert Published(events) == Published(init);
      }
    }
  }

  // ----- the buffer bound -----

  /** Partial resets since the buffer was last emptied. */
  function PartialResets(events: seq<Event>): nat {
    if events == [] then 0
    else match events[|events| - 1]
      case ResetDone(suites, _) => if suites == [] then 0 else PartialResets(events[..|events| - 1]) + 1
      case Cleared => 0
      case _ => PartialResets(events[..|events| - 1])
  }

  lemma {:induction false} BufferBounded(events: seq<Event>)
    ensures |Run(Start, events).buf| <= MAX_REPLAY + PartialResets(events)
  {
    if events != [] {
      BufferBounded(events[..|events| - 1]);
    }
  }

  const RERUN := "suite"

  /** The cap alone is not a bound: each partial reset may add one, without limit. */
  lemma {:induction false} BufferBoundReached(n: nat) returns (events: seq<Event>)
    ensures PartialResets(events) == n
    ensures |Run(Start, events).buf| == MAX_REPLAY + n
    ensures forall m :: m in Run(Start, events).buf ==> !OfSuites(m, [RERUN])
  {
    if n == 0 {
      events := Fill(MAX_REPLAY);
    } else {
      var less := BufferBoundReached(n - 1);
      var e := ResetDone([RERUN], Message("run_reset", Some("")));
      events := less + [e];
      assert events[..|less|] == less;
      KeepsAll(Run(Start, less).buf, [RERUN]);
    }
  }

  lemma {:induction false} Fill(n: nat) returns (events: seq<Event>)
    requires n <= MAX_REPLAY
    ensures PartialResets(events) == 0 && |Run(Start, events).buf| == n
    ensures forall m :: m in Run(Start, events).buf ==> !OfSuites(m, [RERUN])
  {
    if n == 0 {
      events := [];
    } else {
      var less := Fill(n - 1);
      events := less + [Broadcasted(Message("event", Some("other")))];
      assert events[..|less|] == less;
    }
  }

  lemma {:induction false} KeepsAll(buf: seq<Message>, suites: seq<string>)
    requires forall m :: m in buf ==> !OfSuites(m, suites)
    ensures KeepOthers(buf, suites) == buf
  {
    if buf != [] {
      var init, last := buf[..|buf| - 1], buf[|buf| - 1];
      assert buf == init + [last];
      KeepsAll(init, suites);
    }
  }
}
