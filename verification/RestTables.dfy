/** The emitted REST tables: operation entries grouped by binding, candidate
    windows of shared bindings, and the flattened node and edge arrays
    (the second half of writeRESTTrie in cmd/awsmodelgen/main.go). */
module RestTables {
  import opened Order
  import opened RestUri
  import opened RestTrie

  // ----- table rows -----

  datatype TrieNode = TrieNode(
    literalStart: nat, literalEnd: nat, parameter: int, greedy: int,
    operationStart: nat, operationEnd: nat)

  datatype Edge = Edge(segment: string, node: nat)

  datatype Candidate = Candidate(modelService: string, operation: string)

  datatype Entry = Entry(
    key: Binding, modelService: string, signingName: string, operation: string,
    protocol: string, ambiguous: bool, candidateStart: nat, candidateEnd: nat)

  datatype Tables = Tables(
    nodes: seq<TrieNode>, edges: seq<Edge>, entries: seq<Entry>, candidates: seq<Candidate>)

  // ----- the sort inside a node -----

  predicate BindingLess(a: Binding, b: Binding) {
    if a.httpMethod != b.httpMethod then Less(a.httpMethod, b.httpMethod)
    else Less(b.query, a.query)
  }

  predicate NameLess(a: Candidate, b: Candidate) {
    if a.modelService != b.modelService then Less(a.modelService, b.modelService)
    else Less(a.operation, b.operation)
  }

  function CandidateOf(r: Route): Candidate { Candidate(r.op.service, r.op.name) }

  /** Method, then literal query descending, then service, then name. */
  predicate RouteLe(x: Route, y: Route) {
    if x.Key() != y.Key() then BindingLess(x.Key(), y.Key())
    else CandidateOf(x) == CandidateOf(y) || NameLess(CandidateOf(x), CandidateOf(y))
  }

  lemma BindingLessOrder(a: Binding, b: Binding, c: Binding)
    ensures a == b || BindingLess(a, b) || BindingLess(b, a)
    ensures !BindingLess(a, a)
    ensures BindingLess(a, b) && BindingLess(b, c) ==> BindingLess(a, c)
  {
    LessTotal(a.httpMethod, b.httpMethod);
    LessTotal(a.query, b.query);
    LessIrreflexive(a.query);
    if BindingLess(a, b) && BindingLess(b, c) {
      if a.httpMethod != b.httpMethod && b.httpMethod != c.httpMethod {
        LessTransitive(a.httpMethod, b.httpMethod, c.httpMethod);
        LessAsymmetric(a.httpMethod, b.httpMethod);
      } else if a.httpMethod == b.httpMethod == c.httpMethod {
        LessTransitive(c.query, b.query, a.query);
      }
    }
  }

  lemma NameLessOrder(a: Candidate, b: Candidate, c: Candidate)
    ensures a == b || NameLess(a, b) || NameLess(b, a)
    ensures !NameLess(a, a)
    ensures NameLess(a, b) && NameLess(b, c) ==> NameLess(a, c)
  {
    LessTotal(a.modelService, b.modelService);
    LessTotal(a.operation, b.operation);
    LessIrreflexive(a.operation);
    if NameLess(a, b) && NameLess(b, c) {
      if a.modelService != b.modelService && b.modelService != c.modelService {
        LessTransitive(a.modelService, b.modelService, c.modelService);
        LessAsymmetric(a.modelService, b.modelService);
      } else if a.modelService == b.modelService == c.modelService {
        LessTransitive(a.operation, b.operation, c.operation);
      }
    }
  }

  lemma RouteLeIsTotalPreorder()
    ensures TotalPreorder(RouteLe)
  {
    forall x: Route, y: Route ensures RouteLe(x, y) || RouteLe(y, x) {
      BindingLessOrder(x.Key(), y.Key(), x.Key());
      NameLessOrder(CandidateOf(x), CandidateOf(y), CandidateOf(x));
    }
    forall x: Route, y: Route, z: Route | RouteLe(x, y) && RouteLe(y, z) ensures RouteLe(x, z) {
      BindingLessOrder(x.Key(), y.Key(), z.Key());
      BindingLessOrder(y.Key(), x.Key(), y.Key());
      NameLessOrder(CandidateOf(x), CandidateOf(y), CandidateOf(z));
    }
  }

  // ----- what an entry must say about the operations of its node -----

  ghost predicate Bound(r: Route, routes: seq<Route>, key: Binding) {
    r in routes && r.Key() == key
  }

  ghost predicate SharedKey(routes: seq<Route>, key: Binding) {
    exists x, y :: Bound(x, routes, key) && Bound(y, routes, key) && x.op.service != y.op.service
  }

  /** The (service, name) pairs that declare `key`. */
  ghost function BoundCandidates(routes: seq<Route>, key: Binding): set<Candidate> {
    set r | r in routes && r.Key() == key :: CandidateOf(r)
  }

  /** The candidate window lists each pair bound to `key` once, in order. */
  ghost predicate WindowExact(window: seq<Candidate>, routes: seq<Route>, key: Binding) {
    && (forall i, j :: 0 <= i < j < |window| ==> NameLess(window[i], window[j]))
    && (set c | c in window) == BoundCandidates(routes, key)
  }

  /** An entry is exact for the operations that declare its binding. */
  ghost predicate EntryExact(e: Entry, routes: seq<Route>, candidates: seq<Candidate>) {
    && (e.ambiguous <==> SharedKey(routes, e.key))
    && (exists r :: Bound(r, routes, e.key) && r.op.name == e.operation && r.op.protocol == e.protocol
                    && (!e.ambiguous ==> r.op.signingName == e.signingName))
    && (!e.ambiguous ==>
      && e.candidateStart == e.candidateEnd == 0
      && forall r :: Bound(r, routes, e.key) ==> r.op.service == e.modelService && LessEq(e.operation, r.op.name))
    && (e.ambiguous ==>
      && e.modelService == "" && e.signingName == ""
      && e.candidateStart <= e.candidateEnd <= |candidates|
      && WindowExact(candidates[e.candidateStart..e.candidateEnd], routes, e.key))
  }

  ghost predicate AllExact(entries: seq<Entry>, routes: seq<Route>, candidates: seq<Candidate>) {
    forall k {:trigger EntryExact(entries[k], routes, candidates)} ::
      0 <= k < |entries| ==> EntryExact(entries[k], routes, candidates)
  }

  ghost predicate KeysIncreasing(entries: seq<Entry>) {
    forall i, j :: 0 <= i < j < |entries| ==> BindingLess(entries[i].key, entries[j].key)
  }

  ghost function RouteKeys(routes: seq<Route>): set<Binding> {
    set r | r in routes :: r.Key()
  }

  ghost function EntryKeys(entries: seq<Entry>): set<Binding> {
    set e | e in entries :: e.key
  }

  ghost predicate KeysCovered(entries: seq<Entry>, routes: seq<Route>) {
    EntryKeys(entries) == RouteKeys(routes)
  }

  /** One exact entry for each binding declared at a node, and no other. */
  ghost predicate EntriesExact(entries: seq<Entry>, routes: seq<Route>, candidates: seq<Candidate>) {
    AllExact(entries, routes, candidates) && KeysIncreasing(entries) && KeysCovered(entries, routes)
  }

  /** The candidate windows of the ambiguous entries, in entry order, each start
      where the one before ends, from `from` to `to`. */
  ghost predicate Tiles(entries: seq<Entry>, from: nat, to: nat) {
    if entries == [] then from == to
    else
      var init, last := entries[..|entries| - 1], entries[|entries| - 1];
      if last.ambiguous
      then last.candidateStart <= last.candidateEnd == to && Tiles(init, from, last.candidateStart)
      else Tiles(init, from, to)
  }

  lemma {:induction false} TilesAppend(a: seq<Entry>, b: seq<Entry>, from: nat, mid: nat, to: nat)
    requires Tiles(a, from, mid) && Tiles(b, mid, to)
    ensures Tiles(a + b, from, to)
  {
    if b == [] {
      assert a + b == a;
    } else {
      var init, last := b[..|b| - 1], b[|b| - 1];
      assert (a + b)[..|a + b| - 1] == a + init;
      TilesAppend(a, init, from, mid, if last.ambiguous then last.candidateStart else to);
    }
  }

  lemma {:induction false} TilesOrdered(entries: seq<Entry>, from: nat, to: nat)
    requires Tiles(entries, from, to)
    ensures from <= to
  {
    if entries != [] {
      var init, last := entries[..|entries| - 1], entries[|entries| - 1];
      TilesOrdered(init, from, if last.ambiguous then last.candidateStart else to);
    }
  }

  /** The candidate row `c` is in the window of entry `e`. */
  predicate InWindow(e: Entry, c: nat) { e.ambiguous && e.candidateStart <= c < e.candidateEnd }

  /** Windows that tile a range hold each of its rows exactly once, and no other. */
  lemma {:induction false} TilesHoldOnce(entries: seq<Entry>, from: nat, to: nat, c: nat) returns (k: nat)
    requires Tiles(entries, from, to)
    ensures from <= c < to ==> k < |entries| && InWindow(entries[k], c)
    ensures forall j :: 0 <= j < |entries| && InWindow(entries[j], c) ==> from <= c < to && j == k
  {
    k := 0;
    if entries != [] {
      var init, last := entries[..|entries| - 1], entries[|entries| - 1];
      var cut := if last.ambiguous then last.candidateStart else to;
      k := TilesHoldOnce(init, from, cut, c);
      TilesOrdered(init, from, cut);
      if InWindow(last, c) {
        k := |entries| - 1;
      }
      forall j | 0 <= j < |entries| && InWindow(entries[j], c) ensures from <= c < to && j == k {
        if j < |init| { assert entries[j] == init[j]; }
      }
    }
  }

  // ----- one group -----

  /** `collisionServices`: adjacent duplicates dropped. */
  method CollisionServices(group: seq<Operation>) returns (services: seq<string>)
    requires forall i, j :: 0 <= i < j < |group| ==> LessEq(group[i].service, group[j].service)
    ensures Increasing(services)
    ensures forall s :: s in services <==> exists k :: 0 <= k < |group| && group[k].service == s
  {
    services := [];
    for i := 0 to |group|
      invariant Increasing(services)
      invariant forall s :: s in services <==> exists k :: 0 <= k < i && group[k].service == s
      invariant i > 0 ==> |services| > 0 && services[|services| - 1] == group[i - 1].service
      invariant i == 0 ==> services == []
    {
      var was := services;
      if |services| == 0 || services[|services| - 1] != group[i].service {
        forall k | 0 <= k < |services| ensures Less(services[k], group[i].service) {
          if k < |services| - 1 {
            LessTransitive(services[k], services[|services| - 1], group[i].service);
          }
        }
        services := services + [group[i].service];
      }
      forall s ensures s in services <==> exists k :: 0 <= k < i + 1 && group[k].service == s {
        if s in services {
          if s in was {
            var k :| 0 <= k < i && group[k].service == s;
            assert k < i + 1;
          } else {
            assert group[i].service == s;
          }
        }
      }
    }
  }

  /** The candidate loop of a shared binding: exact duplicates are adjacent. */
  method EmitCandidates(group: seq<Route>, candidates: seq<Candidate>) returns (more: seq<Candidate>)
    requires forall i, j :: 0 <= i < j < |group| ==>
      CandidateOf(group[i]) == CandidateOf(group[j]) || NameLess(CandidateOf(group[i]), CandidateOf(group[j]))
    ensures candidates <= more
    ensures var window := more[|candidates|..];
      && (forall i, j :: 0 <= i < j < |window| ==> NameLess(window[i], window[j]))
      && (forall k :: 0 <= k < |group| ==> CandidateOf(group[k]) in window)
      && (forall c :: c in window ==> exists k :: 0 <= k < |group| && CandidateOf(group[k]) == c)
  {
    var window: seq<Candidate> := [];
    for i := 0 to |group|
      invariant forall i, j :: 0 <= i < j < |window| ==> NameLess(window[i], window[j])
      invariant forall k :: 0 <= k < i ==> CandidateOf(group[k]) in window
      invariant forall c :: c in window ==> exists k :: 0 <= k < i && CandidateOf(group[k]) == c
      invariant i == 0 ==> window == []
      invariant i > 0 ==> |window| > 0 && window[|window| - 1] == CandidateOf(group[i - 1])
    {
      var c := CandidateOf(group[i]);
      if |window| > 0 && window[|window| - 1] == c {
      } else {
        forall k | 0 <= k < |window| ensures NameLess(window[k], c) {
          NameLessOrder(window[k], window[|window| - 1], c);
        }
        window := window + [c];
      }
    }
    more := candidates + window;
    assert more[|candidates|..] == window;
  }

  /** The entry and candidates written for one run of equal bindings. */
  method EmitGroup(group: seq<Route>, candidates: seq<Candidate>)
    returns (e: Entry, more: seq<Candidate>)
    requires IsGroup(group)
    ensures candidates <= more
    ensures e.key == group[0].Key() && EntryExact(e, group, more)
    ensures Tiles([e], |candidates|, |more|)
  {
    var first := group[0];
    var operations := seq(|group|, k requires 0 <= k < |group| => group[k].op);
    var services := CollisionServices(operations);
    SharedIffTwoServices(group, operations, services);
    if |services| > 1 {
      more := EmitCandidates(group, candidates);
      e := Entry(first.Key(), "", "", first.op.name, first.op.protocol, true, |candidates|, |more|);
      SharedEntryExact(e, group, more);
      TilesOne(e, |candidates|, |more|);
    } else {
      more := candidates;
      e := Entry(first.Key(), first.op.service, first.op.signingName, first.op.name, first.op.protocol, false, 0, 0);
      SingleEntryExact(e, group, more);
      TilesOne(e, |candidates|, |more|);
    }
  }

  lemma TilesOne(e: Entry, from: nat, to: nat)
    requires if e.ambiguous then e.candidateStart == from <= e.candidateEnd == to else from == to
    ensures Tiles([e], from, to)
  {
    assert [e][..0] == [];
  }

  ghost predicate IsGroup(group: seq<Route>) {
    && |group| > 0
    && (forall k :: 0 <= k < |group| ==> group[k].Key() == group[0].Key())
    && (forall i, j :: 0 <= i < j < |group| ==>
      CandidateOf(group[i]) == CandidateOf(group[j]) || NameLess(CandidateOf(group[i]), CandidateOf(group[j])))
  }

  lemma SharedEntryExact(e: Entry, group: seq<Route>, more: seq<Candidate>)
    requires IsGroup(group) && SharedKey(group, group[0].Key())
    requires e.candidateStart <= e.candidateEnd == |more|
    requires e == Entry(group[0].Key(), "", "", group[0].op.name, group[0].op.protocol, true, e.candidateStart, |more|)
    requires var window := more[e.candidateStart..];
      && (forall i, j :: 0 <= i < j < |window| ==> NameLess(window[i], window[j]))
      && (forall k :: 0 <= k < |group| ==> CandidateOf(group[k]) in window)
      && (forall c :: c in window ==> exists k :: 0 <= k < |group| && CandidateOf(group[k]) == c)
    ensures EntryExact(e, group, more)
  {
    assert more[e.candidateStart..e.candidateEnd] == more[e.candidateStart..];
    WindowFromGroup(more[e.candidateStart..], group);
    assert Bound(group[0], group, e.key);
  }

  lemma SingleEntryExact(e: Entry, group: seq<Route>, more: seq<Candidate>)
    requires IsGroup(group) && !SharedKey(group, group[0].Key())
    requires var first := group[0].op;
      e == Entry(group[0].Key(), first.service, first.signingName, first.name, first.protocol, false, 0, 0)
    ensures EntryExact(e, group, more)
  {
    assert Bound(group[0], group, e.key);
    forall r | Bound(r, group, e.key) ensures r.op.service == e.modelService && LessEq(e.operation, r.op.name) {
      var k :| 0 <= k < |group| && group[k] == r;
      assert CandidateOf(group[0]) == CandidateOf(r) || NameLess(CandidateOf(group[0]), CandidateOf(r));
    }
  }

  lemma SharedIffTwoServices(group: seq<Route>, operations: seq<Operation>, services: seq<string>)
    requires |group| == |operations| > 0
    requires forall k :: 0 <= k < |group| ==> operations[k] == group[k].op && group[k].Key() == group[0].Key()
    requires Increasing(services)
    requires forall s :: s in services <==> exists k :: 0 <= k < |operations| && operations[k].service == s
    ensures |services| > 1 <==> SharedKey(group, group[0].Key())
  {
    var key := group[0].Key();
    if |services| > 1 {
      assert services[0] in services && services[1] in services;
      var a :| 0 <= a < |operations| && operations[a].service == services[0];
      var b :| 0 <= b < |operations| && operations[b].service == services[1];
      LessAsymmetric(services[0], services[1]);
      assert Bound(group[a], group, key) && Bound(group[b], group, key);
    }
    if SharedKey(group, key) {
      var x, y :| Bound(x, group, key) && Bound(y, group, key) && x.op.service != y.op.service;
      var a :| 0 <= a < |group| && group[a] == x;
      var b :| 0 <= b < |group| && group[b] == y;
      assert operations[a].service in services && operations[b].service in services;
    }
  }

  lemma WindowFromGroup(window: seq<Candidate>, group: seq<Route>)
    requires |group| > 0
    requires forall k :: 0 <= k < |group| ==> group[k].Key() == group[0].Key()
    requires forall i, j :: 0 <= i < j < |window| ==> NameLess(window[i], window[j])
    requires forall k :: 0 <= k < |group| ==> CandidateOf(group[k]) in window
    requires forall c :: c in window ==> exists k :: 0 <= k < |group| && CandidateOf(group[k]) == c
    ensures WindowExact(window, group, group[0].Key())
  {
    var key := group[0].Key();
    forall c ensures c in window <==> c in BoundCandidates(group, key) {
      if c in window {
        var k :| 0 <= k < |group| && CandidateOf(group[k]) == c;
        assert group[k] in group && group[k].Key() == key;
      }
      if c in BoundCandidates(group, key) {
        var r :| r in group && r.Key() == key && CandidateOf(r) == c;
        var k :| 0 <= k < |group| && group[k] == r;
      }
    }
  }

  // ----- all groups of a node -----

  /** An entry stays exact when routes of other bindings join or candidates are appended. */
  lemma EntryExactExtends(e: Entry, routes: seq<Route>, more: seq<Route>,
                          candidates: seq<Candidate>, longer: seq<Candidate>)
    requires EntryExact(e, routes, candidates) && candidates <= longer
    requires forall r :: Bound(r, more, e.key) <==> Bound(r, routes, e.key)
    ensures EntryExact(e, more, longer)
  {
    assert SharedKey(more, e.key) <==> SharedKey(routes, e.key);
    if e.ambiguous {
      assert BoundCandidates(more, e.key) == BoundCandidates(routes, e.key) by {
        assert forall r :: r in more && r.Key() == e.key <==> Bound(r, more, e.key);
        assert forall r :: r in routes && r.Key() == e.key <==> Bound(r, routes, e.key);
      }
      assert longer[e.candidateStart..e.candidateEnd] == candidates[e.candidateStart..e.candidateEnd];
    }
  }

  method SortRoutes(routes: seq<Route>) returns (xs: seq<Route>)
    ensures SortedBy(RouteLe, xs)
    ensures forall r :: r in xs <==> r in routes
  {
    RouteLeIsTotalPreorder();
    xs := Sort(routes, RouteLe);
    SameMembers(xs, routes);
  }

  lemma RunIsGroup(xs: seq<Route>, start: nat, end: nat)
    requires SortedBy(RouteLe, xs) && start < end <= |xs|
    requires forall k :: start < k < end ==> SameBinding(xs[start], xs[k])
    ensures IsGroup(xs[start..end])
  {
    var group := xs[start..end];
    forall k | 0 <= k < |group| ensures group[k].Key() == group[0].Key() {
      assert group[k] == xs[start + k];
    }
    forall i, j | 0 <= i < j < |group|
      ensures CandidateOf(group[i]) == CandidateOf(group[j]) || NameLess(CandidateOf(group[i]), CandidateOf(group[j]))
    {
      assert RouteLe(xs[start + i], xs[start + j]);
    }
  }

  /** The run-length loop over a node's sorted operations. */
  method EmitEntries(routes: seq<Route>, candidates: seq<Candidate>)
    returns (entries: seq<Entry>, more: seq<Candidate>)
    ensures candidates <= more
    ensures EntriesExact(entries, routes, more)
    ensures Tiles(entries, |candidates|, |more|)
  {
    var xs := SortRoutes(routes);
    entries, more := [], candidates;
    var start := 0;
    while start < |xs|
      invariant 0 <= start <= |xs|
      invariant candidates <= more
      invariant Emitted(entries, xs[..start], |candidates|, more)
      invariant start < |xs| ==> AllBelow(entries, xs[start].Key())
    {
      var end := RunEnd(xs, start, SameBinding);
      RunIsGroup(xs, start, end);
      var group := xs[start..end];
      var e, longer := EmitGroup(group, more);
      GroupEmitted(entries, xs[..start], |candidates|, more, e, group, longer);
      assert xs[..end] == xs[..start] + group;
      if end < |xs| {
        NextKeyAbove(xs, start, end);
        BelowNext(entries, e, xs[end].Key());
      }
      entries, more, start := entries + [e], longer, end;
    }
    assert xs[..start] == xs;
    EntriesExactSameMembers(entries, xs, routes, more);
  }

  /** The entries written for these routes, their candidates appended from `from` on. */
  ghost predicate Emitted(entries: seq<Entry>, routes: seq<Route>, from: nat, candidates: seq<Candidate>) {
    EntriesExact(entries, routes, candidates) && Tiles(entries, from, |candidates|)
  }

  lemma GroupEmitted(entries: seq<Entry>, routes: seq<Route>, from: nat, candidates: seq<Candidate>,
                     e: Entry, group: seq<Route>, longer: seq<Candidate>)
    requires Emitted(entries, routes, from, candidates) && candidates <= longer
    requires IsGroup(group) && e.key == group[0].Key() && EntryExact(e, group, longer)
    requires Tiles([e], |candidates|, |longer|) && AllBelow(entries, e.key)
    ensures Emitted(entries + [e], routes + group, from, longer)
  {
    forall r | r in group ensures r.Key() == e.key {
      var k :| 0 <= k < |group| && group[k] == r;
    }
    GroupAppends(entries, routes, candidates, e, group, longer);
    TilesAppend(entries, [e], from, |candidates|, |longer|);
  }

  lemma NextKeyAbove(xs: seq<Route>, start: nat, end: nat)
    requires SortedBy(RouteLe, xs) && start < end < |xs|
    requires !SameBinding(xs[start], xs[end])
    ensures BindingLess(xs[start].Key(), xs[end].Key())
  {
    assert RouteLe(xs[start], xs[end]);
  }

  ghost predicate AllBelow(entries: seq<Entry>, key: Binding) {
    forall k :: 0 <= k < |entries| ==> BindingLess(entries[k].key, key)
  }

  lemma BelowNext(entries: seq<Entry>, e: Entry, next: Binding)
    requires AllBelow(entries, e.key) && BindingLess(e.key, next)
    ensures AllBelow(entries + [e], next)
  {
    forall k | 0 <= k < |entries| ensures BindingLess(entries[k].key, next) {
      BindingLessOrder(entries[k].key, e.key, next);
    }
  }

  lemma EntriesExactSameMembers(entries: seq<Entry>, xs: seq<Route>, routes: seq<Route>, candidates: seq<Candidate>)
    requires EntriesExact(entries, xs, candidates)
    requires forall r :: r in xs <==> r in routes
    ensures EntriesExact(entries, routes, candidates)
  {
    assert RouteKeys(xs) == RouteKeys(routes);
    forall k | 0 <= k < |entries| ensures EntryExact(entries[k], routes, candidates) {
      EntryExactExtends(entries[k], xs, routes, candidates, candidates);
    }
  }

  lemma KeysBelow(entries: seq<Entry>, routes: seq<Route>, key: Binding)
    requires KeysCovered(entries, routes) && AllBelow(entries, key)
    ensures forall r :: r in routes ==> r.Key() != key
  {
    forall r | r in routes ensures r.Key() != key {
      assert r.Key() in EntryKeys(entries);
      BindingLessOrder(key, key, key);
    }
  }

  lemma OldEntriesExact(entries: seq<Entry>, routes: seq<Route>, candidates: seq<Candidate>,
                        key: Binding, group: seq<Route>, longer: seq<Candidate>)
    requires AllExact(entries, routes, candidates) && candidates <= longer && AllBelow(entries, key)
    requires forall r :: r in group ==> r.Key() == key
    ensures AllExact(entries, routes + group, longer)
  {
    forall k | 0 <= k < |entries| ensures EntryExact(entries[k], routes + group, longer) {
      BindingLessOrder(key, key, key);
      EntryExactExtends(entries[k], routes, routes + group, candidates, longer);
    }
  }

  lemma CoveredByGroup(entries: seq<Entry>, routes: seq<Route>, e: Entry, group: seq<Route>)
    requires KeysCovered(entries, routes) && group != []
    requires forall r :: r in group ==> r.Key() == e.key
    ensures KeysCovered(entries + [e], routes + group)
  {
    assert group[0] in group;
    assert EntryKeys(entries + [e]) == EntryKeys(entries) + {e.key};
    assert RouteKeys(routes + group) == RouteKeys(routes) + {e.key};
  }

  lemma NewEntryExact(e: Entry, routes: seq<Route>, group: seq<Route>, candidates: seq<Candidate>)
    requires EntryExact(e, group, candidates)
    requires forall r :: r in routes ==> r.Key() != e.key
    ensures EntryExact(e, routes + group, candidates)
  {
    forall r ensures Bound(r, routes + group, e.key) <==> Bound(r, group, e.key) {
      assert r in routes + group <==> r in routes || r in group;
    }
    EntryExactExtends(e, group, routes + group, candidates, candidates);
  }

  lemma AllExactAppend(entries: seq<Entry>, e: Entry, routes: seq<Route>, candidates: seq<Candidate>)
    requires AllExact(entries, routes, candidates) && EntryExact(e, routes, candidates)
    ensures AllExact(entries + [e], routes, candidates)
  {
    forall k | 0 <= k < |entries + [e]| ensures EntryExact((entries + [e])[k], routes, candidates) {
      assert (entries + [e])[k] == if k < |entries| then entries[k] else e;
    }
  }

  lemma GroupAppends(entries: seq<Entry>, routes: seq<Route>, candidates: seq<Candidate>,
                     e: Entry, group: seq<Route>, longer: seq<Candidate>)
    requires EntriesExact(entries, routes, candidates) && candidates <= longer
    requires EntryExact(e, group, longer) && group != []
    requires forall r :: r in group ==> r.Key() == e.key
    requires AllBelow(entries, e.key)
    ensures EntriesExact(entries + [e], routes + group, longer)
  {
    var all := routes + group;
    OldEntriesExact(entries, routes, candidates, e.key, group, longer);
    KeysBelow(entries, routes, e.key);
    NewEntryExact(e, routes, group, longer);
    AllExactAppend(entries, e, all, longer);
    CoveredByGroup(entries, routes, e, group);
  }
}
