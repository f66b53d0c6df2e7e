/** The REST collision table that writeRESTTrie emits beside the trie
    (cmd/awsmodelgen/main.go), and its agreement with the inventory. */
module RestCollisions {
  import opened Order
  import opened RestUri
  import opened RestTrie
  import opened RestTables
  import opened RestCompiler
  import opened IndexTables
  import opened Inventory

  datatype RestCollision = RestCollision(key: string, services: seq<string>)

  ghost function ServicesBound(routes: seq<Route>, key: Binding): set<string> {
    set r | r in routes && r.Key() == key :: r.op.service
  }

  /** The row for the binding of `r`, written when `r` came first. */
  ghost function RowOf(r: Route, routes: seq<Route>): RestCollision {
    RestCollision(NormalizedBinding(r.op), SortedList(ServicesBound(routes, r.Key())))
  }

  ghost predicate Shared(routes: seq<Route>, key: Binding) { |ServicesBound(routes, key)| > 1 }

  ghost function SharedKeys(routes: seq<Route>): set<Binding> {
    set r | r in routes && Shared(routes, r.Key()) :: r.Key()
  }

  ghost function KeysIn(routes: seq<Route>): set<Binding> { set r | r in routes :: r.Key() }

  /** Row `i` was written for `firsts[i]`, an operation of the node. */
  ghost predicate RowsOf(rows: seq<RestCollision>, firsts: seq<Route>, routes: seq<Route>) {
    && |rows| == |firsts|
    && forall i {:trigger firsts[i]} :: 0 <= i < |rows| ==> firsts[i] in routes && rows[i] == RowOf(firsts[i], routes)
  }

  /** The rows of one node: one for each binding that services share, in table order. */
  ghost predicate NodeRows(rows: seq<RestCollision>, firsts: seq<Route>, routes: seq<Route>) {
    RowsOf(rows, firsts, routes) && KeysIn(firsts) == SharedKeys(routes) && Ordered(firsts)
  }

  ghost predicate KeysBelow(routes: seq<Route>, key: Binding) {
    forall r {:trigger r in routes} :: r in routes ==> BindingLess(r.Key(), key)
  }

  ghost predicate AllBound(group: seq<Route>, key: Binding) {
    forall r {:trigger r in group} :: r in group ==> r.Key() == key
  }

  // ----- one run -----

  lemma BoundConcat(routes: seq<Route>, group: seq<Route>, key: Binding)
    ensures ServicesBound(routes + group, key) == ServicesBound(routes, key) + ServicesBound(group, key)
  {
    assert forall r :: r in routes + group <==> r in routes || r in group;
  }

  lemma OldBound(routes: seq<Route>, group: seq<Route>, new_: Binding, key: Binding)
    requires AllBound(group, new_) && key != new_
    ensures ServicesBound(routes + group, key) == ServicesBound(routes, key)
  {
    BoundConcat(routes, group, key);
    assert ServicesBound(group, key) == {};
  }

  lemma NewBound(routes: seq<Route>, group: seq<Route>, key: Binding)
    requires KeysBelow(routes, key)
    ensures ServicesBound(routes + group, key) == ServicesBound(group, key)
  {
    BoundConcat(routes, group, key);
    BindingLessOrder(key, key, key);
    assert ServicesBound(routes, key) == {};
  }

  lemma SharedAfter(routes: seq<Route>, group: seq<Route>, key: Binding)
    requires KeysBelow(routes, key) && AllBound(group, key) && group != []
    ensures SharedKeys(routes + group) == SharedKeys(routes) + if Shared(group, key) then {key} else {}
  {
    var all := routes + group;
    BindingLessOrder(key, key, key);
    NewBound(routes, group, key);
    assert group[0] in group && group[0] in all;
    forall k | k != key ensures k in SharedKeys(all) <==> k in SharedKeys(routes) {
      OldShared(routes, group, key, k);
    }
    assert key in SharedKeys(all) <==> Shared(group, key);
    assert key !in SharedKeys(routes);
  }

  lemma OldShared(routes: seq<Route>, group: seq<Route>, new_: Binding, key: Binding)
    requires AllBound(group, new_) && key != new_
    ensures key in SharedKeys(routes + group) <==> key in SharedKeys(routes)
  {
    OldBound(routes, group, new_, key);
    if key in SharedKeys(routes + group) {
      var r :| r in routes + group && Shared(routes + group, r.Key()) && r.Key() == key;
      assert r in routes;
    }
    if key in SharedKeys(routes) {
      var r :| r in routes && Shared(routes, r.Key()) && r.Key() == key;
      assert r in routes + group;
    }
  }

  lemma OldRows(rows: seq<RestCollision>, firsts: seq<Route>, routes: seq<Route>, group: seq<Route>, key: Binding)
    requires RowsOf(rows, firsts, routes) && KeysBelow(routes, key) && AllBound(group, key)
    ensures RowsOf(rows, firsts, routes + group)
  {
    BindingLessOrder(key, key, key);
    forall i | 0 <= i < |rows| ensures firsts[i] in routes + group && rows[i] == RowOf(firsts[i], routes + group) {
      assert firsts[i] in routes;
      OldBound(routes, group, key, firsts[i].Key());
    }
  }

  /** A run of a binding that services share, above all others, adds its row. */
  lemma SharedRunAdds(rows: seq<RestCollision>, firsts: seq<Route>, routes: seq<Route>, group: seq<Route>,
                      row: RestCollision)
    requires group != [] && NodeRows(rows, firsts, routes)
    requires var key := group[0].Key(); KeysBelow(routes, key) && AllBound(group, key) && Shared(group, key)
    requires row == RowOf(group[0], group)
    ensures NodeRows(rows + [row], firsts + [group[0]], routes + group)
  {
    var key := group[0].Key();
    OldRows(rows, firsts, routes, group, key);
    SharedAfter(routes, group, key);
    NewRow(routes, group);
    LastRow(rows, firsts, routes + group, group[0], row);
    KeysSnoc(firsts, group[0]);
    FirstsOrdered(firsts, routes, group[0]);
  }

  lemma NewRow(routes: seq<Route>, group: seq<Route>)
    requires group != [] && KeysBelow(routes, group[0].Key())
    ensures group[0] in routes + group && RowOf(group[0], routes + group) == RowOf(group[0], group)
  {
    NewBound(routes, group, group[0].Key());
    assert group[0] in group;
  }

  lemma KeysSnoc(firsts: seq<Route>, r: Route)
    ensures KeysIn(firsts + [r]) == KeysIn(firsts) + {r.Key()}
  {
    assert forall x :: x in firsts + [r] <==> x in firsts || x == r;
  }

  ghost predicate Ordered(firsts: seq<Route>) {
    forall i, j :: 0 <= i < j < |firsts| ==> BindingLess(firsts[i].Key(), firsts[j].Key())
  }

  lemma FirstsOrdered(firsts: seq<Route>, routes: seq<Route>, r: Route)
    requires Ordered(firsts) && KeysBelow(routes, r.Key())
    requires forall i {:trigger firsts[i]} :: 0 <= i < |firsts| ==> firsts[i] in routes
    ensures Ordered(firsts + [r])
  {
    var longer := firsts + [r];
    forall i, j | 0 <= i < j < |longer| ensures BindingLess(longer[i].Key(), longer[j].Key()) {
      assert longer[i] == firsts[i] && firsts[i] in routes;
    }
  }

  lemma LastRow(rows: seq<RestCollision>, firsts: seq<Route>, routes: seq<Route>, r: Route, row: RestCollision)
    requires RowsOf(rows, firsts, routes) && r in routes && row == RowOf(r, routes)
    ensures RowsOf(rows + [row], firsts + [r], routes)
  {
  }

  /** Any other run adds none. */
  lemma PlainRunAdds(rows: seq<RestCollision>, firsts: seq<Route>, routes: seq<Route>, group: seq<Route>)
    requires group != [] && NodeRows(rows, firsts, routes)
    requires var key := group[0].Key(); KeysBelow(routes, key) && AllBound(group, key) && !Shared(group, key)
    ensures NodeRows(rows, firsts, routes + group)
  {
    OldRows(rows, firsts, routes, group, group[0].Key());
    SharedAfter(routes, group, group[0].Key());
  }

  lemma RunAdds(rows: seq<RestCollision>, firsts: seq<Route>, routes: seq<Route>, group: seq<Route>,
                row: seq<RestCollision>)
    requires group != [] && NodeRows(rows, firsts, routes)
    requires var key := group[0].Key(); KeysBelow(routes, key) && AllBound(group, key)
    requires row == if Shared(group, group[0].Key()) then [RowOf(group[0], group)] else []
    ensures NodeRows(rows + row, firsts + (if row != [] then [group[0]] else []), routes + group)
  {
    if row != [] {
      SharedRunAdds(rows, firsts, routes, group, row[0]);
    } else {
      PlainRunAdds(rows, firsts, routes, group);
      assert rows + [] == rows && firsts + [] == firsts;
    }
  }

  lemma GroupServices(group: seq<Route>, ops: seq<Operation>, services: seq<string>)
    requires IsGroup(group) && |ops| == |group| && forall k :: 0 <= k < |group| ==> ops[k] == group[k].op
    requires Increasing(services)
    requires forall s :: s in services <==> exists k :: 0 <= k < |ops| && ops[k].service == s
    ensures services == SortedList(ServicesBound(group, group[0].Key()))
    ensures |services| == |ServicesBound(group, group[0].Key())|
  {
    var bound := ServicesBound(group, group[0].Key());
    forall s ensures s in services <==> s in bound {
      if s in services {
        var k :| 0 <= k < |ops| && ops[k].service == s;
        assert group[k] in group && group[k].Key() == group[0].Key();
      }
      if s in bound {
        var r :| r in group && r.op.service == s;
        var k :| 0 <= k < |group| && group[k] == r;
        assert ops[k].service == s;
      }
    }
    IncreasingUnique(services, SortedList(bound));
    IncreasingCount(services, bound);
  }

  /** The row of one run of equal bindings. */
  method EmitCollision(group: seq<Route>) returns (row: seq<RestCollision>)
    requires IsGroup(group)
    ensures row == if Shared(group, group[0].Key()) then [RowOf(group[0], group)] else []
  {
    var ops := seq(|group|, k requires 0 <= k < |group| => group[k].op);
    var services := CollisionServices(ops);
    GroupServices(group, ops, services);
    row := if |services| > 1 then [RestCollision(NormalizedBinding(group[0].op), services)] else [];
  }

  // ----- one node -----

  lemma StartBelow(xs: seq<Route>, start: nat, end: nat)
    requires SortedBy(RouteLe, xs) && start < end < |xs| && !SameBinding(xs[start], xs[end])
    requires KeysBelow(xs[..start], xs[start].Key())
    requires forall k :: start < k < end ==> SameBinding(xs[start], xs[k])
    ensures KeysBelow(xs[..end], xs[end].Key())
  {
    var key, next := xs[start].Key(), xs[end].Key();
    assert RouteLe(xs[start], xs[end]);
    forall r | r in xs[..end] ensures BindingLess(r.Key(), next) {
      var k :| 0 <= k < end && xs[k] == r;
      if k < start {
        assert r in xs[..start];
        BindingLessOrder(r.Key(), key, next);
      } else if k > start {
        assert SameBinding(xs[start], xs[k]);
      }
    }
  }

  lemma RunBound(xs: seq<Route>, start: nat, end: nat)
    requires start < end <= |xs| && forall k :: start < k < end ==> SameBinding(xs[start], xs[k])
    ensures AllBound(xs[start..end], xs[start].Key())
  {
    forall r | r in xs[start..end] ensures r.Key() == xs[start].Key() {
      var k :| 0 <= k < end - start && xs[start..end][k] == r;
      assert xs[start + k] == r;
    }
  }

  /** The collision rows written for the operations of one node. */
  method NodeCollisions(routes: seq<Route>) returns (rows: seq<RestCollision>, ghost firsts: seq<Route>)
    ensures NodeRows(rows, firsts, routes)
  {
    var xs := SortRoutes(routes);
    rows, firsts := [], [];
    var start := 0;
    while start < |xs|
      invariant 0 <= start <= |xs|
      invariant NodeRows(rows, firsts, xs[..start])
      invariant start < |xs| ==> KeysBelow(xs[..start], xs[start].Key())
    {
      var end := RunEnd(xs, start, SameBinding);
      RunIsGroup(xs, start, end);
      RunBound(xs, start, end);
      var group := xs[start..end];
      var row := EmitCollision(group);
      assert group[0] == xs[start] && xs[..end] == xs[..start] + group;
      RunAdds(rows, firsts, xs[..start], group, row);
      if end < |xs| {
        StartBelow(xs, start, end);
      }
      rows, firsts := rows + row, firsts + if row != [] then [group[0]] else [];
      start := end;
    }
    assert xs[..start] == xs;
    SameRows(rows, firsts, xs, routes);
  }

  lemma SameRows(rows: seq<RestCollision>, firsts: seq<Route>, xs: seq<Route>, routes: seq<Route>)
    requires NodeRows(rows, firsts, xs) && forall r :: r in xs <==> r in routes
    ensures NodeRows(rows, firsts, routes)
  {
    forall key ensures ServicesBound(xs, key) == ServicesBound(routes, key) {
    }
    assert SharedKeys(xs) == SharedKeys(routes);
  }

  // ----- all nodes -----

  /** A path and a binding: where the trie files an operation. */
  ghost function PlacesIn(routes: seq<Route>): set<(Path, Binding)> { set r | r in routes :: (r.path, r.Key()) }

  /** The places among these paths that services share. */
  ghost function SharedPlaces(routes: seq<Route>, paths: set<Path>): set<(Path, Binding)> {
    set r | r in routes && r.path in paths && Shared(OpsAt(routes, r.path), r.Key()) :: (r.path, r.Key())
  }

  /** In table order: an earlier node, or a smaller binding of the same node. */
  ghost predicate Earlier(a: Route, b: Route, flat: seq<Path>) {
    || (a.path == b.path && BindingLess(a.Key(), b.Key()))
    || exists m, n :: 0 <= m < n < |flat| && flat[m] == a.path && flat[n] == b.path
  }

  ghost predicate InTableOrder(firsts: seq<Route>, flat: seq<Path>) {
    forall i, j {:trigger firsts[i], firsts[j]} :: 0 <= i < j < |firsts| ==> Earlier(firsts[i], firsts[j], flat)
  }

  function PathSet(flat: seq<Path>): set<Path> { set p | p in flat }

  /** The rows of the table for the nodes written so far, in table order: one for
      each shared place, as an operation filed there spells its binding, with the
      services there. */
  ghost predicate TableRows(rows: seq<RestCollision>, firsts: seq<Route>, routes: seq<Route>, flat: seq<Path>) {
    && PlacesIn(firsts) == SharedPlaces(routes, PathSet(flat)) && InTableOrder(firsts, flat)
    && RowsFiled(rows, firsts, routes)
  }

  /** Row `i` was written for `firsts[i]`, with the services of its place. */
  ghost predicate RowsFiled(rows: seq<RestCollision>, firsts: seq<Route>, routes: seq<Route>) {
    && |rows| == |firsts|
    && forall i {:trigger firsts[i]} :: 0 <= i < |rows| ==>
      firsts[i] in routes && rows[i] == RowOf(firsts[i], OpsAt(routes, firsts[i].path))
  }

  lemma EarlierStays(a: Route, b: Route, flat: seq<Path>, p: Path)
    requires Earlier(a, b, flat)
    ensures Earlier(a, b, flat + [p])
  {
    if !(a.path == b.path && BindingLess(a.Key(), b.Key())) {
      var m, n :| 0 <= m < n < |flat| && flat[m] == a.path && flat[n] == b.path;
      assert (flat + [p])[m] == a.path && (flat + [p])[n] == b.path;
    }
  }

  lemma EarlierNode(a: Route, b: Route, flat: seq<Path>)
    requires a.path in flat
    ensures Earlier(a, b, flat + [b.path])
  {
    var m :| 0 <= m < |flat| && flat[m] == a.path;
    assert (flat + [b.path])[m] == a.path && (flat + [b.path])[|flat|] == b.path;
  }

  lemma OrderJoins(firsts: seq<Route>, others: seq<Route>, flat: seq<Path>, p: Path)
    requires InTableOrder(firsts, flat) && Ordered(others)
    requires forall i {:trigger firsts[i]} :: 0 <= i < |firsts| ==> firsts[i].path in flat
    requires forall i {:trigger others[i]} :: 0 <= i < |others| ==> others[i].path == p
    ensures InTableOrder(firsts + others, flat + [p])
  {
    var all := firsts + others;
    forall i, j | 0 <= i < j < |all| ensures Earlier(all[i], all[j], flat + [p]) {
      if j < |firsts| {
        EarlierStays(firsts[i], firsts[j], flat, p);
      } else if i < |firsts| {
        EarlierNode(firsts[i], others[j - |firsts|], flat);
      }
    }
  }

  lemma WrittenPaths(firsts: seq<Route>, routes: seq<Route>, flat: seq<Path>, i: nat)
    requires PlacesIn(firsts) == SharedPlaces(routes, PathSet(flat)) && i < |firsts|
    ensures firsts[i].path in flat
  {
    assert (firsts[i].path, firsts[i].Key()) in PlacesIn(firsts);
  }

  lemma NodeAdds(rows: seq<RestCollision>, firsts: seq<Route>, routes: seq<Route>, flat: seq<Path>, p: Path,
                 more: seq<RestCollision>, others: seq<Route>)
    requires TableRows(rows, firsts, routes, flat) && NodeRows(more, others, OpsAt(routes, p))
    ensures TableRows(rows + more, firsts + others, routes, flat + [p])
  {
    PlacesAdded(routes, PathSet(flat), p, others);
    PlacesJoin(firsts, others);
    assert PathSet(flat + [p]) == PathSet(flat) + {p};
    NodeOrder(firsts, routes, flat, p, others);
    NodeFiled(rows, firsts, routes, p, more, others);
  }

  lemma NodeOrder(firsts: seq<Route>, routes: seq<Route>, flat: seq<Path>, p: Path, others: seq<Route>)
    requires PlacesIn(firsts) == SharedPlaces(routes, PathSet(flat)) && InTableOrder(firsts, flat)
    requires forall i {:trigger others[i]} :: 0 <= i < |others| ==> others[i] in OpsAt(routes, p)
    requires Ordered(others)
    ensures InTableOrder(firsts + others, flat + [p])
  {
    forall i | 0 <= i < |firsts| ensures firsts[i].path in flat { WrittenPaths(firsts, routes, flat, i); }
    OrderJoins(firsts, others, flat, p);
  }

  lemma NodeFiled(rows: seq<RestCollision>, firsts: seq<Route>, routes: seq<Route>, p: Path,
                  more: seq<RestCollision>, others: seq<Route>)
    requires RowsFiled(rows, firsts, routes) && RowsOf(more, others, OpsAt(routes, p))
    ensures RowsFiled(rows + more, firsts + others, routes)
  {
    var all := firsts + others;
    forall i | 0 <= i < |all|
      ensures all[i] in routes && (rows + more)[i] == RowOf(all[i], OpsAt(routes, all[i].path))
    {
      if i >= |firsts| { NodeRow(routes, p, more, others, i - |firsts|); }
    }
  }

  lemma NodeRow(routes: seq<Route>, p: Path, more: seq<RestCollision>, others: seq<Route>, i: nat)
    requires RowsOf(more, others, OpsAt(routes, p)) && i < |others|
    ensures others[i] in routes && more[i] == RowOf(others[i], OpsAt(routes, others[i].path))
  {
    assert others[i] in OpsAt(routes, p);
  }

  lemma PlacesJoin(a: seq<Route>, b: seq<Route>)
    ensures PlacesIn(a + b) == PlacesIn(a) + PlacesIn(b)
  {
    assert forall r :: r in a + b <==> r in a || r in b;
  }

  lemma PlacesAdded(routes: seq<Route>, paths: set<Path>, p: Path, others: seq<Route>)
    requires KeysIn(others) == SharedKeys(OpsAt(routes, p))
    requires forall i {:trigger others[i]} :: 0 <= i < |others| ==> others[i] in OpsAt(routes, p)
    ensures SharedPlaces(routes, paths + {p}) == SharedPlaces(routes, paths) + PlacesIn(others)
  {
    var here := OpsAt(routes, p);
    forall r | r in others ensures r.path == p && Shared(here, r.Key()) && r in routes {
      var i :| 0 <= i < |others| && others[i] == r;
      assert r.Key() in KeysIn(others);
      assert r.Key() in SharedKeys(here);
    }
    forall r | r in routes && r.path == p && Shared(here, r.Key()) ensures (p, r.Key()) in PlacesIn(others) {
      assert r in here && r.Key() in SharedKeys(here);
      assert r.Key() in KeysIn(others);
      var x :| x in others && x.Key() == r.Key();
      assert (x.path, x.Key()) == (p, r.Key());
    }
  }

  lemma NoPaths(routes: seq<Route>)
    ensures TableRows([], [], routes, [])
  {
    assert PlacesIn([]) == {} == SharedPlaces(routes, PathSet([]));
  }

  lemma NodeStored(routes: seq<Route>, trie: Trie, flat: seq<Path>, parents: seq<nat>, i: nat)
    requires IsTrieOf(trie, routes) && IsFlattening(flat, parents, trie) && i < |flat|
    ensures flat[i] in trie && trie[flat[i]].operations == OpsAt(routes, flat[i])
    ensures flat[..i + 1] == flat[..i] + [flat[i]]
  {
    assert flat[i] in flat;
  }

  /** The REST collision table, node by node. */
  method WriteRestCollisions(ghost routes: seq<Route>, trie: Trie, flat: seq<Path>, ghost parents: seq<nat>)
    returns (rows: seq<RestCollision>, ghost firsts: seq<Route>)
    requires IsTrieOf(trie, routes) && IsFlattening(flat, parents, trie)
    ensures TableRows(rows, firsts, routes, flat)
  {
    rows, firsts := [], [];
    NoPaths(routes);
    for i := 0 to |flat|
      invariant TableRows(rows, firsts, routes, flat[..i])
    {
      NodeStored(routes, trie, flat, parents, i);
      var p := flat[i];
      var more;
      ghost var others;
      more, others := NodeCollisions(trie[p].operations);
      NodeAdds(rows, firsts, routes, flat[..i], p, more, others);
      rows, firsts := rows + more, firsts + others;
    }
    assert flat[..|flat|] == flat;
  }

  // ----- agreement with the inventory -----

  lemma SameServices(operations: seq<Operation>, op: Operation)
    requires op in operations && IsRest(op) && AllWellBound(Select(operations).rest)
    ensures ServicesBound(OpsAt(Routes(Select(operations).rest), RouteOf(op).path), RouteOf(op).Key())
      == Declaring(operations, RestKey(op))
  {
    var here, key := OpsAt(Routes(Select(operations).rest), RouteOf(op).path), RouteOf(op).Key();
    forall s ensures s in ServicesBound(here, key) <==> s in Declaring(operations, RestKey(op)) {
      ServiceAgrees(operations, op, s);
      BoundIsServed(here, key, s);
    }
  }

  lemma BoundIsServed(here: seq<Route>, key: Binding, s: string)
    ensures s in ServicesBound(here, key) <==> exists r :: Bound(r, here, key) && r.op.service == s
  {
    if s in ServicesBound(here, key) {
      var r :| r in here && r.Key() == key && r.op.service == s;
      assert Bound(r, here, key);
    }
  }

  lemma ServiceAgrees(operations: seq<Operation>, op: Operation, s: string)
    requires op in operations && IsRest(op) && AllWellBound(Select(operations).rest)
    ensures var here := OpsAt(Routes(Select(operations).rest), RouteOf(op).path);
      (exists r :: Bound(r, here, RouteOf(op).Key()) && r.op.service == s) <==> s in Declaring(operations, RestKey(op))
  {
    var rest := Select(operations).rest;
    RestSelected(operations, op);
    BoundAtPlace(rest, op, s);
    DeclaringExact(operations, op, s);
    AlikeWhenWellBound(rest, op, s);
  }

  lemma AlikeWhenWellBound(rest: seq<Operation>, op: Operation, s: string)
    requires AllWellBound(rest) && op in rest
    ensures ServedAt(rest, op, s) <==> ServedAlike(rest, op, s)
  {
    if ServedAt(rest, op, s) {
      var x :| x in rest && SamePlace(x, op) && x.service == s;
      assert SameSlashes(x, op);
    }
  }

  /** For rooted paths without a slash at the end, the REST collisions of the
      inventory are exactly the rows of the table, one row each. */
  lemma CollisionsAgree(operations: seq<Operation>, rows: seq<RestCollision>, firsts: seq<Route>, trie: Trie,
                        flat: seq<Path>, parents: seq<nat>, c: RestCollision)
    requires AllWellBound(Select(operations).rest) && IsTrieOf(trie, Routes(Select(operations).rest))
    requires IsFlattening(flat, parents, trie) && TableRows(rows, firsts, Routes(Select(operations).rest), flat)
    ensures c in rows <==> IsCollision(operations, InventoryCollision(RestKind, c.key, c.services))
    ensures forall i, j :: 0 <= i < j < |rows| ==> rows[i].key != rows[j].key
  {
    if c in rows {
      RowIsCollision(operations, rows, firsts, flat, c);
    }
    if IsCollision(operations, InventoryCollision(RestKind, c.key, c.services)) {
      CollisionIsRow(operations, rows, firsts, trie, flat, c);
    }
    forall i, j | 0 <= i < j < |rows| ensures rows[i].key != rows[j].key {
      RowsDiffer(Select(operations).rest, rows, firsts, flat, i, j);
    }
  }

  /** Rows written one before the other are of different places. */
  lemma PlacesDiffer(a: Route, b: Route, flat: seq<Path>)
    requires Earlier(a, b, flat) && Distinct(flat)
    ensures a.path != b.path || a.Key() != b.Key()
  {
    BindingLessOrder(a.Key(), a.Key(), a.Key());
  }

  /** For such paths, two rows have different keys. */
  lemma RowsDiffer(rest: seq<Operation>, rows: seq<RestCollision>, firsts: seq<Route>, flat: seq<Path>, i: nat, j: nat)
    requires AllWellBound(rest) && TableRows(rows, firsts, Routes(rest), flat) && Distinct(flat) && i < j < |rows|
    ensures rows[i].key != rows[j].key
  {
    var a, b := firsts[i], firsts[j];
    PlacesDiffer(a, b, flat);
    RouteListed(rest, a);
    RouteListed(rest, b);
    var x :| x in rest && RouteOf(x) == a;
    var y :| y in rest && RouteOf(y) == b;
    BindingsAgree(x, y);
  }

  lemma RowIsCollision(operations: seq<Operation>, rows: seq<RestCollision>, firsts: seq<Route>, flat: seq<Path>,
                       c: RestCollision)
    requires AllWellBound(Select(operations).rest) && c in rows
    requires TableRows(rows, firsts, Routes(Select(operations).rest), flat)
    ensures IsCollision(operations, InventoryCollision(RestKind, c.key, c.services))
  {
    var rest := Select(operations).rest;
    var routes := Routes(rest);
    var i :| 0 <= i < |rows| && rows[i] == c;
    var r := firsts[i];
    RouteListed(rest, r);
    var op :| op in rest && RouteOf(op) == r;
    RestSelected(operations, op);
    SameServices(operations, op);
    assert (r.path, r.Key()) in PlacesIn(firsts);
    assert Shared(OpsAt(routes, r.path), r.Key());
  }

  lemma CollisionIsRow(operations: seq<Operation>, rows: seq<RestCollision>, firsts: seq<Route>, trie: Trie,
                       flat: seq<Path>, c: RestCollision)
    requires AllWellBound(Select(operations).rest) && IsTrieOf(trie, Routes(Select(operations).rest))
    requires TableRows(rows, firsts, Routes(Select(operations).rest), flat) && forall p :: p in flat <==> p in trie
    requires IsCollision(operations, InventoryCollision(RestKind, c.key, c.services))
    ensures c in rows
  {
    var rest := Select(operations).rest;
    var routes := Routes(rest);
    var op := Declarer(operations, c.key);
    var r := RouteOf(op);
    RestSelected(operations, op);
    RouteListed(rest, r);
    SameServices(operations, op);
    StoredPath(routes, trie, r);
    var i := PlaceHasRow(routes, rows, firsts, flat, r);
    SpelledAlike(rest, firsts[i], op);
    assert rows[i] == c;
  }

  lemma PlaceHasRow(routes: seq<Route>, rows: seq<RestCollision>, firsts: seq<Route>, flat: seq<Path>, r: Route)
    returns (i: nat)
    requires TableRows(rows, firsts, routes, flat) && r in routes && r.path in flat
    requires Shared(OpsAt(routes, r.path), r.Key())
    ensures i < |rows| && firsts[i] in routes && firsts[i].path == r.path && firsts[i].Key() == r.Key()
    ensures rows[i].key == NormalizedBinding(firsts[i].op)
    ensures rows[i].services == SortedList(ServicesBound(OpsAt(routes, r.path), r.Key()))
  {
    assert (r.path, r.Key()) in SharedPlaces(routes, PathSet(flat));
    assert (r.path, r.Key()) in PlacesIn(firsts);
    var x :| x in firsts && (x.path, x.Key()) == (r.path, r.Key());
    i :| 0 <= i < |firsts| && firsts[i] == x;
  }

  lemma SpelledAlike(rest: seq<Operation>, x: Route, op: Operation)
    requires AllWellBound(rest) && op in rest && x in Routes(rest)
    requires x.path == RouteOf(op).path && x.Key() == RouteOf(op).Key()
    ensures NormalizedBinding(x.op) == NormalizedBinding(op)
  {
    RouteListed(rest, x);
    var y :| y in rest && RouteOf(y) == x;
    BindingsAgree(y, op);
  }

  lemma Declarer(operations: seq<Operation>, key: string) returns (op: Operation)
    requires |Declaring(operations, GroupKey(RestKind, key))| > 1
    ensures op in operations && IsRest(op) && NormalizedBinding(op) == key
  {
    var s :| s in Declaring(operations, GroupKey(RestKind, key));
    op :| op in operations && GroupKey(RestKind, key) in GroupKeys(op) && op.service == s;
  }

  lemma StoredPath(routes: seq<Route>, trie: Trie, r: Route)
    requires IsTrieOf(trie, routes) && r in routes
    ensures r.path in trie
  {
    var k :| 0 <= k < |routes| && routes[k] == r;
    assert IsPrefix(r.path, routes[k].path) && Reached(routes, r.path);
  }
}
