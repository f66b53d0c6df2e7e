/** Assembly of the REST tables and the proof that they mean the same as the
    operation list they were compiled from (writeRESTTrie in
    cmd/awsmodelgen/main.go). */
module RestCompiler {
  import opened Order
  import opened RestUri
  import opened RestTrie
  import opened RestTables
  import opened Wrappers

  // ----- what the tables must look like -----

  ghost predicate EdgesExact(window: seq<Edge>, node: BuildNode, p: Path, flat: seq<Path>) {
    && (forall i, j :: 0 <= i < j < |window| ==> Less(window[i].segment, window[j].segment))
    && (forall k :: 0 <= k < |window| ==>
      window[k].node < |flat| && flat[window[k].node] == Child(p, Literal(window[k].segment)))
    && (set e | e in window :: e.segment) == node.literals
  }

  ghost predicate SlotExact(slot: int, present: bool, q: Path, flat: seq<Path>) {
    if present then 0 <= slot < |flat| && flat[slot] == q else slot == -1
  }

  ghost predicate LinksExact(n: TrieNode, node: BuildNode, p: Path, edges: seq<Edge>, flat: seq<Path>) {
    && n.literalStart <= n.literalEnd <= |edges|
    && EdgesExact(edges[n.literalStart..n.literalEnd], node, p, flat)
    && SlotExact(n.parameter, node.parameter, Child(p, Parameter), flat)
    && SlotExact(n.greedy, node.greedy, Child(p, Greedy), flat)
  }

  ghost predicate OperationsExact(n: TrieNode, node: BuildNode, entries: seq<Entry>, candidates: seq<Candidate>) {
    && n.operationStart <= n.operationEnd <= |entries|
    && EntriesExact(entries[n.operationStart..n.operationEnd], node.operations, candidates)
  }

  /** Each row's windows start where the previous row's end, and together they
      cover the edge and entry tables; so do the windows of the ambiguous entries
      in the candidate table. */
  ghost predicate WindowsConsecutive(t: Tables) {
    && Tiles(t.entries, 0, |t.candidates|)
    && WindowStart(t.nodes, 0) == (0, 0)
    && (forall k :: 0 <= k < |t.nodes| ==>
      WindowStart(t.nodes, k) == (t.nodes[k].literalStart, t.nodes[k].operationStart))
    && WindowStart(t.nodes, |t.nodes|) == (|t.edges|, |t.entries|)
  }

  /** Where the windows of row `k` have to start: the ends of the row before it. */
  function WindowStart(nodes: seq<TrieNode>, k: nat): (nat, nat)
    requires k <= |nodes|
  {
    if k == 0 then (0, 0) else (nodes[k - 1].literalEnd, nodes[k - 1].operationEnd)
  }

  /** The rows written so far are exact for the first `|t.nodes|` paths. */
  ghost predicate RowsExact(t: Tables, trie: Trie, flat: seq<Path>) {
    && |t.nodes| <= |flat|
    && (forall k :: 0 <= k < |t.nodes| ==> flat[k] in trie)
    && AllLinked(t, trie, flat) && AllListed(t, trie, flat)
  }

  // ----- emission -----

  method EmitEdges(p: Path, node: BuildNode, indexes: map<Path, nat>, ghost flat: seq<Path>)
    returns (window: seq<Edge>)
    requires forall s :: s in node.literals ==> Child(p, Literal(s)) in indexes
    requires forall q :: q in indexes ==> indexes[q] < |flat| && flat[indexes[q]] == q
    ensures EdgesExact(window, node, p, flat)
  {
    var keys := SortedKeys(node.literals);
    window := [];
    for i := 0 to |keys|
      invariant |window| == i
      invariant forall k :: 0 <= k < i ==>
        window[k].segment == keys[k] && window[k].node < |flat| && flat[window[k].node] == Child(p, Literal(keys[k]))
    {
      assert keys[i] in keys;
      window := window + [Edge(keys[i], indexes[Child(p, Literal(keys[i]))])];
    }
    forall s ensures s in (set e | e in window :: e.segment) <==> s in node.literals {
      if s in node.literals {
        var k :| 0 <= k < |keys| && keys[k] == s;
        assert window[k] in window;
      }
    }
  }

  /** `parameter, greedy := -1, -1`, then the index of the child when there is one. */
  method EmitSlot(present: bool, q: Path, indexes: map<Path, nat>, ghost flat: seq<Path>) returns (slot: int)
    requires present ==> q in indexes
    requires forall r :: r in indexes ==> indexes[r] < |flat| && flat[indexes[r]] == r
    ensures SlotExact(slot, present, q, flat)
  {
    slot := -1;
    if present {
      slot := indexes[q];
    }
  }

  ghost predicate Indexed(indexes: map<Path, nat>, flat: seq<Path>, trie: Trie) {
    && (forall q :: q in trie ==> q in indexes)
    && (forall q :: q in indexes ==> indexes[q] < |flat| && flat[indexes[q]] == q)
  }

  /** One iteration of the emission loop: the row of node `|t.nodes|`. */
  method EmitRow(t: Tables, trie: Trie, flat: seq<Path>, indexes: map<Path, nat>) returns (after: Tables)
    requires RowsExact(t, trie, flat) && WindowsConsecutive(t)
    requires |t.nodes| < |flat| && flat[|t.nodes|] in trie
    requires Linked(trie) && Indexed(indexes, flat, trie)
    ensures |after.nodes| == |t.nodes| + 1
    ensures RowsExact(after, trie, flat) && WindowsConsecutive(after)
  {
    var p := flat[|t.nodes|];
    var node := trie[p];
    ChildrenIndexed(trie, indexes, p);
    var window := EmitEdges(p, node, indexes, flat);
    var parameter := EmitSlot(node.parameter, Child(p, Parameter), indexes, flat);
    var greedy := EmitSlot(node.greedy, Child(p, Greedy), indexes, flat);
    var entries, candidates := EmitEntries(node.operations, t.candidates);
    var row := TrieNode(
      |t.edges|, |t.edges| + |window|, parameter, greedy, |t.entries|, |t.entries| + |entries|);
    after := Tables(t.nodes + [row], t.edges + window, t.entries + entries, candidates);
    RowAppended(t, after, row, window, entries, trie, flat);
    TilesAppend(t.entries, entries, 0, |t.candidates|, |candidates|);
    WindowsAppended(t, after, row);
  }

  /** The emission loop over the flattened nodes. */
  method EmitTables(trie: Trie, flat: seq<Path>, ghost parents: seq<nat>) returns (t: Tables)
    requires Linked(trie) && IsFlattening(flat, parents, trie)
    ensures |t.nodes| == |flat| && RowsExact(t, trie, flat) && WindowsConsecutive(t)
  {
    var indexes := PathIndexes(flat);
    IndexesPointBack(flat, indexes, trie);
    t := Tables([], [], [], []);
    for i := 0 to |flat|
      invariant |t.nodes| == i
      invariant RowsExact(t, trie, flat) && WindowsConsecutive(t)
    {
      assert flat[i] in flat;
      t := EmitRow(t, trie, flat, indexes);
    }
  }

  lemma WindowsAppended(before: Tables, after: Tables, row: TrieNode)
    requires WindowsConsecutive(before) && after.nodes == before.nodes + [row]
    requires row.literalStart == |before.edges| && row.literalEnd == |after.edges|
    requires row.operationStart == |before.entries| && row.operationEnd == |after.entries|
    requires Tiles(after.entries, 0, |after.candidates|)
    ensures WindowsConsecutive(after)
  {
    var last := |before.nodes|;
    forall k | 0 <= k < |after.nodes|
      ensures WindowStart(after.nodes, k) == (after.nodes[k].literalStart, after.nodes[k].operationStart)
    {
      assert WindowStart(after.nodes, k) == WindowStart(before.nodes, k);
    }
  }

  lemma IndexesPointBack(flat: seq<Path>, indexes: map<Path, nat>, trie: Trie)
    requires forall p :: p in flat <==> p in trie
    requires forall p :: p in indexes <==> p in flat
    requires forall i :: 0 <= i < |flat| ==> flat[i] in indexes && indexes[flat[i]] == i
    ensures Indexed(indexes, flat, trie)
  {
  }

  lemma ChildrenIndexed(trie: Trie, indexes: map<Path, nat>, p: Path)
    requires Linked(trie) && p in trie
    requires forall q :: q in trie ==> q in indexes
    ensures forall s :: s in trie[p].literals ==> Child(p, Literal(s)) in indexes
    ensures trie[p].parameter ==> Child(p, Parameter) in indexes
    ensures trie[p].greedy ==> Child(p, Greedy) in indexes
  {
    forall s | s in trie[p].literals ensures Child(p, Literal(s)) in indexes {
      assert HasChild(trie[p], Literal(s));
    }
    assert HasChild(trie[p], Parameter) <==> Child(p, Parameter) in trie;
    assert HasChild(trie[p], Greedy) <==> Child(p, Greedy) in trie;
  }

  /** Exact entries stay exact while the candidate table grows. */
  lemma EntriesExactLonger(entries: seq<Entry>, routes: seq<Route>, candidates: seq<Candidate>, longer: seq<Candidate>)
    requires EntriesExact(entries, routes, candidates) && candidates <= longer
    ensures EntriesExact(entries, routes, longer)
  {
    forall k | 0 <= k < |entries| ensures EntryExact(entries[k], routes, longer) {
      EntryExactExtends(entries[k], routes, routes, candidates, longer);
    }
  }

  lemma OldLinks(n: TrieNode, node: BuildNode, p: Path, edges: seq<Edge>, more: seq<Edge>, flat: seq<Path>)
    requires LinksExact(n, node, p, edges, flat) && edges <= more
    ensures LinksExact(n, node, p, more, flat)
  {
    assert more[n.literalStart..n.literalEnd] == edges[n.literalStart..n.literalEnd];
  }

  lemma OldOperations(n: TrieNode, node: BuildNode, entries: seq<Entry>, more: seq<Entry>,
                      candidates: seq<Candidate>, longer: seq<Candidate>)
    requires OperationsExact(n, node, entries, candidates) && entries <= more && candidates <= longer
    ensures OperationsExact(n, node, more, longer)
  {
    assert more[n.operationStart..n.operationEnd] == entries[n.operationStart..n.operationEnd];
    EntriesExactLonger(entries[n.operationStart..n.operationEnd], node.operations, candidates, longer);
  }

  lemma RowAppended(before: Tables, after: Tables, row: TrieNode, window: seq<Edge>, entries: seq<Entry>,
                    trie: Trie, flat: seq<Path>)
    requires RowsExact(before, trie, flat) && |before.nodes| < |flat| && flat[|before.nodes|] in trie
    requires before.candidates <= after.candidates
    requires after.nodes == before.nodes + [row] && after.edges == before.edges + window
    requires after.entries == before.entries + entries
    requires row.literalStart == |before.edges| && row.literalEnd == |after.edges|
    requires row.operationStart == |before.entries| && row.operationEnd == |after.entries|
    requires var p := flat[|before.nodes|]; var node := trie[p];
      && EdgesExact(window, node, p, flat)
      && SlotExact(row.parameter, node.parameter, Child(p, Parameter), flat)
      && SlotExact(row.greedy, node.greedy, Child(p, Greedy), flat)
      && EntriesExact(entries, node.operations, after.candidates)
    ensures RowsExact(after, trie, flat)
  {
    assert after.edges[row.literalStart..row.literalEnd] == window;
    assert after.entries[row.operationStart..row.operationEnd] == entries;
    LinksAppended(before, after, trie, flat);
    OperationsAppended(before, after, trie, flat);
  }

  ghost predicate AllLinked(t: Tables, trie: Trie, flat: seq<Path>)
    requires |t.nodes| <= |flat| && forall k :: 0 <= k < |t.nodes| ==> flat[k] in trie
  {
    forall k {:trigger LinksExact(t.nodes[k], trie[flat[k]], flat[k], t.edges, flat)} ::
      0 <= k < |t.nodes| ==> LinksExact(t.nodes[k], trie[flat[k]], flat[k], t.edges, flat)
  }

  ghost predicate AllListed(t: Tables, trie: Trie, flat: seq<Path>)
    requires |t.nodes| <= |flat| && forall k :: 0 <= k < |t.nodes| ==> flat[k] in trie
  {
    forall k {:trigger OperationsExact(t.nodes[k], trie[flat[k]], t.entries, t.candidates)} ::
      0 <= k < |t.nodes| ==> OperationsExact(t.nodes[k], trie[flat[k]], t.entries, t.candidates)
  }

  lemma LinksAppended(before: Tables, after: Tables, trie: Trie, flat: seq<Path>)
    requires |before.nodes| + 1 == |after.nodes| <= |flat| && before.nodes <= after.nodes && before.edges <= after.edges
    requires (forall k :: 0 <= k < |after.nodes| ==> flat[k] in trie) && AllLinked(before, trie, flat)
    requires var k := |before.nodes|; LinksExact(after.nodes[k], trie[flat[k]], flat[k], after.edges, flat)
    ensures AllLinked(after, trie, flat)
  {
    forall k | 0 <= k < |after.nodes| ensures LinksExact(after.nodes[k], trie[flat[k]], flat[k], after.edges, flat) {
      if k < |before.nodes| {
        OldLinks(before.nodes[k], trie[flat[k]], flat[k], before.edges, after.edges, flat);
      }
    }
  }

  lemma OperationsAppended(before: Tables, after: Tables, trie: Trie, flat: seq<Path>)
    requires |before.nodes| + 1 == |after.nodes| <= |flat| && before.nodes <= after.nodes
    requires before.entries <= after.entries && before.candidates <= after.candidates
    requires (forall k :: 0 <= k < |after.nodes| ==> flat[k] in trie) && AllListed(before, trie, flat)
    requires var k := |before.nodes|; OperationsExact(after.nodes[k], trie[flat[k]], after.entries, after.candidates)
    ensures AllListed(after, trie, flat)
  {
    forall k | 0 <= k < |after.nodes|
      ensures OperationsExact(after.nodes[k], trie[flat[k]], after.entries, after.candidates)
    {
      if k < |before.nodes| {
        OldOperations(before.nodes[k], trie[flat[k]], before.entries, after.entries, before.candidates,
            after.candidates);
      }
    }
  }

  // ----- reading the tables back -----

  /** The node an edge window leads to on `segment`, or -1. */
  function FindEdge(window: seq<Edge>, segment: string): int {
    if window == [] then -1
    else if window[0].segment == segment then window[0].node
    else FindEdge(window[1..], segment)
  }

  /** The slot of node `i` for one step, or -1. */
  function Follow(t: Tables, i: nat, s: Step): int
    requires i < |t.nodes|
  {
    var n := t.nodes[i];
    match s
    case Literal(text) =>
      if n.literalStart <= n.literalEnd <= |t.edges|
      then FindEdge(t.edges[n.literalStart..n.literalEnd], text)
      else -1
    case Parameter => n.parameter
    case Greedy => n.greedy
  }

  function Walk(t: Tables, i: nat, steps: Path): Option<nat>
    decreases |steps|
  {
    if i >= |t.nodes| then None
    else if steps == [] then Some(i)
    else
      var j := Follow(t, i, steps[0]);
      if j < 0 then None else Walk(t, j, steps[1..])
  }

  function FindEntry(window: seq<Entry>, key: Binding): Option<Entry> {
    if window == [] then None
    else if window[0].key == key then Some(window[0])
    else FindEntry(window[1..], key)
  }

  /** The entry the tables hold for a declared path and binding. */
  function Lookup(t: Tables, path: Path, key: Binding): Option<Entry> {
    match Walk(t, 0, path)
    case None => None
    case Some(i) =>
      if i < |t.nodes| && t.nodes[i].operationStart <= t.nodes[i].operationEnd <= |t.entries|
      then FindEntry(t.entries[t.nodes[i].operationStart..t.nodes[i].operationEnd], key)
      else None
  }

  /** The node rows and edges of `t` are the links of `trie`, indexed by `flat`. */
  ghost predicate Navigable(t: Tables, trie: Trie, flat: seq<Path>) {
    && |t.nodes| == |flat| && |flat| > 0 && flat[0] == []
    && Linked(trie)
    && (forall k :: 0 <= k < |flat| ==> flat[k] in trie)
    && (forall k {:trigger LinksExact(t.nodes[k], trie[flat[k]], flat[k], t.edges, flat)} ::
      0 <= k < |t.nodes| ==> LinksExact(t.nodes[k], trie[flat[k]], flat[k], t.edges, flat))
  }

  /** `t` was compiled from `routes`; the ghost arguments are the tree and its flattening. */
  ghost predicate CompiledVia(t: Tables, routes: seq<Route>, trie: Trie, flat: seq<Path>, parents: seq<nat>) {
    && IsTrieOf(trie, routes)
    && IsFlattening(flat, parents, trie)
    && Navigable(t, trie, flat)
    && (forall k {:trigger OperationsExact(t.nodes[k], trie[flat[k]], t.entries, t.candidates)} ::
      0 <= k < |t.nodes| ==> OperationsExact(t.nodes[k], trie[flat[k]], t.entries, t.candidates))
  }

  lemma {:induction false} FindEdgeExact(window: seq<Edge>, node: BuildNode, p: Path, flat: seq<Path>, segment: string)
    requires forall k :: 0 <= k < |window| ==>
      window[k].node < |flat| && flat[window[k].node] == Child(p, Literal(window[k].segment))
    ensures var j := FindEdge(window, segment);
      && (j >= 0 <==> segment in (set e | e in window :: e.segment))
      && (j >= 0 ==> j < |flat| && flat[j] == Child(p, Literal(segment)))
  {
    if window != [] {
      FindEdgeExact(window[1..], node, p, flat, segment);
      assert window == [window[0]] + window[1..];
      assert (set e | e in window :: e.segment) == {window[0].segment} + (set e | e in window[1..] :: e.segment);
    }
  }

  /** A slot is filled exactly when the tree has that child, and points at it. */
  lemma FollowExact(t: Tables, trie: Trie, flat: seq<Path>, i: nat, s: Step)
    requires Navigable(t, trie, flat) && i < |flat|
    ensures var j := Follow(t, i, s);
      && (j >= 0 <==> Child(flat[i], s) in trie)
      && (j >= 0 ==> j < |flat| && flat[j] == Child(flat[i], s))
  {
    var n, p := t.nodes[i], flat[i];
    assert LinksExact(n, trie[p], p, t.edges, flat);
    assert HasChild(trie[p], s) <==> Child(p, s) in trie;
    if s.Literal? {
      FindEdgeExact(t.edges[n.literalStart..n.literalEnd], trie[p], p, flat, s.text);
    }
  }

  lemma {:induction false} PrefixStored(trie: Trie, p: Path, steps: Path)
    requires Linked(trie) && p + steps in trie
    ensures p in trie
    decreases |steps|
  {
    if steps == [] {
      assert p + steps == p;
    } else {
      var init := steps[..|steps| - 1];
      assert Parent(p + steps) == p + init;
      PrefixStored(trie, p, init);
    }
  }

  /** Walking the emitted tables is walking the tree. */
  lemma {:induction false} WalkExact(t: Tables, trie: Trie, flat: seq<Path>, i: nat, steps: Path)
    requires Navigable(t, trie, flat) && i < |flat|
    ensures match Walk(t, i, steps)
      case None => flat[i] + steps !in trie
      case Some(j) => j < |flat| && flat[j] == flat[i] + steps && flat[j] in trie
    decreases |steps|
  {
    if steps == [] {
      assert flat[i] + steps == flat[i];
    } else {
      var c := Child(flat[i], steps[0]);
      FollowExact(t, trie, flat, i, steps[0]);
      assert c + steps[1..] == flat[i] + steps;
      var j := Follow(t, i, steps[0]);
      if j >= 0 {
        WalkExact(t, trie, flat, j, steps[1..]);
      } else if flat[i] + steps in trie {
        PrefixStored(trie, c, steps[1..]);
      }
    }
  }

  lemma {:induction false} FindEntryExact(window: seq<Entry>, key: Binding)
    ensures match FindEntry(window, key)
      case None => key !in EntryKeys(window)
      case Some(e) => e in window && e.key == key
  {
    if window != [] {
      FindEntryExact(window[1..], key);
      assert window == [window[0]] + window[1..];
      assert EntryKeys(window) == {window[0].key} + EntryKeys(window[1..]);
    }
  }

  /** The compiled tables mean what the operation list says, for every path and
      binding: nothing is found where nothing is declared, and what is found is
      exact for the operations declared there. */
  lemma LookupExact(t: Tables, routes: seq<Route>, trie: Trie, flat: seq<Path>, parents: seq<nat>,
                    path: Path, key: Binding)
    requires CompiledVia(t, routes, trie, flat, parents)
    ensures match Lookup(t, path, key)
      case None => forall r :: r in routes ==> !(r.path == path && r.Key() == key)
      case Some(e) => e.key == key && EntryExact(e, OpsAt(routes, path), t.candidates)
  {
    WalkExact(t, trie, flat, 0, path);
    assert flat[0] + path == path;
    var here := OpsAt(routes, path);
    match Walk(t, 0, path)
    case None =>
      forall r | r in routes ensures r.path != path {
        var k :| 0 <= k < |routes| && routes[k] == r;
        assert IsPrefix(r.path, routes[k].path) && Reached(routes, r.path);
      }
    case Some(i) =>
      var n := t.nodes[i];
      assert OperationsExact(n, trie[flat[i]], t.entries, t.candidates);
      var window := t.entries[n.operationStart..n.operationEnd];
      assert EntriesExact(window, here, t.candidates);
      FindEntryExact(window, key);
      match FindEntry(window, key)
      case None =>
        forall r | r in routes ensures !(r.path == path && r.Key() == key) {
          assert r in here ==> r.Key() in RouteKeys(here);
        }
      case Some(e) =>
        var k :| 0 <= k < |window| && window[k] == e;
        assert EntryExact(window[k], here, t.candidates);
  }

  /** Every node but the root is the target of exactly one slot, in an earlier row. */
  lemma OneIncomingSlot(t: Tables, routes: seq<Route>, trie: Trie, flat: seq<Path>, parents: seq<nat>, j: nat)
    requires CompiledVia(t, routes, trie, flat, parents) && 0 < j < |flat|
    ensures parents[j] < j && Follow(t, parents[j], flat[j][|flat[j]| - 1]) == j
    ensures forall i: nat, s :: i < |flat| && Follow(t, i, s) == j ==>
      i == parents[j] && s == flat[j][|flat[j]| - 1]
  {
    var q := flat[j];
    var last := q[|q| - 1];
    assert HasParent(flat, parents, j);
    assert Child(Parent(q), last) == q;
    FollowExact(t, trie, flat, parents[j], last);
    forall i: nat, s | i < |flat| && Follow(t, i, s) == j ensures i == parents[j] && s == last {
      FollowExact(t, trie, flat, i, s);
      ChildInjective(flat[i], s, Parent(q), last);
    }
  }

  // ----- the compiler -----

  function Routes(ops: seq<Operation>): (routes: seq<Route>)
    ensures |routes| == |ops|
    ensures forall k :: 0 <= k < |ops| ==> routes[k] == RouteOf(ops[k])
  {
    seq(|ops|, k requires 0 <= k < |ops| => RouteOf(ops[k]))
  }

  /** `writeRESTTrie`. */
  method WriteRestTrie(ops: seq<Operation>)
    returns (t: Tables, ghost trie: Trie, ghost flat: seq<Path>, ghost parents: seq<nat>)
    ensures CompiledVia(t, Routes(ops), trie, flat, parents)
    ensures WindowsConsecutive(t)
  {
    var tree := BuildTrie(Routes(ops));
    var order;
    order, parents := Flatten(tree);
    t := EmitTables(tree, order, parents);
    trie, flat := tree, order;
    assert forall k :: 0 <= k < |flat| ==> flat[k] in flat;
  }

  /** Every input operation is found again under its own path and binding: named
      when it is the only service there, listed as a candidate otherwise. */
  lemma OperationFound(t: Tables, routes: seq<Route>, trie: Trie, flat: seq<Path>, parents: seq<nat>, r: Route)
    requires CompiledVia(t, routes, trie, flat, parents) && r in routes
    ensures Lookup(t, r.path, r.Key()).Some?
    ensures var e := Lookup(t, r.path, r.Key()).value;
      if e.ambiguous
      then e.modelService == "" && e.candidateStart <= e.candidateEnd <= |t.candidates|
           && CandidateOf(r) in t.candidates[e.candidateStart..e.candidateEnd]
      else e.modelService == r.op.service
           && ((forall x :: x in routes && x.path == r.path && x.Key() == r.Key() ==> x.op.name == r.op.name)
               ==> e.operation == r.op.name)
  {
    LookupExact(t, routes, trie, flat, parents, r.path, r.Key());
    var here := OpsAt(routes, r.path);
    var e := Lookup(t, r.path, r.Key()).value;
    assert r in here && Bound(r, here, r.Key());
    if e.ambiguous {
      assert CandidateOf(r) in BoundCandidates(here, r.Key());
    }
  }

  // ----- nothing but what was declared -----

  /** Row `i` of the node table is the one whose window holds entry `k`. */
  lemma {:induction false} RowOfEntry(nodes: seq<TrieNode>, n: nat, k: nat) returns (i: nat)
    requires n <= |nodes| && k < WindowStart(nodes, n).1
    requires forall j {:trigger nodes[j]} :: 0 <= j < n ==> WindowStart(nodes, j).1 == nodes[j].operationStart
    ensures i < n && nodes[i].operationStart <= k < nodes[i].operationEnd
  {
    if k >= WindowStart(nodes, n - 1).1 {
      i := n - 1;
    } else {
      i := RowOfEntry(nodes, n - 1, k);
    }
  }

  /** Every emitted entry is exact for the operations declared at some path. */
  lemma EntryDeclared(t: Tables, routes: seq<Route>, trie: Trie, flat: seq<Path>, parents: seq<nat>, k: nat)
    returns (p: Path)
    requires CompiledVia(t, routes, trie, flat, parents) && WindowsConsecutive(t) && k < |t.entries|
    ensures EntryExact(t.entries[k], OpsAt(routes, p), t.candidates)
  {
    var i := RowOfEntry(t.nodes, |t.nodes|, k);
    var n := t.nodes[i];
    p := flat[i];
    assert OperationsExact(n, trie[p], t.entries, t.candidates);
    var window := t.entries[n.operationStart..n.operationEnd];
    assert window[k - n.operationStart] == t.entries[k];
    assert EntryExact(window[k - n.operationStart], OpsAt(routes, p), t.candidates);
  }

  /** Every emitted candidate is an input operation, in the window of exactly one entry. */
  lemma CandidateDeclared(t: Tables, routes: seq<Route>, trie: Trie, flat: seq<Path>, parents: seq<nat>, c: nat)
    returns (k: nat, r: Route)
    requires CompiledVia(t, routes, trie, flat, parents) && WindowsConsecutive(t) && c < |t.candidates|
    ensures k < |t.entries| && InWindow(t.entries[k], c)
    ensures forall j :: 0 <= j < |t.entries| && InWindow(t.entries[j], c) ==> j == k
    ensures r in routes && r.Key() == t.entries[k].key && CandidateOf(r) == t.candidates[c]
  {
    k := TilesHoldOnce(t.entries, 0, |t.candidates|, c);
    var p := EntryDeclared(t, routes, trie, flat, parents, k);
    r := WindowRow(t.entries[k], OpsAt(routes, p), t.candidates, c);
  }

  lemma WindowRow(e: Entry, routes: seq<Route>, candidates: seq<Candidate>, c: nat) returns (r: Route)
    requires EntryExact(e, routes, candidates) && InWindow(e, c)
    ensures c < |candidates| && r in routes && r.Key() == e.key && CandidateOf(r) == candidates[c]
  {
    var window := candidates[e.candidateStart..e.candidateEnd];
    assert window[c - e.candidateStart] == candidates[c];
    assert candidates[c] in BoundCandidates(routes, e.key);
    r :| r in routes && r.Key() == e.key && CandidateOf(r) == candidates[c];
  }
}
