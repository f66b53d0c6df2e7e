/** The REST trie compiler, writeRESTTrie in cmd/awsmodelgen/main.go: insertion
    of every operation into a tree, breadth-first flattening, and emission of
    the node, edge, operation and candidate tables. A build node is identified
    by its path from the root. */
module RestTrie {
  import opened Order
  import opened RestUri

  // ----- the tree under construction -----

  datatype BuildNode = BuildNode(
    literals: set<string>, parameter: bool, greedy: bool, operations: seq<Route>)

  type Trie = map<Path, BuildNode>

  const EmptyNode := BuildNode({}, false, false, [])

  function Child(p: Path, s: Step): (q: Path) { p + [s] }

  function Parent(q: Path): Path
    requires q != []
  {
    q[..|q| - 1]
  }

  predicate HasChild(node: BuildNode, s: Step) {
    match s
    case Literal(text) => text in node.literals
    case Parameter => node.parameter
    case Greedy => node.greedy
  }

  function AddChild(node: BuildNode, s: Step): BuildNode {
    match s
    case Literal(text) => node.(literals := node.literals + {text})
    case Parameter => node.(parameter := true)
    case Greedy => node.(greedy := true)
  }

  /** Child links and stored nodes agree, and the tree is rooted. */
  ghost predicate Linked(trie: Trie) {
    && [] in trie
    && (forall p, s :: p in trie ==> (HasChild(trie[p], s) <==> Child(p, s) in trie))
    && (forall q :: q in trie && q != [] ==> Parent(q) in trie)
  }

  /** The operations inserted at path `p`, in input order. */
  function OpsAt(ops: seq<Route>, p: Path): (r: seq<Route>)
    ensures forall op :: op in r <==> op in ops && op.path == p
  {
    if ops == [] then []
    else
      var init, last := ops[..|ops| - 1], ops[|ops| - 1];
      assert ops == init + [last];
      if last.path == p then OpsAt(init, p) + [last] else OpsAt(init, p)
  }

  function OpsOf(trie: Trie, p: Path): seq<Route> {
    if p in trie then trie[p].operations else []
  }

  predicate IsPrefix(p: Path, q: Path) { p <= q }

  ghost predicate Reached(ops: seq<Route>, p: Path) {
    exists k :: 0 <= k < |ops| && IsPrefix(p, ops[k].path)
  }

  /** What insertion must produce: exactly the prefixes of the input paths, each
      holding exactly the operations whose path ends there. */
  ghost predicate IsTrieOf(trie: Trie, ops: seq<Route>) {
    && Linked(trie)
    && (forall p :: p in trie <==> p == [] || Reached(ops, p))
    && (forall p :: p in trie ==> trie[p].operations == OpsAt(ops, p))
  }

  method BuildTrie(ops: seq<Route>) returns (trie: Trie)
    ensures IsTrieOf(trie, ops)
  {
    trie := map[[] := EmptyNode];
    RootIsTrie(trie);
    for k := 0 to |ops|
      invariant IsTrieOf(trie, ops[..k])
    {
      var op := ops[k];
      var extended := ExtendPath(trie, op.path);
      assert ops[..k + 1] == ops[..k] + [op];
      InsertedIsTrie(trie, extended, ops[..k], op);
      trie := AppendOperation(extended, op.path, op);
    }
    assert ops[..|ops|] == ops;
  }

  /** `node.operations = append(node.operations, op)`. */
  function AppendOperation(trie: Trie, p: Path, op: Route): Trie
    requires p in trie
  {
    trie[p := trie[p].(operations := trie[p].operations + [op])]
  }

  lemma AppendKeepsLinks(trie: Trie, p: Path, op: Route)
    requires Linked(trie) && p in trie
    ensures Linked(AppendOperation(trie, p, op))
  {
    var after := AppendOperation(trie, p, op);
    forall q, s | q in after ensures HasChild(after[q], s) <==> Child(q, s) in after {
      assert HasChild(after[q], s) == HasChild(trie[q], s);
    }
  }

  lemma InsertedIsTrie(before: Trie, extended: Trie, ops: seq<Route>, op: Route)
    requires IsTrieOf(before, ops) && Linked(extended)
    requires forall p :: p in extended <==> p in before || IsPrefix(p, op.path)
    requires forall p :: p in extended ==> extended[p].operations == OpsOf(before, p)
    ensures op.path in extended
    ensures IsTrieOf(AppendOperation(extended, op.path, op), ops + [op])
  {
    assert IsPrefix(op.path, op.path);
    var after := AppendOperation(extended, op.path, op);
    AppendKeepsLinks(extended, op.path, op);
    var more := ops + [op];
    assert more[..|more| - 1] == ops;
    forall p ensures p in after <==> p == [] || Reached(more, p) {
      ReachedSnoc(ops, op, p);
    }
    forall p | p in after ensures after[p].operations == OpsAt(more, p) {
      if p !in before {
        NoneBelowUnreached(ops, p);
      }
    }
  }

  lemma ReachedSnoc(ops: seq<Route>, op: Route, p: Path)
    ensures Reached(ops + [op], p) <==> Reached(ops, p) || IsPrefix(p, op.path)
  {
    var more := ops + [op];
    if Reached(ops, p) {
      var k :| 0 <= k < |ops| && IsPrefix(p, ops[k].path);
      assert more[k] == ops[k];
    }
    if IsPrefix(p, op.path) {
      assert more[|ops|] == op;
    }
    if Reached(more, p) {
      var k :| 0 <= k < |more| && IsPrefix(p, more[k].path);
      if k < |ops| { assert more[k] == ops[k] && Reached(ops, p); }
    }
  }

  lemma {:induction false} NoneBelowUnreached(ops: seq<Route>, p: Path)
    requires !Reached(ops, p)
    ensures OpsAt(ops, p) == []
  {
    if ops != [] {
      var init, last := ops[..|ops| - 1], ops[|ops| - 1];
      assert IsPrefix(last.path, last.path);
      forall k | 0 <= k < |init| ensures !IsPrefix(p, init[k].path) {
        assert init[k] == ops[k];
      }
      NoneBelowUnreached(init, p);
    }
  }

  lemma RootIsTrie(trie: Trie)
    requires trie == map[[] := EmptyNode]
    ensures IsTrieOf(trie, [])
  {
    forall p, s | p in trie ensures HasChild(trie[p], s) <==> Child(p, s) in trie {
      assert |Child(p, s)| == 1;
    }
  }

  /** The segment loop of one insertion: create the missing nodes of a path. */
  method ExtendPath(trie: Trie, steps: Path) returns (after: Trie)
    requires Linked(trie)
    ensures Linked(after)
    ensures forall p :: p in after <==> p in trie || IsPrefix(p, steps)
    ensures forall p :: p in after ==>
      after[p].operations == OpsOf(trie, p)
  {
    after := trie;
    for j := 0 to |steps|
      invariant Linked(after)
      invariant steps[..j] in after
      invariant forall p :: p in after <==> p in trie || IsPrefix(p, steps[..j])
      invariant forall p :: p in after ==>
        after[p].operations == OpsOf(trie, p)
    {
      var p, s := steps[..j], steps[j];
      assert steps[..j + 1] == Child(p, s);
      assert forall q :: IsPrefix(q, Child(p, s)) <==> IsPrefix(q, p) || q == Child(p, s) by {
        PrefixOfChild(p, s);
      }
      if !HasChild(after[p], s) {
        ghost var old_ := after;
        after := after[p := AddChild(after[p], s)][Child(p, s) := EmptyNode];
        LinkedAfterAdd(old_, p, s, after);
      }
    }
    assert steps[..|steps|] == steps;
  }

  lemma PrefixOfChild(p: Path, s: Step)
    ensures forall q :: IsPrefix(q, Child(p, s)) <==> IsPrefix(q, p) || q == Child(p, s)
  {
    forall q ensures IsPrefix(q, Child(p, s)) <==> IsPrefix(q, p) || q == Child(p, s) {
      if q <= Child(p, s) && |q| <= |p| {
        assert q == Child(p, s)[..|q|] == p[..|q|];
      }
      if q <= p {
        assert q == p[..|q|] == Child(p, s)[..|q|];
      }
    }
  }

  lemma ChildInjective(p: Path, s: Step, q: Path, t: Step)
    requires Child(p, s) == Child(q, t)
    ensures p == q && s == t
  {
    assert Child(p, s)[..|p|] == p && Child(q, t)[..|q|] == q;
    assert Child(p, s)[|p|] == s && Child(q, t)[|q|] == t;
  }

  lemma LinkedAfterAdd(before: Trie, p: Path, s: Step, after: Trie)
    requires Linked(before) && p in before && !HasChild(before[p], s)
    requires after == before[p := AddChild(before[p], s)][Child(p, s) := EmptyNode]
    ensures Linked(after)
  {
    var c := Child(p, s);
    assert c !in before && c != p;
    forall q, t | q in after ensures HasChild(after[q], t) <==> Child(q, t) in after {
      if q == c {
        assert !HasChild(EmptyNode, t);
        assert |Child(c, t)| > |c| > |p|;
        assert Parent(Child(c, t)) == c;
      } else {
        if Child(q, t) == c { ChildInjective(q, t, p, s); }
        assert Child(q, t) in after <==> Child(q, t) in before || Child(q, t) == c;
      }
    }
    forall q | q in after && q != [] ensures Parent(q) in after {
      if q == c { assert Parent(c) == p; }
    }
  }

  // ----- breadth-first flattening -----

  ghost predicate Distinct<T>(xs: seq<T>) {
    forall i, j :: 0 <= i < j < |xs| ==> xs[i] != xs[j]
  }

  /** Entry `k` is a child of the earlier entry `parents[k]`. */
  ghost predicate HasParent(flat: seq<Path>, parents: seq<nat>, k: nat)
    requires 0 < k < |flat| == |parents|
  {
    parents[k] < k && flat[k] != [] && flat[parents[k]] == Parent(flat[k])
  }

  /** Every node once, root first, parents before children, level by level. */
  ghost predicate IsFlattening(flat: seq<Path>, parents: seq<nat>, trie: Trie) {
    && |flat| == |parents| && |flat| > 0 && flat[0] == []
    && Distinct(flat)
    && (forall p :: p in flat <==> p in trie)
    && (forall k :: 0 < k < |flat| ==> HasParent(flat, parents, k))
    && (forall a, b :: 0 <= a < b < |flat| ==> |flat[a]| <= |flat[b]|)
  }

  method Children(trie: Trie, p: Path) returns (kids: seq<Path>)
    requires Linked(trie) && p in trie
    ensures AreChildren(trie, p, kids)
  {
    var node := trie[p];
    var keys := SortedKeys(node.literals);
    var lits := seq(|keys|, i requires 0 <= i < |keys| => Child(p, Literal(keys[i])));
    kids := lits;
    if node.parameter { kids := kids + [Child(p, Parameter)]; }
    if node.greedy { kids := kids + [Child(p, Greedy)]; }
    forall i, j | 0 <= i < j < |keys| ensures lits[i] != lits[j] {
      LessAsymmetric(keys[i], keys[j]);
      if lits[i] == lits[j] { ChildInjective(p, Literal(keys[i]), p, Literal(keys[j])); }
    }
    forall i | 0 <= i < |lits| ensures lits[i] != Child(p, Parameter) && lits[i] != Child(p, Greedy) {
      assert lits[i][|p|] == Literal(keys[i]);
      assert Child(p, Parameter)[|p|] == Parameter && Child(p, Greedy)[|p|] == Greedy;
    }
    assert Child(p, Parameter)[|p|] != Child(p, Greedy)[|p|];
    forall q ensures q in kids <==> q in trie && q != [] && Parent(q) == p {
      if q in kids {
        assert q[|p|] == q[|q| - 1] && q == Child(p, q[|p|]);
        if q in lits {
          var i :| 0 <= i < |lits| && lits[i] == q;
          assert keys[i] in keys;
          assert HasChild(node, Literal(keys[i]));
        }
        assert HasChild(node, q[|p|]);
      }
      if q in trie && q != [] && Parent(q) == p {
        var s := q[|q| - 1];
        assert q == Child(p, s) && HasChild(node, s);
        if s.Literal? {
          var i :| 0 <= i < |keys| && keys[i] == s.text;
          assert lits[i] == q;
        }
      }
    }
  }

  /** Scanning has finished the first `i` entries: their children are listed
      (`done` holds the scanned paths), and each later entry `k` was listed by
      the scanned entry `parents[k]`. */
  ghost predicate Scanned(trie: Trie, flat: seq<Path>, parents: seq<nat>, done: set<Path>, i: nat) {
    && i <= |flat| == |parents| && |flat| > 0 && flat[0] == []
    && Distinct(flat)
    && (forall k :: 0 <= k < |flat| ==> flat[k] in trie)
    && ParentsScanned(flat, parents, i)
    && (forall k :: 0 <= k < i ==> flat[k] in done)
    && ChildrenListed(trie, flat, done)
  }

  ghost predicate ParentsScanned(flat: seq<Path>, parents: seq<nat>, i: nat)
    requires |flat| == |parents|
  {
    forall k {:trigger HasParent(flat, parents, k)} :: 0 < k < |flat| ==> HasParent(flat, parents, k) && parents[k] < i
  }

  ghost predicate ChildrenListed(trie: Trie, flat: seq<Path>, done: set<Path>) {
    forall q {:trigger q in flat} :: q in trie && q != [] && Parent(q) in done ==> q in flat
  }

  /** Levels never decrease, and the list reaches at most one level past entry `i`. */
  ghost predicate Levelled(flat: seq<Path>, i: nat) {
    && (forall a, b :: 0 <= a < b < |flat| ==> |flat[a]| <= |flat[b]|)
    && (i < |flat| ==> |flat[|flat| - 1]| <= |flat[i]| + 1)
  }

  ghost predicate AreChildren(trie: Trie, p: Path, kids: seq<Path>) {
    && Distinct(kids)
    && forall q :: q in kids <==> q in trie && q != [] && Parent(q) == p
  }

  lemma ChildrenAreNew(trie: Trie, flat: seq<Path>, parents: seq<nat>, done: set<Path>, i: nat, kids: seq<Path>)
    requires Scanned(trie, flat, parents, done, i) && i < |flat| && AreChildren(trie, flat[i], kids)
    ensures Distinct(flat + kids)
  {
    forall a, b | 0 <= a < |flat| && 0 <= b < |kids| ensures flat[a] != kids[b] {
      assert kids[b] in kids;
      if a > 0 {
        assert HasParent(flat, parents, a) && flat[parents[a]] != flat[i];
      }
    }
  }

  lemma ParentsStep(trie: Trie, flat: seq<Path>, parents: seq<nat>, i: nat, kids: seq<Path>)
    requires |flat| == |parents| && i < |flat| && ParentsScanned(flat, parents, i) && AreChildren(trie, flat[i], kids)
    ensures ParentsScanned(flat + kids, parents + seq(|kids|, _ => i), i + 1)
  {
    var more, owners := flat + kids, parents + seq(|kids|, _ => i);
    forall k | 0 < k < |more| ensures HasParent(more, owners, k) && owners[k] < i + 1 {
      if k < |flat| {
        assert HasParent(flat, parents, k);
        assert more[k] == flat[k] && owners[k] == parents[k];
      } else {
        assert kids[k - |flat|] in kids;
        assert more[k] == kids[k - |flat|] && owners[k] == i;
      }
    }
  }

  lemma ListedStep(trie: Trie, flat: seq<Path>, done: set<Path>, p: Path, kids: seq<Path>)
    requires ChildrenListed(trie, flat, done) && AreChildren(trie, p, kids)
    ensures ChildrenListed(trie, flat + kids, done + {p})
  {
    forall q | q in trie && q != [] && Parent(q) in done + {p} ensures q in flat + kids {
      assert q in flat || q in kids;
    }
  }

  lemma ScannedStep(trie: Trie, flat: seq<Path>, parents: seq<nat>, done: set<Path>, i: nat, kids: seq<Path>)
    requires Scanned(trie, flat, parents, done, i) && i < |flat| && AreChildren(trie, flat[i], kids)
    ensures Scanned(trie, flat + kids, parents + seq(|kids|, _ => i), done + {flat[i]}, i + 1)
  {
    ChildrenAreNew(trie, flat, parents, done, i, kids);
    ParentsStep(trie, flat, parents, i, kids);
    ListedStep(trie, flat, done, flat[i], kids);
    forall k | 0 <= k < |kids| ensures kids[k] in trie {
      assert kids[k] in kids;
    }
  }

  lemma LevelledStep(trie: Trie, flat: seq<Path>, i: nat, kids: seq<Path>)
    requires Levelled(flat, i) && i < |flat| && AreChildren(trie, flat[i], kids)
    ensures Levelled(flat + kids, i + 1)
  {
    forall k | 0 <= k < |kids| ensures |kids[k]| == |flat[i]| + 1 {
      assert kids[k] in kids;
    }
  }

  /** The worklist loop that appends to the list it scans. */
  method Flatten(trie: Trie) returns (flat: seq<Path>, ghost parents: seq<nat>)
    requires Linked(trie)
    ensures Distinct(flat) && (forall p :: p in flat <==> p in trie)
    ensures IsFlattening(flat, parents, trie)
  {
    flat, parents := [[]], [0];
    ghost var done: set<Path> := {};
    var i := 0;
    RootWork(trie);
    while i < |flat|
      invariant WorkList(trie, flat, parents, done, i)
      decreases |trie| - i
    {
      var kids := Children(trie, flat[i]);
      WorkStep(trie, flat, parents, done, i, kids);
      done, parents := done + {flat[i]}, parents + seq(|kids|, _ => i);
      flat := flat + kids;
      i := i + 1;
    }
    FullyScanned(trie, flat, parents, done);
  }

  /** The invariant of the worklist. */
  ghost predicate WorkList(trie: Trie, flat: seq<Path>, parents: seq<nat>, done: set<Path>, i: nat) {
    Scanned(trie, flat, parents, done, i) && Levelled(flat, i)
  }

  lemma RootWork(trie: Trie)
    requires Linked(trie)
    ensures WorkList(trie, [[]], [0], {}, 0)
  {
  }

  /** One round keeps the invariant, and there are no more rounds than nodes. */
  lemma WorkStep(trie: Trie, flat: seq<Path>, parents: seq<nat>, done: set<Path>, i: nat, kids: seq<Path>)
    requires WorkList(trie, flat, parents, done, i) && i < |flat| && AreChildren(trie, flat[i], kids)
    ensures WorkList(trie, flat + kids, parents + seq(|kids|, _ => i), done + {flat[i]}, i + 1)
    ensures i < |trie|
  {
    ScannedStep(trie, flat, parents, done, i, kids);
    LevelledStep(trie, flat, i, kids);
    NoMoreThanNodes(trie, flat);
  }

  lemma NoMoreThanNodes(trie: Trie, flat: seq<Path>)
    requires Distinct(flat) && forall k :: 0 <= k < |flat| ==> flat[k] in trie
    ensures |flat| <= |trie|
  {
    DistinctBound(flat, trie.Keys);
    assert |trie.Keys| == |trie|;
  }

  lemma FullyScanned(trie: Trie, flat: seq<Path>, parents: seq<nat>, done: set<Path>)
    requires Linked(trie) && WorkList(trie, flat, parents, done, |flat|)
    ensures IsFlattening(flat, parents, trie)
  {
    forall q | q in trie ensures q in flat {
      Covered(flat, trie, q);
    }
  }

  lemma {:induction false} Covered(flat: seq<Path>, trie: Trie, q: Path)
    requires Linked(trie) && q in trie && [] in flat
    requires forall r :: r in trie && r != [] && Parent(r) in flat ==> r in flat
    ensures q in flat
    decreases |q|
  {
    if q != [] {
      Covered(flat, trie, Parent(q));
    }
  }

  lemma {:induction false} DistinctBound<T>(xs: seq<T>, s: set<T>)
    requires Distinct(xs) && forall x :: x in xs ==> x in s
    ensures |xs| <= |s|
  {
    if xs != [] {
      var last := xs[|xs| - 1];
      DistinctBound(xs[..|xs| - 1], s - {last});
    }
  }

  method PathIndexes(flat: seq<Path>) returns (indexes: map<Path, nat>)
    requires Distinct(flat)
    ensures forall p :: p in indexes <==> p in flat
    ensures forall i :: 0 <= i < |flat| ==> flat[i] in indexes && indexes[flat[i]] == i
  {
    indexes := map[];
    for i := 0 to |flat|
      invariant forall p :: p in indexes <==> p in flat[..i]
      invariant forall j :: 0 <= j < i ==> flat[j] in indexes && indexes[flat[j]] == j
    {
      indexes := indexes[flat[i] := i];
    }
  }
}
