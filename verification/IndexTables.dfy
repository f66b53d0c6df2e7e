/** The target, query and RPC indexes: run-length grouping of sorted operations
    (cmd/awsmodelgen/main.go). */
module IndexTables {
  import opened Wrappers
  import opened Order
  import opened Text
  import opened RestUri
  import opened RestTables

  /** An operation with the key an index files it under, most significant part first. */
  datatype Item = Item(parts: seq<string>, op: Operation)

  /** A row of an index and, when services share its key, the row of its collision table. */
  datatype IndexEntry = IndexEntry(parts: seq<string>, modelService: string, operation: string, protocol: string,
      ambiguous: bool)

  datatype Collision = Collision(parts: seq<string>, services: seq<string>)

  // ----- key order -----

  predicate PartsLess(a: seq<string>, b: seq<string>) {
    |b| > 0 && (|a| == 0 || Less(a[0], b[0]) || (a[0] == b[0] && PartsLess(a[1..], b[1..])))
  }

  lemma {:induction false} PartsIrreflexive(a: seq<string>)
    ensures !PartsLess(a, a)
  {
    if a != [] {
      LessIrreflexive(a[0]);
      PartsIrreflexive(a[1..]);
    }
  }

  lemma {:induction false} PartsTransitive(a: seq<string>, b: seq<string>, c: seq<string>)
    requires PartsLess(a, b) && PartsLess(b, c)
    ensures PartsLess(a, c)
  {
    if a != [] {
      if Less(a[0], b[0]) && Less(b[0], c[0]) {
        LessTransitive(a[0], b[0], c[0]);
      } else if a[0] == b[0] == c[0] && !Less(a[0], b[0]) && !Less(b[0], c[0]) {
        PartsTransitive(a[1..], b[1..], c[1..]);
      }
    }
  }

  lemma {:induction false} PartsTotal(a: seq<string>, b: seq<string>)
    ensures a == b || PartsLess(a, b) || PartsLess(b, a)
  {
    if a != [] && b != [] {
      LessTotal(a[0], b[0]);
      PartsTotal(a[1..], b[1..]);
      assert a == [a[0]] + a[1..] && b == [b[0]] + b[1..];
    }
  }

  /** Key first, then service: the order every index is sorted in. */
  predicate ItemLe(x: Item, y: Item) {
    if x.parts != y.parts then PartsLess(x.parts, y.parts) else LessEq(x.op.service, y.op.service)
  }

  lemma ItemLeTransitive(x: Item, y: Item, z: Item)
    requires ItemLe(x, y) && ItemLe(y, z)
    ensures ItemLe(x, z)
  {
    if x.parts != y.parts && y.parts != z.parts {
      PartsTransitive(x.parts, y.parts, z.parts);
      PartsIrreflexive(x.parts);
    } else if x.parts == y.parts == z.parts && Less(x.op.service, y.op.service) && Less(y.op.service, z.op.service) {
      LessTransitive(x.op.service, y.op.service, z.op.service);
    }
  }

  lemma ItemLeIsTotalPreorder()
    ensures TotalPreorder(ItemLe)
  {
    forall x, y ensures ItemLe(x, y) || ItemLe(y, x) {
      PartsTotal(x.parts, y.parts);
      LessTotal(x.op.service, y.op.service);
    }
    forall x, y, z | ItemLe(x, y) && ItemLe(y, z) ensures ItemLe(x, z) {
      ItemLeTransitive(x, y, z);
    }
  }

  // ----- what an index must say -----

  ghost function Services(items: seq<Item>, parts: seq<string>): set<string> {
    set x | x in items && x.parts == parts :: x.op.service
  }

  ghost function KeysOf(items: seq<Item>): set<seq<string>> { set x | x in items :: x.parts }

  ghost function EntryKeysOf(entries: seq<IndexEntry>): set<seq<string>> { set e | e in entries :: e.parts }

  /** A row is exact: it is ambiguous just when two services share its key, and
      otherwise names the one service there is. */
  ghost predicate RowExact(e: IndexEntry, items: seq<Item>) {
    && (e.ambiguous <==> |Services(items, e.parts)| > 1)
    && (if e.ambiguous then e.modelService == "" else Services(items, e.parts) == {e.modelService})
    && exists x :: x in items && x.parts == e.parts && x.op.name == e.operation && x.op.protocol == e.protocol
  }

  ghost predicate RowsExact(entries: seq<IndexEntry>, items: seq<Item>) {
    forall k {:trigger RowExact(entries[k], items)} :: 0 <= k < |entries| ==> RowExact(entries[k], items)
  }

  ghost predicate RowsIncreasing(entries: seq<IndexEntry>) {
    forall i, j :: 0 <= i < j < |entries| ==> PartsLess(entries[i].parts, entries[j].parts)
  }

  /** One collision row for each ambiguous row, in order, with the sorted services of its key. */
  ghost function CollisionsOf(entries: seq<IndexEntry>, items: seq<Item>): seq<Collision> {
    if entries == [] then []
    else
      var last := entries[|entries| - 1];
      CollisionsOf(entries[..|entries| - 1], items)
      + if last.ambiguous then [Collision(last.parts, SortedList(Services(items, last.parts)))] else []
  }

  ghost predicate IndexExact(entries: seq<IndexEntry>, collisions: seq<Collision>, items: seq<Item>) {
    && RowsIncreasing(entries) && EntryKeysOf(entries) == KeysOf(items) && RowsExact(entries, items)
    && collisions == CollisionsOf(entries, items)
  }

  // ----- one run -----

  ghost predicate IsRun(run: seq<Item>) {
    && run != [] && (forall k :: 0 <= k < |run| ==> run[k].parts == run[0].parts)
    && (forall i, j :: 0 <= i < j < |run| ==> LessEq(run[i].op.service, run[j].op.service))
  }

  function OpsOf(run: seq<Item>): (ops: seq<Operation>)
    ensures |ops| == |run| && forall k :: 0 <= k < |run| ==> ops[k] == run[k].op
  {
    seq(|run|, k requires 0 <= k < |run| => run[k].op)
  }

  lemma ServicesListed(run: seq<Item>, services: seq<string>)
    requires IsRun(run) && Increasing(services)
    requires forall s :: s in services <==> exists k :: 0 <= k < |run| && run[k].op.service == s
    ensures services == SortedList(Services(run, run[0].parts))
    ensures |services| == |Services(run, run[0].parts)|
    ensures run[0].op.service in services
  {
    var all := Services(run, run[0].parts);
    forall s ensures s in services <==> s in all {
      if s in services {
        var k :| 0 <= k < |run| && run[k].op.service == s;
        assert run[k] in run;
      }
      if s in all {
        var x :| x in run && x.parts == run[0].parts && x.op.service == s;
        var k :| 0 <= k < |run| && run[k] == x;
      }
    }
    IncreasingUnique(services, SortedList(all));
    IncreasingCount(services, all);
  }

  /** A strictly increasing list is as long as the set of its members. */
  lemma {:induction false} IncreasingCount(xs: seq<string>, s: set<string>)
    requires Increasing(xs) && forall x :: x in xs <==> x in s
    ensures |xs| == |s|
  {
    if xs == [] {
      assert s == {};
    } else {
      var init, last := xs[..|xs| - 1], xs[|xs| - 1];
      assert xs == init + [last];
      assert last !in init by {
        LessIrreflexive(last);
      }
      IncreasingCount(init, s - {last});
      assert s == (s - {last}) + {last};
    }
  }

  /** The row and collision written for one run of equal keys. */
  method EmitRun(run: seq<Item>) returns (e: IndexEntry, collision: seq<Collision>)
    requires IsRun(run)
    ensures e.parts == run[0].parts && RowExact(e, run)
    ensures collision == if e.ambiguous then [Collision(e.parts, SortedList(Services(run, e.parts)))] else []
  {
    var first := run[0];
    var services := CollisionServices(OpsOf(run));
    ServicesListed(run, services);
    assert first in run;
    if |services| > 1 {
      e := IndexEntry(first.parts, "", first.op.name, first.op.protocol, true);
      collision := [Collision(first.parts, services)];
    } else {
      e := IndexEntry(first.parts, first.op.service, first.op.name, first.op.protocol, false);
      collision := [];
      OnlyService(Services(run, first.parts), first.op.service);
    }
  }

  lemma OnlyService(s: set<string>, x: string)
    requires x in s && |s| <= 1
    ensures s == {x}
  {
    assert |s - {x}| == 0;
  }

  // ----- all runs -----

  ghost predicate RowsBelow(entries: seq<IndexEntry>, parts: seq<string>) {
    forall k {:trigger entries[k]} :: 0 <= k < |entries| ==> PartsLess(entries[k].parts, parts)
  }

  ghost predicate AllKeyed(run: seq<Item>, parts: seq<string>) {
    forall x {:trigger x in run} :: x in run ==> x.parts == parts
  }

  lemma ServicesConcat(items: seq<Item>, run: seq<Item>, parts: seq<string>)
    ensures Services(items + run, parts) == Services(items, parts) + Services(run, parts)
  {
    assert forall x :: x in items + run <==> x in items || x in run;
  }

  lemma OtherServices(run: seq<Item>, key: seq<string>, parts: seq<string>)
    requires AllKeyed(run, key) && parts != key
    ensures Services(run, parts) == {}
  {
  }

  lemma RowStays(e: IndexEntry, items: seq<Item>, more: seq<Item>)
    requires RowExact(e, items) && Services(more, e.parts) == Services(items, e.parts)
    requires forall x :: x in items ==> x in more
    ensures RowExact(e, more)
  {
  }

  lemma RowsStay(entries: seq<IndexEntry>, items: seq<Item>, run: seq<Item>, key: seq<string>)
    requires RowsExact(entries, items) && RowsBelow(entries, key) && AllKeyed(run, key)
    ensures RowsExact(entries, items + run)
  {
    forall k | 0 <= k < |entries| ensures RowExact(entries[k], items + run) {
      var parts := entries[k].parts;
      assert PartsLess(parts, key);
      PartsIrreflexive(key);
      ServicesConcat(items, run, parts);
      OtherServices(run, key, parts);
      RowStays(entries[k], items, items + run);
    }
  }

  lemma {:induction false} CollisionsStay(entries: seq<IndexEntry>, items: seq<Item>, run: seq<Item>, key: seq<string>)
    requires RowsBelow(entries, key) && AllKeyed(run, key)
    ensures CollisionsOf(entries, items + run) == CollisionsOf(entries, items)
  {
    if entries != [] {
      var init, last := entries[..|entries| - 1], entries[|entries| - 1];
      CollisionsStay(init, items, run, key);
      assert PartsLess(last.parts, key);
      PartsIrreflexive(key);
      ServicesConcat(items, run, last.parts);
      OtherServices(run, key, last.parts);
      assert Services(items + run, last.parts) == Services(items, last.parts);
    }
  }

  /** A run under a key above all others extends an exact index. */
  lemma RunAppends(entries: seq<IndexEntry>, collisions: seq<Collision>, items: seq<Item>, run: seq<Item>,
                   e: IndexEntry, collision: seq<Collision>)
    requires IndexExact(entries, collisions, items) && run != [] && AllKeyed(run, e.parts)
      && RowsBelow(entries, e.parts)
    requires RowExact(e, run)
    requires collision == if e.ambiguous then [Collision(e.parts, SortedList(Services(run, e.parts)))] else []
    ensures IndexExact(entries + [e], collisions + collision, items + run)
  {
    var longer := entries + [e];
    NewServices(entries, items, run, e.parts);
    RowsStay(entries, items, run, e.parts);
    RowStays(e, run, items + run);
    assert RowsExact(longer, items + run) by {
      forall k | 0 <= k < |longer| ensures RowExact(longer[k], items + run) {
        assert k < |entries| ==> RowExact(entries[k], items + run);
      }
    }
    KeysAppend(entries, items, run, e);
    CollisionsStay(entries, items, run, e.parts);
    assert longer[..|entries|] == entries;
  }

  lemma NewServices(entries: seq<IndexEntry>, items: seq<Item>, run: seq<Item>, key: seq<string>)
    requires EntryKeysOf(entries) == KeysOf(items) && RowsBelow(entries, key)
    ensures Services(items + run, key) == Services(run, key)
  {
    ServicesConcat(items, run, key);
    PartsIrreflexive(key);
    forall x | x in items ensures x.parts != key {
      assert x.parts in EntryKeysOf(entries);
    }
  }

  lemma KeysAppend(entries: seq<IndexEntry>, items: seq<Item>, run: seq<Item>, e: IndexEntry)
    requires EntryKeysOf(entries) == KeysOf(items) && run != [] && AllKeyed(run, e.parts)
    ensures EntryKeysOf(entries + [e]) == KeysOf(items + run)
  {
    assert run[0] in run;
    assert EntryKeysOf(entries + [e]) == EntryKeysOf(entries) + {e.parts};
    assert KeysOf(items + run) == KeysOf(items) + {e.parts};
  }

  predicate SameParts(x: Item, y: Item) { x.parts == y.parts }

  lemma RunAt(items: seq<Item>, start: nat, end: nat)
    requires SortedBy(ItemLe, items) && start < end <= |items|
    requires forall k :: start < k < end ==> SameParts(items[start], items[k])
    ensures IsRun(items[start..end]) && AllKeyed(items[start..end], items[start].parts)
  {
    var run := items[start..end];
    forall i, j | 0 <= i < j < |run| ensures LessEq(run[i].op.service, run[j].op.service) {
      assert ItemLe(items[start + i], items[start + j]);
    }
  }

  lemma NextAbove(items: seq<Item>, entries: seq<IndexEntry>, e: IndexEntry, start: nat, end: nat)
    requires SortedBy(ItemLe, items) && start < end < |items| && !SameParts(items[start], items[end])
    requires RowsBelow(entries, e.parts) && e.parts == items[start].parts
    ensures RowsBelow(entries + [e], items[end].parts)
  {
    assert ItemLe(items[start], items[end]);
    forall k | 0 <= k < |entries| ensures PartsLess(entries[k].parts, items[end].parts) {
      PartsTransitive(entries[k].parts, e.parts, items[end].parts);
    }
  }

  lemma NothingIndexed()
    ensures IndexExact([], [], [])
  {
    assert EntryKeysOf([]) == {} == KeysOf([]);
  }

  lemma SlicesJoin(items: seq<Item>, start: nat, end: nat)
    requires start <= end <= |items|
    ensures items[..start] + items[start..end] == items[..end]
  {
  }

  /** The loop shared by writeTargetIndex, writeQueryIndex and writeRPCIndex. */
  method WriteIndex(items: seq<Item>) returns (entries: seq<IndexEntry>, collisions: seq<Collision>)
    requires SortedBy(ItemLe, items)
    ensures IndexExact(entries, collisions, items)
  {
    entries, collisions := [], [];
    var start := 0;
    NothingIndexed();
    assert items[..0] == [];
    while start < |items|
      invariant 0 <= start <= |items|
      invariant IndexExact(entries, collisions, items[..start])
      invariant start < |items| ==> RowsBelow(entries, items[start].parts)
    {
      var end := RunEnd(items, start, SameParts);
      RunAt(items, start, end);
      SlicesJoin(items, start, end);
      var before, run := items[..start], items[start..end];
      var e, collision := EmitRun(run);
      RunAppends(entries, collisions, before, run, e, collision);
      if end < |items| {
        NextAbove(items, entries, e, start, end);
      }
      entries, collisions, start := entries + [e], collisions + collision, end;
    }
    assert items[..start] == items;
  }

  method SortItems(items: seq<Item>) returns (xs: seq<Item>)
    ensures SortedBy(ItemLe, xs) && forall x :: x in xs <==> x in items
  {
    ItemLeIsTotalPreorder();
    xs := Sort(items, ItemLe);
    SameMembers(xs, items);
  }

  // ----- the three indexes -----

  predicate IsTarget(op: Operation) {
    op.targetPrefix != "" && (op.protocol == "AWSJSON10" || op.protocol == "AWSJSON11")
  }

  function TargetItem(op: Operation): Item { Item([op.targetPrefix + op.name], op) }

  const QUERY_SERVICES := {"sqs"}

  predicate IsQuery(op: Operation) {
    || op.protocol == "AWSQuery" || op.protocol == "EC2Query" || "AWSQuery" in op.protocols
      || "EC2Query" in op.protocols
    || op.service in QUERY_SERVICES
  }

  /** `queryIndexEntry`: a service declared for the Query wire gets the Query protocol. */
  function QueryItem(op: Operation): Item {
    var declared := op.protocol == "AWSQuery" || op.protocol == "EC2Query" || "AWSQuery" in op.protocols
      || "EC2Query" in op.protocols;
    Item([op.apiVersion, op.name], if declared then op else op.(protocol := "AWSQuery"))
  }

  function RpcItem(op: Operation, protocol: string): Item {
    Item([protocol, op.serviceShape, op.name], op.(protocol := protocol))
  }

  predicate IsRest(op: Operation) {
    (op.protocol == "RESTJSON" || op.protocol == "RESTXML") && op.httpMethod != "" && op.uri != "" && op.service != "s3"
  }

  function RpcItems(op: Operation): seq<Item> {
    (if "RPCV2CBOR" in op.protocols then [RpcItem(op, "RPCV2CBOR")] else [])
    + (if "RPCV2JSON" in op.protocols then [RpcItem(op, "RPCV2JSON")] else [])
  }

  /** What writeRegistryIndexes hands to each writer. */
  datatype Inputs = Inputs(targets: seq<Item>, queries: seq<Item>, rest: seq<Operation>, rpc: seq<Item>)

  function Select(operations: seq<Operation>): Inputs {
    if operations == [] then Inputs([], [], [], [])
    else
      var before, op := Select(operations[..|operations| - 1]), operations[|operations| - 1];
      Inputs(
        before.targets + (if IsTarget(op) then [TargetItem(op)] else []),
        before.queries + (if IsQuery(op) then [QueryItem(op)] else []),
        before.rest + (if IsRest(op) then [op] else []),
        before.rpc + RpcItems(op))
  }

  /** An operation of an AWS JSON protocol with a target prefix. */
  predicate SpeaksJson(op: Operation) {
    op.targetPrefix != "" && op.protocol in {"AWSJSON10", "AWSJSON11"}
  }

  /** One of a Query protocol, first or in addition. */
  predicate SpeaksQuery(op: Operation) {
    op.protocol in {"AWSQuery", "EC2Query"} || exists p :: p in op.protocols && p in {"AWSQuery", "EC2Query"}
  }

  /** `x` is the target row of some operation. */
  ghost predicate TargetRow(operations: seq<Operation>, x: Item) {
    exists op :: op in operations && SpeaksJson(op) && x == Item([op.targetPrefix + op.name], op)
  }

  /** `x` is the query row of an operation that speaks Query, or of one of SQS,
      which is given its protocol. */
  ghost predicate QueryRow(operations: seq<Operation>, x: Item) {
    exists op :: op in operations && (SpeaksQuery(op) || op.service == "sqs")
      && x == Item([op.apiVersion, op.name], if SpeaksQuery(op) then op else op.(protocol := "AWSQuery"))
  }

  /** `x` is the row of an operation for one of the RPC protocols it speaks. */
  ghost predicate RpcRow(operations: seq<Operation>, x: Item) {
    exists op, p :: op in operations && p in op.protocols && p in {"RPCV2CBOR", "RPCV2JSON"}
      && x == Item([p, op.serviceShape, op.name], op.(protocol := p))
  }

  lemma QuerySpoken(op: Operation)
    ensures IsQuery(op) <==> SpeaksQuery(op) || op.service == "sqs"
    ensures QueryItem(op) == Item([op.apiVersion, op.name], if SpeaksQuery(op) then op else op.(protocol := "AWSQuery"))
  {
    assert "AWSQuery" in op.protocols ==> SpeaksQuery(op);
    assert "EC2Query" in op.protocols ==> SpeaksQuery(op);
  }

  lemma RpcSpoken(op: Operation, x: Item)
    ensures x in RpcItems(op) <==>
      exists p :: p in op.protocols && p in {"RPCV2CBOR", "RPCV2JSON"}
                  && x == Item([p, op.serviceShape, op.name], op.(protocol := p))
  {
  }

  /** What each table is made from: a row for every operation that speaks its
      protocol, under that operation's names, and no other. */
  lemma {:induction false} SelectedExactly(operations: seq<Operation>, x: Item)
    ensures x in Select(operations).targets <==> TargetRow(operations, x)
    ensures x in Select(operations).queries <==> QueryRow(operations, x)
    ensures x in Select(operations).rpc <==> RpcRow(operations, x)
  {
    if operations != [] {
      var init, last := operations[..|operations| - 1], operations[|operations| - 1];
      assert forall op :: op in operations <==> op in init || op == last;
      SelectedExactly(init, x);
      QuerySpoken(last);
      RpcSpoken(last, x);
    }
  }

  method SelectInputs(operations: seq<Operation>) returns (inputs: Inputs)
    ensures inputs == Select(operations)
  {
    inputs := Inputs([], [], [], []);
    for i := 0 to |operations|
      invariant inputs == Select(operations[..i])
    {
      assert operations[..i + 1][..i] == operations[..i];
      var op := operations[i];
      inputs := Inputs(
        inputs.targets + (if IsTarget(op) then [TargetItem(op)] else []),
        inputs.queries + (if IsQuery(op) then [QueryItem(op)] else []),
        inputs.rest + (if IsRest(op) then [op] else []),
        inputs.rpc + RpcItems(op));
    }
    assert operations[..|operations|] == operations;
  }

  lemma SameItems(entries: seq<IndexEntry>, collisions: seq<Collision>, xs: seq<Item>, items: seq<Item>)
    requires IndexExact(entries, collisions, xs) && forall x :: x in xs <==> x in items
    ensures IndexExact(entries, collisions, items)
  {
    assert KeysOf(xs) == KeysOf(items);
    forall parts ensures Services(xs, parts) == Services(items, parts) {
    }
    forall k | 0 <= k < |entries| ensures RowExact(entries[k], items) {
      assert RowExact(entries[k], xs);
      RowStays(entries[k], xs, items);
    }
    SameCollisions(entries, xs, items);
  }

  lemma {:induction false} SameCollisions(entries: seq<IndexEntry>, xs: seq<Item>, items: seq<Item>)
    requires forall parts {:trigger Services(xs, parts)} :: Services(xs, parts) == Services(items, parts)
    ensures CollisionsOf(entries, xs) == CollisionsOf(entries, items)
  {
    if entries != [] {
      SameCollisions(entries[..|entries| - 1], xs, items);
      var last := entries[|entries| - 1].parts;
      assert Services(xs, last) == Services(items, last);
    }
  }

  datatype Index = Index(entries: seq<IndexEntry>, collisions: seq<Collision>)

  method SortAndWrite(items: seq<Item>) returns (index: Index)
    ensures IndexExact(index.entries, index.collisions, items)
  {
    var sorted := SortItems(items);
    var entries, collisions := WriteIndex(sorted);
    SameItems(entries, collisions, sorted, items);
    index := Index(entries, collisions);
  }

  /** The target, query and RPC tables of writeRegistryIndexes. */
  method WriteRegistryIndexes(operations: seq<Operation>) returns (targets: Index, queries: Index, rpc: Index)
    ensures IndexExact(targets.entries, targets.collisions, Select(operations).targets)
    ensures IndexExact(queries.entries, queries.collisions, Select(operations).queries)
    ensures IndexExact(rpc.entries, rpc.collisions, Select(operations).rpc)
  {
    var inputs := SelectInputs(operations);
    targets := SortAndWrite(inputs.targets);
    queries := SortAndWrite(inputs.queries);
    rpc := SortAndWrite(inputs.rpc);
  }

  // ----- looking a key up -----

  lemma BelowSplits(entries: seq<IndexEntry>, parts: seq<string>, i: nat, j: nat)
    requires RowsIncreasing(entries) && i < j < |entries|
    ensures PartsLess(entries[j].parts, parts) ==> PartsLess(entries[i].parts, parts)
  {
    if PartsLess(entries[j].parts, parts) {
      PartsTransitive(entries[i].parts, entries[j].parts, parts);
    }
  }

  /** The binary search of ClaimTarget, ClaimQuery and ClaimRPC: a key is found
      exactly when some operation declares it, and then with its exact row. */
  method SearchIndex(entries: seq<IndexEntry>, parts: seq<string>, ghost collisions: seq<Collision>,
                     ghost items: seq<Item>)
    returns (row: Option<IndexEntry>)
    requires IndexExact(entries, collisions, items)
    ensures row.Some? <==> parts in KeysOf(items)
    ensures row.Some? ==> row.value.parts == parts && RowExact(row.value, items)
  {
    var lo, hi := 0, |entries|;
    while lo < hi
      invariant 0 <= lo <= hi <= |entries|
      invariant forall k {:trigger entries[k]} :: 0 <= k < lo ==> PartsLess(entries[k].parts, parts)
      invariant forall k {:trigger entries[k]} :: hi <= k < |entries| ==> !PartsLess(entries[k].parts, parts)
    {
      var mid := (lo + hi) / 2;
      if PartsLess(entries[mid].parts, parts) {
        forall k | 0 <= k < mid ensures PartsLess(entries[k].parts, parts) { BelowSplits(entries, parts, k, mid); }
        lo := mid + 1;
      } else {
        forall k | mid < k < |entries| ensures !PartsLess(entries[k].parts, parts) {
          BelowSplits(entries, parts, mid, k);
        }
        hi := mid;
      }
    }
    if lo < |entries| && entries[lo].parts == parts {
      assert entries[lo] in entries && RowExact(entries[lo], items);
      return Some(entries[lo]);
    }
    row := None;
    forall e | e in entries ensures e.parts != parts {
      var k :| 0 <= k < |entries| && entries[k] == e;
      PartsIrreflexive(parts);
      if k > lo { assert PartsLess(entries[lo].parts, entries[k].parts); }
    }
  }

  // ----- the joined keys -----

  const NUL: string := "\0"

  /** The joined key that writeQueryIndex compares. */
  function JoinedKey(version: string, name: string): string { version + NUL + name }

  /** With no NUL in a version, the joined key of writeQueryIndex tells versions
      and names apart, so its runs are those of the two parts. */
  lemma JoinedKeysDiffer(v: string, n: string, w: string, m: string)
    requires '\0' !in v && '\0' !in w
    ensures JoinedKey(v, n) == JoinedKey(w, m) <==> v == w && n == m
  {
    if JoinedKey(v, n) == JoinedKey(w, m) {
      SplitPrefix(v, n, '\0');
      SplitPrefix(w, m, '\0');
      assert v == Split(JoinedKey(v, n), '\0')[0] == w;
      assert n == JoinedKey(v, n)[|v| + 1..] && m == JoinedKey(w, m)[|w| + 1..];
    }
  }
}
