/** The model inventory: collision groups and fallback coverage
    (cmd/awsmodelgen/inventory.go), and how its reading of REST bindings relates
    to the compiled trie. */
module Inventory {
  import opened Wrappers
  import opened Order
  import opened Text
  import opened RestUri
  import opened RestTrie
  import opened RestTables
  import opened RestCompiler
  import opened IndexTables

  // ----- collision groups -----

  datatype Kind = TargetKind | QueryKind | RestKind | RpcKind

  /** A group key, its kind kept apart from its text. */
  datatype GroupKey = GroupKey(kind: Kind, key: string)

  type Groups = map<GroupKey, set<string>>

  predicate QueryProtocol(op: Operation) { op.protocol == "AWSQuery" || op.protocol == "EC2Query" }

  predicate RpcProtocol(protocol: string) { protocol == "RPCV2CBOR" || protocol == "RPCV2JSON" }

  /** A REST binding the inventory counts; S3 has been left out before. */
  predicate RestBound(op: Operation) {
    (op.protocol == "RESTJSON" || op.protocol == "RESTXML") && op.httpMethod != "" && op.uri != ""
  }

  function RpcKey(protocol: string, op: Operation): GroupKey {
    GroupKey(RpcKind, protocol + "\0" + op.serviceShape + "\0" + op.name)
  }

  function RestKey(op: Operation): GroupKey { GroupKey(RestKind, NormalizedBinding(op)) }

  /** The groups an operation is counted in. */
  function GroupKeys(op: Operation): set<GroupKey> {
    if op.service == "s3" then {}
    else
      (if IsTarget(op) then {GroupKey(TargetKind, op.targetPrefix + op.name)} else {})
      + (if QueryProtocol(op) then {GroupKey(QueryKind, op.apiVersion + "\0" + op.name)} else {})
      + (if RestBound(op) then {RestKey(op)} else {})
      + (set protocol | protocol in op.protocols && RpcProtocol(protocol) :: RpcKey(protocol, op))
  }

  /** The services that declare a key. */
  ghost function Declaring(operations: seq<Operation>, key: GroupKey): set<string> {
    set op | op in operations && key in GroupKeys(op) :: op.service
  }

  /** A group for every declared key, holding exactly the services that declare it. */
  ghost predicate GroupsExact(groups: Groups, operations: seq<Operation>) {
    forall key {:trigger key in groups} {:trigger Declaring(operations, key)} ::
      && (key in groups <==> Declaring(operations, key) != {})
      && (key in groups ==> groups[key] == Declaring(operations, key))
  }

  // ----- the normalised binding -----

  function NormalSegment(segment: string): string {
    if IsGreedyLabel(segment) then "{+}" else if IsLabel(segment) then "{}" else segment
  }

  function NormalSegments(segments: seq<string>): (r: seq<string>)
    ensures |r| == |segments| && forall k :: 0 <= k < |r| ==> r[k] == NormalSegment(segments[k])
  {
    seq(|segments|, k requires 0 <= k < |segments| => NormalSegment(segments[k]))
  }

  function NormalPath(path: string): string { Join(NormalSegments(Split(path, '/')), "/") }

  /** `normalizedRESTBinding`. */
  function NormalizedBinding(op: Operation): string {
    var (path, query) := SplitUri(op.uri);
    op.httpMethod + " " + NormalPath(path) + (if query != "" then "?" + query else "")
  }

  /** What one segment becomes tells as much as its step in the trie. */
  lemma NormalIsStep(a: string, b: string)
    ensures NormalSegment(a) == NormalSegment(b) <==> Classify(a) == Classify(b)
  {
    assert IsGreedyLabel("{+}") && IsLabel("{}") && !IsGreedyLabel("{}");
  }

  lemma NormalLacks(segment: string, c: char)
    requires c !in segment && c != '{' && c != '}' && c != '+'
    ensures c !in NormalSegment(segment)
  {
  }

  lemma NormalPathsEqual(p: string, q: string)
    ensures NormalPath(p) == NormalPath(q) <==> ClassifyAll(Split(p, '/')) == ClassifyAll(Split(q, '/'))
  {
    var xs, ys := Split(p, '/'), Split(q, '/');
    NormalNoSlash(xs);
    NormalNoSlash(ys);
    SplitJoin(NormalSegments(xs), '/');
    SplitJoin(NormalSegments(ys), '/');
    SegmentsEqual(xs, ys);
  }

  lemma NormalNoSlash(xs: seq<string>)
    requires forall k :: 0 <= k < |xs| ==> '/' !in xs[k]
    ensures var n := NormalSegments(xs); forall k :: 0 <= k < |n| ==> '/' !in n[k]
  {
    var n := NormalSegments(xs);
    forall k | 0 <= k < |n| ensures '/' !in n[k] {
      NormalLacks(xs[k], '/');
    }
  }

  lemma SegmentsEqual(xs: seq<string>, ys: seq<string>)
    ensures NormalSegments(xs) == NormalSegments(ys) <==> ClassifyAll(xs) == ClassifyAll(ys)
  {
    if |xs| == |ys| {
      forall k | 0 <= k < |xs|
        ensures NormalSegments(xs)[k] == NormalSegments(ys)[k] <==> ClassifyAll(xs)[k] == ClassifyAll(ys)[k]
      {
        NormalIsStep(xs[k], ys[k]);
      }
    }
  }

  lemma {:induction false} JoinLacks(parts: seq<string>, c: char)
    requires c != '/' && forall k :: 0 <= k < |parts| ==> c !in parts[k]
    ensures c !in Join(parts, "/")
  {
    if |parts| > 1 {
      JoinLacks(parts[1..], c);
    }
  }

  lemma {:induction false} SplitLacks(s: string, sep: char, c: char)
    requires c !in s
    ensures forall k :: 0 <= k < |Split(s, sep)| ==> c !in Split(s, sep)[k]
  {
    if s != [] {
      assert s == [s[0]] + s[1..];
      SplitLacks(s[1..], sep, c);
    }
  }

  lemma NormalPathLacks(path: string)
    requires '?' !in path
    ensures '?' !in NormalPath(path)
  {
    var segments := Split(path, '/');
    SplitLacks(path, '/', '?');
    forall k | 0 <= k < |segments| ensures '?' !in NormalSegments(segments)[k] {
      NormalLacks(segments[k], '?');
    }
    JoinLacks(NormalSegments(segments), '?');
  }

  /** The text can be taken apart again: method, path and query. */
  lemma BindingParts(m: string, p: string, q: string, m2: string, p2: string, q2: string)
    requires ' ' !in m && ' ' !in m2 && '?' !in p && '?' !in p2
    ensures m + " " + p + (if q != "" then "?" + q else "") == m2 + " " + p2 + (if q2 != "" then "?" + q2 else "")
      <==> m == m2 && p == p2 && q == q2
  {
    var t, t2 := p + (if q != "" then "?" + q else ""), p2 + (if q2 != "" then "?" + q2 else "");
    assert m + " " + p + (if q != "" then "?" + q else "") == m + " " + t;
    assert m2 + " " + p2 + (if q2 != "" then "?" + q2 else "") == m2 + " " + t2;
    Apart(m, t, m2, t2, ' ');
    TailApart(p, q, p2, q2);
  }

  lemma Apart(a: string, b: string, a2: string, b2: string, c: char)
    requires c !in a && c !in a2
    ensures a + [c] + b == a2 + [c] + b2 <==> a == a2 && b == b2
  {
    if a + [c] + b == a2 + [c] + b2 {
      SplitPrefix(a, b, c);
      SplitPrefix(a2, b2, c);
      assert a == Split(a + [c] + b, c)[0] == a2;
      assert b == (a + [c] + b)[|a| + 1..] && b2 == (a2 + [c] + b2)[|a2| + 1..];
    }
  }

  lemma TailApart(p: string, q: string, p2: string, q2: string)
    requires '?' !in p && '?' !in p2
    ensures p + (if q != "" then "?" + q else "") == p2 + (if q2 != "" then "?" + q2 else "") <==> p == p2 && q == q2
  {
    var t, t2 := p + (if q != "" then "?" + q else ""), p2 + (if q2 != "" then "?" + q2 else "");
    if q != "" && q2 != "" {
      assert t == p + ['?'] + q && t2 == p2 + ['?'] + q2;
      Apart(p, q, p2, q2, '?');
    } else if q != "" {
      assert t[|p|] == '?' && '?' in t && t2 == p2;
    } else if q2 != "" {
      assert t2[|p2|] == '?' && '?' in t2 && t == p;
    } else {
      assert t == p && t2 == p2;
    }
  }

  // ----- agreement with the trie -----

  /** Whether the path starts with a slash, and whether it ends in one that the trie trims. */
  datatype Slashes = Slashes(leading: bool, trailing: bool)

  function SlashesOf(path: string): Slashes {
    Slashes(|path| > 0 && path[0] == '/', |path| > 1 && path[|path| - 1] == '/')
  }

  /** What is left of a path when the trie has trimmed its slashes. */
  function Trimmed(path: string): string {
    var p := TrimTrailingSlash(path);
    if |p| > 0 && p[0] == '/' then p[1..] else p
  }

  function IfSlash(b: bool): seq<string> { if b then [""] else [] }

  /** A path splits into its trimmed part, with an empty part for every trimmed slash. */
  lemma SplitAroundSlashes(path: string)
    ensures Split(path, '/') ==
      IfSlash(SlashesOf(path).leading) + Split(Trimmed(path), '/') + IfSlash(SlashesOf(path).trailing)
  {
    var p := TrimTrailingSlash(path);
    if SlashesOf(path).trailing {
      assert path == p + ['/'];
      SplitTrailing(p, '/');
    }
    SplitUnderRoot(p);
    assert |path| > 0 ==> p[0] == path[0];
  }

  lemma SplitUnderRoot(p: string)
    ensures var rooted := |p| > 0 && p[0] == '/';
      Split(p, '/') == IfSlash(rooted) + Split(if rooted then p[1..] else p, '/')
  {
  }

  lemma OnlyEmptyIsEmpty(s: string)
    ensures Classify(s) == Literal("") <==> s == ""
  {
  }

  lemma ClassifyConcat(xs: seq<string>, ys: seq<string>)
    ensures ClassifyAll(xs + ys) == ClassifyAll(xs) + ClassifyAll(ys)
  {
  }

  function EmptySteps(b: bool): Path { if b then [Literal("")] else [] }

  /** The steps of the split path, around those of the trimmed part. */
  function Padded(slashes: Slashes, middle: Path): Path {
    EmptySteps(slashes.leading) + middle + EmptySteps(slashes.trailing)
  }

  /** The steps the trimmed part splits into: the trie's, or one empty step for its root. */
  function MiddleSteps(steps: Path): Path { if steps == [] then [Literal("")] else steps }

  lemma StepsAroundSlashes(uri: string)
    ensures ClassifyAll(Split(PathOf(uri), '/'))
      == Padded(SlashesOf(PathOf(uri)), MiddleSteps(ClassifyAll(Segments(uri))))
  {
    var path := PathOf(uri);
    var s, middle := SlashesOf(path), Split(Trimmed(path), '/');
    SplitAroundSlashes(path);
    ClassifyConcat(IfSlash(s.leading) + middle, IfSlash(s.trailing));
    ClassifyConcat(IfSlash(s.leading), middle);
    OnlyEmptyIsEmpty("");
    assert ClassifyAll([""]) == [Literal("")] && ClassifyAll([]) == [];
    assert Trimmed(path) == "" ==> middle == [""];
  }

  /** The slashes of a path can be read off its steps: the root is two empty steps. */
  lemma PaddingShows(path: string)
    ensures var steps := ClassifyAll(Split(path, '/'));
      && (SlashesOf(path).leading <==> |steps| > 1 && steps[0] == Literal(""))
      && (SlashesOf(path).trailing <==>
          |steps| > 1 && steps[|steps| - 1] == Literal("") && steps != [Literal(""), Literal("")])
  {
    var parts := Split(path, '/');
    SplitEnds(path);
    OnlyEmptyIsEmpty(parts[0]);
    OnlyEmptyIsEmpty(parts[|parts| - 1]);
    assert parts == ["", ""] <==> ClassifyAll(parts) == [Literal(""), Literal("")] by {
      if |parts| == 2 {
        assert ClassifyAll(parts) == [Classify(parts[0]), Classify(parts[1])];
      }
    }
  }

  lemma SplitEnds(path: string)
    ensures var parts := Split(path, '/');
      && (SlashesOf(path).leading <==> |parts| > 1 && parts[0] == "")
      && (SlashesOf(path).trailing <==> |parts| > 1 && parts[|parts| - 1] == "" && parts != ["", ""])
  {
    SplitStart(path);
    SplitEnd(path);
  }

  lemma SplitStart(path: string)
    ensures var parts := Split(path, '/'); SlashesOf(path).leading <==> |parts| > 1 && parts[0] == ""
  {
    var parts := Split(path, '/');
    JoinSplit(path, '/');
    if |parts| > 1 && parts[0] == "" {
      assert Join(parts, "/") == "" + "/" + Join(parts[1..], "/");
    }
  }

  lemma SplitEnd(path: string)
    ensures var parts := Split(path, '/');
      SlashesOf(path).trailing <==> |parts| > 1 && parts[|parts| - 1] == "" && parts != ["", ""]
  {
    var parts := Split(path, '/');
    JoinSplit(path, '/');
    assert Join(["", ""], "/") == "/" by { assert ["", ""][1..] == [""]; }
    if SlashesOf(path).trailing {
      SplitTrailing(path[..|path| - 1], '/');
      assert path == path[..|path| - 1] + ['/'];
    }
    if |parts| > 1 && parts[|parts| - 1] == "" {
      JoinedEnd(parts);
      assert Split("/", '/') == ["", ""] by { assert "/"[1..] == ""; }
    }
  }

  lemma {:induction false} JoinedEnd(parts: seq<string>)
    requires |parts| > 1 && parts[|parts| - 1] == ""
    ensures var s := Join(parts, "/"); |s| > 0 && s[|s| - 1] == '/'
  {
    if |parts| == 2 {
      assert Join(parts, "/") == parts[0] + "/" + parts[1];
    } else {
      JoinedEnd(parts[1..]);
      assert Join(parts, "/") == parts[0] + "/" + Join(parts[1..], "/");
    }
  }

  lemma MiddleInjective(xs: Path, ys: Path)
    requires xs != [Literal("")] && ys != [Literal("")]
    ensures MiddleSteps(xs) == MiddleSteps(ys) <==> xs == ys
  {
  }

  lemma SegmentsNeverBare(uri: string)
    ensures ClassifyAll(Segments(uri)) != [Literal("")]
  {
    var segments := Segments(uri);
    var rest := Trimmed(PathOf(uri));
    if |segments| == 1 {
      JoinSplit(rest, '/');
      assert segments[0] == rest != "";
      OnlyEmptyIsEmpty(rest);
      assert ClassifyAll(segments)[0] == Classify(rest);
    }
  }

  lemma PaddedInjective(s: Slashes, xs: Path, ys: Path)
    ensures Padded(s, xs) == Padded(s, ys) <==> xs == ys
  {
    var lead, trail := EmptySteps(s.leading), EmptySteps(s.trailing);
    if Padded(s, xs) == Padded(s, ys) {
      assert xs == Padded(s, xs)[|lead|..|Padded(s, xs)| - |trail|];
      assert ys == Padded(s, ys)[|lead|..|Padded(s, ys)| - |trail|];
    }
  }

  /** Two normalised paths are equal exactly when the trie steps and the slashes are. */
  lemma PathsAgree(uri: string, other: string)
    ensures NormalPath(PathOf(uri)) == NormalPath(PathOf(other)) <==>
      ClassifyAll(Segments(uri)) == ClassifyAll(Segments(other)) && SlashesOf(PathOf(uri)) == SlashesOf(PathOf(other))
  {
    var p, q := PathOf(uri), PathOf(other);
    var xs, ys := ClassifyAll(Segments(uri)), ClassifyAll(Segments(other));
    NormalPathsEqual(p, q);
    PaddingShows(p);
    PaddingShows(q);
    StepsAroundSlashes(uri);
    StepsAroundSlashes(other);
    SegmentsNeverBare(uri);
    SegmentsNeverBare(other);
    MiddleInjective(xs, ys);
    PaddedInjective(SlashesOf(p), MiddleSteps(xs), MiddleSteps(ys));
  }

  /** The trie files the operations under one path, method and query. */
  predicate SamePlace(x: Operation, y: Operation) {
    RouteOf(x).path == RouteOf(y).path && RouteOf(x).Key() == RouteOf(y).Key()
  }

  predicate SameSlashes(x: Operation, y: Operation) { SlashesOf(PathOf(x.uri)) == SlashesOf(PathOf(y.uri)) }

  /** An HTTP method: it holds no space. */
  predicate PlainMethod(op: Operation) { ' ' !in op.httpMethod }

  /** Two operations have one normalised binding exactly when the trie files them
      together and their paths agree in the slashes it trims. */
  lemma BindingsExact(x: Operation, y: Operation)
    requires PlainMethod(x) && PlainMethod(y)
    ensures NormalizedBinding(x) == NormalizedBinding(y) <==> SamePlace(x, y) && SameSlashes(x, y)
  {
    var (p, q) := SplitUri(x.uri);
    var (p2, q2) := SplitUri(y.uri);
    NormalPathLacks(p);
    NormalPathLacks(p2);
    BindingParts(x.httpMethod, NormalPath(p), q, y.httpMethod, NormalPath(p2), q2);
    PathsAgree(x.uri, y.uri);
  }

  /** A path both readings agree on: rooted, with no slash at its end. */
  predicate Rooted(path: string) { SlashesOf(path) == Slashes(true, false) }

  predicate WellBound(op: Operation) { Rooted(PathOf(op.uri)) && PlainMethod(op) }

  /** For rooted paths without a slash at the end, two operations have one
      normalised binding exactly when the trie files them together. */
  lemma BindingsAgree(x: Operation, y: Operation)
    requires WellBound(x) && WellBound(y)
    ensures NormalizedBinding(x) == NormalizedBinding(y) <==> SamePlace(x, y)
  {
    BindingsExact(x, y);
  }

  /** The smallest disagreements: a slash at the end, or none at the start, is
      nothing to the trie and something to the inventory. */
  lemma SlashesDisagree(op: Operation)
    requires op.uri == "/a" && PlainMethod(op)
    ensures var slashed, bare := op.(uri := "/a/"), op.(uri := "a");
      && SamePlace(op, slashed) && NormalizedBinding(op) != NormalizedBinding(slashed)
      && SamePlace(op, bare) && NormalizedBinding(op) != NormalizedBinding(bare)
  {
    assert SplitUri("/a") == ("/a", "");
    ReadAlike("/a/");
    ReadAlike("a");
    BindingsExact(op, op.(uri := "/a/"));
    BindingsExact(op, op.(uri := "a"));
  }

  lemma ReadAlike(uri: string)
    requires uri == "/a/" || uri == "a"
    ensures SplitUri(uri) == (uri, "") && Segments(uri) == Segments("/a")
  {
    assert SplitUri("/a") == ("/a", "");
    assert Trimmed(uri) == "a" == Trimmed("/a");
  }

  // ----- building the inventory -----

  /** `addCollisionService`. */
  function AddService(groups: Groups, key: GroupKey, service: string): Groups {
    groups[key := (if key in groups then groups[key] else {}) + {service}]
  }

  method AddServices(groups: Groups, keys: seq<GroupKey>, service: string) returns (more: Groups)
    ensures forall key :: key in more <==> key in groups || key in keys
    ensures forall key :: key in more ==>
      more[key] == (if key in groups then groups[key] else {}) + (if key in keys then {service} else {})
  {
    more := groups;
    for i := 0 to |keys|
      invariant forall key :: key in more <==> key in groups || key in keys[..i]
      invariant forall key :: key in more ==>
        more[key] == (if key in groups then groups[key] else {}) + (if key in keys[..i] then {service} else {})
    {
      assert keys[..i + 1] == keys[..i] + [keys[i]];
      more := AddService(more, keys[i], service);
    }
    assert keys[..|keys|] == keys;
  }

  /** The keys one operation adds its service to, in the order buildModelInventory adds them. */
  method KeysToAdd(op: Operation) returns (keys: seq<GroupKey>)
    ensures forall key :: key in keys <==> key in GroupKeys(op)
  {
    keys := [];
    if op.service == "s3" {
      return;
    }
    if IsTarget(op) {
      keys := keys + [GroupKey(TargetKind, op.targetPrefix + op.name)];
    }
    if QueryProtocol(op) {
      keys := keys + [GroupKey(QueryKind, op.apiVersion + "\0" + op.name)];
    }
    if RestBound(op) {
      keys := keys + [RestKey(op)];
    }
    ghost var plain := keys;
    for i := 0 to |op.protocols|
      invariant forall key :: key in keys <==>
        || key in plain
        || key in (set protocol | protocol in op.protocols[..i] && RpcProtocol(protocol) :: RpcKey(protocol, op))
    {
      var protocol := op.protocols[i];
      assert op.protocols[..i + 1] == op.protocols[..i] + [protocol];
      if !RpcProtocol(protocol) {
        continue;
      }
      keys := keys + [RpcKey(protocol, op)];
    }
    assert op.protocols[..|op.protocols|] == op.protocols;
  }

  lemma DeclaringSnoc(operations: seq<Operation>, op: Operation, key: GroupKey)
    ensures Declaring(operations + [op], key)
      == Declaring(operations, key) + if key in GroupKeys(op) then {op.service} else {}
  {
    assert forall x :: x in operations + [op] <==> x in operations || x == op;
  }

  lemma GroupsGrow(groups: Groups, more: Groups, operations: seq<Operation>, op: Operation)
    requires GroupsExact(groups, operations)
    requires forall key :: key in more <==> key in groups || key in GroupKeys(op)
    requires forall key :: key in more ==>
      more[key] == (if key in groups then groups[key] else {}) + (if key in GroupKeys(op) then {op.service} else {})
    ensures GroupsExact(more, operations + [op])
  {
    forall key
      ensures key in more <==> Declaring(operations + [op], key) != {}
      ensures key in more ==> more[key] == Declaring(operations + [op], key)
    {
      DeclaringSnoc(operations, op, key);
      assert key in groups <==> Declaring(operations, key) != {};
    }
  }

  /** The first loop of buildModelInventory. */
  method CollectGroups(operations: seq<Operation>) returns (groups: Groups)
    ensures GroupsExact(groups, operations)
  {
    groups := map[];
    assert forall key :: Declaring([], key) == {};
    for i := 0 to |operations|
      invariant GroupsExact(groups, operations[..i])
    {
      var keys := KeysToAdd(operations[i]);
      var more := AddServices(groups, keys, operations[i].service);
      GroupsGrow(groups, more, operations[..i], operations[i]);
      assert operations[..i + 1] == operations[..i] + [operations[i]];
      groups := more;
    }
    assert operations[..|operations|] == operations;
  }

  // ----- fallback coverage -----

  datatype Class = S3 | Claimable | Ambiguous | Uncovered

  predicate HasRpc(op: Operation) { exists k :: 0 <= k < |op.protocols| && RpcProtocol(op.protocols[k]) }

  /** The tier of an operation: a REST binding that services share claims nothing by itself. */
  ghost function ClassOf(op: Operation, operations: seq<Operation>): Class {
    var shared := RestBound(op) && |Declaring(operations, RestKey(op))| > 1;
    if op.service == "s3" then S3
    else if IsTarget(op) || QueryProtocol(op) || (RestBound(op) && !shared) || HasRpc(op) then Claimable
    else if shared then Ambiguous
    else Uncovered
  }

  datatype Coverage = Coverage(
    nonS3: nat, claimable: nat, ambiguous: nat, targets: nat, queries: nat, rest: nat, rpc: nat, uncovered: seq<string>)

  function OperationLabel(op: Operation): string { op.service + "/" + op.name }

  ghost function Count(operations: seq<Operation>, all: seq<Operation>, c: Class): nat {
    if operations == [] then 0
    else
      Count(operations[..|operations| - 1], all, c)
      + if ClassOf(operations[|operations| - 1], all) == c then 1 else 0
  }

  function One(b: bool): nat { if b then 1 else 0 }

  function RpcCount(protocols: seq<string>): nat {
    if protocols == [] then 0
    else RpcCount(protocols[..|protocols| - 1]) + One(RpcProtocol(protocols[|protocols| - 1]))
  }

  /** What one operation adds to the coverage: to one tier, and to every kind of
      binding it has. */
  function Counts(c: Coverage, tier: Class, op: Operation): Coverage {
    Coverage(
      c.nonS3 + 1, c.claimable + One(tier == Claimable), c.ambiguous + One(tier == Ambiguous),
      c.targets + One(IsTarget(op)), c.queries + One(QueryProtocol(op)), c.rest + One(RestBound(op)),
      c.rpc + RpcCount(op.protocols), c.uncovered + (if tier == Uncovered then [OperationLabel(op)] else []))
  }

  ghost function Counted(c: Coverage, op: Operation, all: seq<Operation>): Coverage {
    if ClassOf(op, all) == S3 then c else Counts(c, ClassOf(op, all), op)
  }

  ghost function Tally(operations: seq<Operation>, all: seq<Operation>): Coverage {
    if operations == [] then Coverage(0, 0, 0, 0, 0, 0, 0, [])
    else Counted(Tally(operations[..|operations| - 1], all), operations[|operations| - 1], all)
  }

  method CountRpc(protocols: seq<string>) returns (bound: nat)
    ensures bound == RpcCount(protocols)
    ensures bound > 0 <==> exists k :: 0 <= k < |protocols| && RpcProtocol(protocols[k])
  {
    bound := 0;
    for i := 0 to |protocols|
      invariant bound == RpcCount(protocols[..i])
      invariant bound > 0 <==> exists k :: 0 <= k < i && RpcProtocol(protocols[k])
    {
      assert protocols[..i + 1][..i] == protocols[..i];
      if RpcProtocol(protocols[i]) {
        bound := bound + 1;
      }
    }
    assert protocols[..|protocols|] == protocols;
  }

  /** Whether the REST binding of an operation is one that services share. */
  method RestIsShared(groups: Groups, op: Operation, ghost all: seq<Operation>) returns (shared: bool)
    requires GroupsExact(groups, all) && op in all && op.service != "s3" && RestBound(op)
    ensures shared <==> |Declaring(all, RestKey(op))| > 1
  {
    RestGrouped(op, all);
    shared := |groups[RestKey(op)]| > 1;
  }

  /** The tier addFallbackCoverage finds for an operation. */
  method FindTier(groups: Groups, op: Operation, rpcBound: bool, ghost all: seq<Operation>) returns (tier: Class)
    requires GroupsExact(groups, all) && op in all && op.service != "s3" && rpcBound == HasRpc(op)
    ensures tier == ClassOf(op, all)
  {
    var claimable, ambiguous := IsTarget(op) || QueryProtocol(op) || rpcBound, false;
    if RestBound(op) {
      ambiguous := RestIsShared(groups, op, all);
      claimable := claimable || !ambiguous;
    }
    tier := if claimable then Claimable else if ambiguous then Ambiguous else Uncovered;
  }

  /** `addFallbackCoverage`. */
  method AddFallbackCoverage(coverage: Coverage, groups: Groups, op: Operation, ghost all: seq<Operation>)
    returns (after: Coverage)
    requires GroupsExact(groups, all) && op in all
    ensures after == Counted(coverage, op, all)
  {
    if op.service == "s3" {
      return coverage;
    }
    var bound := CountRpc(op.protocols);
    var tier := FindTier(groups, op, bound > 0, all);
    after := CountTier(coverage, tier, op, bound);
    assert ClassOf(op, all) != S3;
  }

  method CountTier(coverage: Coverage, tier: Class, op: Operation, bound: nat) returns (after: Coverage)
    requires tier != S3 && bound == RpcCount(op.protocols)
    ensures after == Counts(coverage, tier, op)
  {
    after := coverage.(
      nonS3 := coverage.nonS3 + 1, targets := coverage.targets + One(IsTarget(op)),
      queries := coverage.queries + One(QueryProtocol(op)), rest := coverage.rest + One(RestBound(op)),
      rpc := coverage.rpc + bound);
    match tier
    case Claimable => after := after.(claimable := after.claimable + 1);
    case Ambiguous => after := after.(ambiguous := after.ambiguous + 1);
    case Uncovered => after := after.(uncovered := after.uncovered + [OperationLabel(op)]);
  }

  lemma RestGrouped(op: Operation, all: seq<Operation>)
    requires op in all && RestBound(op) && op.service != "s3"
    ensures Declaring(all, RestKey(op)) != {}
  {
    var key := RestKey(op);
    assert key in GroupKeys(op);
    assert op.service in Declaring(all, key);
  }

  /** The second loop of buildModelInventory. */
  method CoverOperations(operations: seq<Operation>, groups: Groups) returns (coverage: Coverage)
    requires GroupsExact(groups, operations)
    ensures coverage == Tally(operations, operations)
  {
    coverage := Coverage(0, 0, 0, 0, 0, 0, 0, []);
    for i := 0 to |operations|
      invariant coverage == Tally(operations[..i], operations)
    {
      assert operations[..i + 1][..i] == operations[..i];
      coverage := AddFallbackCoverage(coverage, groups, operations[i], operations);
    }
    assert operations[..|operations|] == operations;
  }

  /** The tiers a coverage reports. */
  ghost predicate Tiers(coverage: Coverage, operations: seq<Operation>, all: seq<Operation>) {
    && coverage.claimable == Count(operations, all, Claimable)
      && coverage.ambiguous == Count(operations, all, Ambiguous)
    && |coverage.uncovered| == Count(operations, all, Uncovered)
    && coverage.nonS3 == |operations| - Count(operations, all, S3)
  }

  /** The coverage counts the operations of each tier. */
  lemma {:induction false} TallyCounts(operations: seq<Operation>, all: seq<Operation>)
    ensures Tiers(Tally(operations, all), operations, all)
  {
    if operations != [] {
      TallyCounts(operations[..|operations| - 1], all);
    }
  }

  /** Nothing is lost between the tiers. */
  lemma {:induction false} TiersAddUp(operations: seq<Operation>, all: seq<Operation>)
    ensures Count(operations, all, S3) + Count(operations, all, Claimable) + Count(operations, all, Ambiguous)
      + Count(operations, all, Uncovered) == |operations|
  {
    if operations != [] {
      TiersAddUp(operations[..|operations| - 1], all);
    }
  }

  datatype InventoryCollision = InventoryCollision(kind: Kind, key: string, services: seq<string>)

  function KindText(k: Kind): string {
    match k
    case TargetKind => "target"
    case QueryKind => "query"
    case RestKind => "rest"
    case RpcKind => "rpc"
  }

  function CollisionKey(c: InventoryCollision): string {
    KindText(c.kind) + "\0" + c.key + "\0" + Join(c.services, "\0")
  }

  predicate CollisionLe(x: InventoryCollision, y: InventoryCollision) { LessEq(CollisionKey(x), CollisionKey(y)) }

  lemma CollisionLeIsTotalPreorder()
    ensures TotalPreorder(CollisionLe)
  {
    LessEqIsTotalPreorder();
  }

  /** The keys that services share, each with those services sorted. */
  ghost function SharedGroups(groups: Groups): set<InventoryCollision> {
    set key | key in groups && |groups[key]| > 1 :: InventoryCollision(key.kind, key.key, SortedList(groups[key]))
  }

  /** One row for each of the given collisions, in the order of their keys. */
  ghost predicate ListsExactly(rows: seq<InventoryCollision>, all: set<InventoryCollision>) {
    SortedBy(CollisionLe, rows) && (set c | c in rows) == all
      && forall i, j :: 0 <= i < j < |rows| ==> rows[i] != rows[j]
  }

  /** `collisionInventory`. */
  method ListCollisions(groups: Groups) returns (collisions: seq<InventoryCollision>)
    ensures ListsExactly(collisions, SharedGroups(groups))
  {
    var listed := CollectShared(groups);
    CollisionLeIsTotalPreorder();
    collisions := Sort(listed, CollisionLe);
    SameMembers(collisions, listed);
    DistinctPermutation(listed, collisions);
  }

  method CollectShared(groups: Groups) returns (listed: seq<InventoryCollision>)
    ensures (set c | c in listed) == SharedGroups(groups)
    ensures forall i, j :: 0 <= i < j < |listed| ==> listed[i] != listed[j]
  {
    listed := [];
    var rest := groups.Keys;
    while rest != {}
      invariant rest <= groups.Keys
      invariant ListedFrom(listed, groups, groups.Keys - rest)
      invariant forall i, j :: 0 <= i < j < |listed| ==> listed[i] != listed[j]
    {
      var key :| key in rest;
      ghost var done := groups.Keys - rest;
      assert groups.Keys - (rest - {key}) == done + {key};
      rest := rest - {key};
      if |groups[key]| < 2 {
        SkippedGroup(listed, groups, done, key);
        continue;
      }
      var services := SortedKeys(groups[key]);
      IncreasingUnique(services, SortedList(groups[key]));
      ListedGroup(listed, groups, done, key);
      listed := listed + [InventoryCollision(key.kind, key.key, services)];
    }
    assert groups.Keys - {} == groups.Keys;
  }

  ghost function SharedAmong(groups: Groups, done: set<GroupKey>): set<InventoryCollision> {
    set key | key in done && key in groups && |groups[key]| > 1 ::
      InventoryCollision(key.kind, key.key, SortedList(groups[key]))
  }

  ghost predicate ListedFrom(listed: seq<InventoryCollision>, groups: Groups, done: set<GroupKey>) {
    (set c | c in listed) == SharedAmong(groups, done)
  }

  lemma SkippedGroup(listed: seq<InventoryCollision>, groups: Groups, done: set<GroupKey>, key: GroupKey)
    requires ListedFrom(listed, groups, done) && key in groups && |groups[key]| < 2
    ensures ListedFrom(listed, groups, done + {key})
  {
    assert SharedAmong(groups, done + {key}) == SharedAmong(groups, done);
  }

  lemma ListedGroup(listed: seq<InventoryCollision>, groups: Groups, done: set<GroupKey>, key: GroupKey)
    requires ListedFrom(listed, groups, done) && key in groups && key !in done && |groups[key]| > 1
    ensures var c := InventoryCollision(key.kind, key.key, SortedList(groups[key]));
      ListedFrom(listed + [c], groups, done + {key}) && c !in listed
  {
    var c := InventoryCollision(key.kind, key.key, SortedList(groups[key]));
    assert SharedAmong(groups, done + {key}) == SharedAmong(groups, done) + {c};
    assert (set d | d in listed + [c]) == (set d | d in listed) + {c};
    assert c !in SharedAmong(groups, done);
  }

  /** The collisions of an operation list. */
  ghost predicate IsCollision(operations: seq<Operation>, c: InventoryCollision) {
    var declaring := Declaring(operations, GroupKey(c.kind, c.key));
    |declaring| > 1 && c.services == SortedList(declaring)
  }

  /** `buildModelInventory`, apart from its list of operations. */
  method BuildModelInventory(operations: seq<Operation>)
    returns (coverage: Coverage, collisions: seq<InventoryCollision>)
    ensures coverage == Tally(operations, operations).(uncovered := coverage.uncovered)
    ensures SortedBy(LessEq, coverage.uncovered)
    ensures multiset(coverage.uncovered) == multiset(Tally(operations, operations).uncovered)
    ensures Tiers(coverage, operations, operations)
    ensures coverage.claimable + coverage.ambiguous + |coverage.uncovered| == coverage.nonS3
    ensures SortedBy(CollisionLe, collisions)
      && forall i, j :: 0 <= i < j < |collisions| ==> collisions[i] != collisions[j]
    ensures forall c :: c in collisions <==> IsCollision(operations, c)
  {
    var groups := CollectGroups(operations);
    coverage := CoverOperations(operations, groups);
    TallyCounts(operations, operations);
    TiersAddUp(operations, operations);
    LessEqIsTotalPreorder();
    var labels := Sort(coverage.uncovered, LessEq);
    SameMembers(labels, coverage.uncovered);
    coverage := coverage.(uncovered := labels);
    collisions := ListCollisions(groups);
    forall c ensures c in collisions <==> IsCollision(operations, c) {
      SharedIsCollision(operations, groups, c);
      assert c in collisions <==> c in SharedGroups(groups);
    }
  }

  lemma SharedIsCollision(operations: seq<Operation>, groups: Groups, c: InventoryCollision)
    requires GroupsExact(groups, operations)
    ensures c in SharedGroups(groups) <==> IsCollision(operations, c)
  {
    var key := GroupKey(c.kind, c.key);
    assert key in groups <==> Declaring(operations, key) != {};
    if c in SharedGroups(groups) {
      var k :| k in groups && |groups[k]| > 1 && c == InventoryCollision(k.kind, k.key, SortedList(groups[k]));
      assert k == key;
    }
    if IsCollision(operations, c) {
      assert key in groups && groups[key] == Declaring(operations, key);
    }
  }

  // ----- ambiguity in the trie -----

  lemma {:induction false} RestSelected(operations: seq<Operation>, op: Operation)
    ensures op in Select(operations).rest <==> op in operations && IsRest(op)
  {
    if operations != [] {
      var init, last := operations[..|operations| - 1], operations[|operations| - 1];
      assert operations == init + [last];
      RestSelected(init, op);
    }
  }

  /** Declaring a REST key is having that normalised binding. */
  lemma DeclaresRest(op: Operation, x: Operation)
    requires IsRest(op)
    ensures RestKey(op) in GroupKeys(x) <==> IsRest(x) && NormalizedBinding(x) == NormalizedBinding(op)
  {
  }

  lemma RouteListed(rest: seq<Operation>, r: Route)
    ensures r in Routes(rest) <==> exists op :: op in rest && RouteOf(op) == r
  {
    if r in Routes(rest) {
      var k :| 0 <= k < |rest| && Routes(rest)[k] == r;
      assert rest[k] in rest && RouteOf(rest[k]) == r;
    }
    if exists op :: op in rest && RouteOf(op) == r {
      var op :| op in rest && RouteOf(op) == r;
      var k :| 0 <= k < |rest| && rest[k] == op;
      assert Routes(rest)[k] == r;
    }
  }

  ghost predicate AllPlain(rest: seq<Operation>) { forall op {:trigger op in rest} :: op in rest ==> PlainMethod(op) }

  /** Some operation at the place of `op`, with this service. */
  ghost predicate ServedAt(rest: seq<Operation>, op: Operation, service: string) {
    exists x :: x in rest && SamePlace(x, op) && x.service == service
  }

  /** The same, among operations whose paths have the slashes of `op`. */
  ghost predicate ServedAlike(rest: seq<Operation>, op: Operation, service: string) {
    exists x :: x in rest && SamePlace(x, op) && SameSlashes(x, op) && x.service == service
  }

  /** The inventory groups an operation with those at its place in the trie that
      share its slashes. */
  lemma DeclaringExact(operations: seq<Operation>, op: Operation, service: string)
    requires op in operations && IsRest(op) && AllPlain(Select(operations).rest)
    ensures service in Declaring(operations, RestKey(op)) <==> ServedAlike(Select(operations).rest, op, service)
  {
    var rest := Select(operations).rest;
    RestSelected(operations, op);
    if service in Declaring(operations, RestKey(op)) {
      var x :| x in operations && RestKey(op) in GroupKeys(x) && x.service == service;
      DeclaresRest(op, x);
      RestSelected(operations, x);
      BindingsExact(x, op);
    }
    if ServedAlike(rest, op, service) {
      var x :| x in rest && SamePlace(x, op) && SameSlashes(x, op) && x.service == service;
      RestSelected(operations, x);
      BindingsExact(x, op);
      DeclaresRest(op, x);
      assert x.service in Declaring(operations, RestKey(op));
    }
  }

  /** The services bound at an operation's node are those of the operations filed there. */
  lemma BoundAtPlace(rest: seq<Operation>, op: Operation, service: string)
    ensures (exists r :: Bound(r, OpsAt(Routes(rest), RouteOf(op).path), RouteOf(op).Key()) && r.op.service == service)
      <==> ServedAt(rest, op, service)
  {
    var here, key := OpsAt(Routes(rest), RouteOf(op).path), RouteOf(op).Key();
    if exists r :: Bound(r, here, key) && r.op.service == service {
      var r :| Bound(r, here, key) && r.op.service == service;
      RouteListed(rest, r);
      var x :| x in rest && RouteOf(x) == r;
      assert SamePlace(x, op) && x.service == service;
    }
    if ServedAt(rest, op, service) {
      var x :| x in rest && SamePlace(x, op) && x.service == service;
      RouteListed(rest, RouteOf(x));
      assert Bound(RouteOf(x), here, key);
    }
  }

  lemma TwoOrMore(s: set<string>)
    ensures |s| > 1 <==> exists x, y :: x in s && y in s && x != y
  {
    if |s| > 1 {
      var x :| x in s;
      var rest := s - {x};
      assert |rest| > 0;
      var y :| y in rest;
      assert x in s && y in s && x != y;
    }
    if exists x, y :: x in s && y in s && x != y {
      var x, y :| x in s && y in s && x != y;
      assert {x, y} <= s && |{x, y}| == 2;
      assert |s| == |s - {x, y}| + 2;
    }
  }

  /** The trie finds a binding shared exactly when the inventory does, or another
      service declares it with other slashes. */
  lemma SharedExact(operations: seq<Operation>, op: Operation)
    requires op in operations && IsRest(op) && AllPlain(Select(operations).rest)
    ensures SharedKey(OpsAt(Routes(Select(operations).rest), RouteOf(op).path), RouteOf(op).Key()) <==>
      || |Declaring(operations, RestKey(op))| > 1
      || exists x :: x in Select(operations).rest && SamePlace(x, op) && !SameSlashes(x, op) && x.service != op.service
  {
    var rest := Select(operations).rest;
    var here, key := OpsAt(Routes(rest), RouteOf(op).path), RouteOf(op).Key();
    var declaring := Declaring(operations, RestKey(op));
    RestSelected(operations, op);
    TwoOrMore(declaring);
    DeclaringExact(operations, op, op.service);
    assert ServedAlike(rest, op, op.service);
    if SharedKey(here, key) {
      var service := OtherService(rest, op);
      var x :| x in rest && SamePlace(x, op) && x.service == service;
      if SameSlashes(x, op) {
        DeclaringExact(operations, op, service);
        assert ServedAlike(rest, op, service);
      }
    }
    if |declaring| > 1 {
      var x, y :| x in declaring && y in declaring && x != y;
      var service := if x != op.service then x else y;
      DeclaringExact(operations, op, service);
      assert ServedAt(rest, op, service);
      SharedWith(rest, op, service);
    }
    if exists x :: x in rest && SamePlace(x, op) && !SameSlashes(x, op) && x.service != op.service {
      var x :| x in rest && SamePlace(x, op) && !SameSlashes(x, op) && x.service != op.service;
      SharedWith(rest, op, x.service);
    }
  }

  lemma OtherService(rest: seq<Operation>, op: Operation) returns (service: string)
    requires SharedKey(OpsAt(Routes(rest), RouteOf(op).path), RouteOf(op).Key())
    ensures service != op.service && ServedAt(rest, op, service)
  {
    var here, key := OpsAt(Routes(rest), RouteOf(op).path), RouteOf(op).Key();
    var x, y :| Bound(x, here, key) && Bound(y, here, key) && x.op.service != y.op.service;
    service := if x.op.service != op.service then x.op.service else y.op.service;
    BoundAtPlace(rest, op, service);
  }

  lemma SharedWith(rest: seq<Operation>, op: Operation, service: string)
    requires op in rest && service != op.service && ServedAt(rest, op, service)
    ensures SharedKey(OpsAt(Routes(rest), RouteOf(op).path), RouteOf(op).Key())
  {
    assert ServedAt(rest, op, op.service);
    BoundAtPlace(rest, op, service);
    BoundAtPlace(rest, op, op.service);
  }

  /** The compiled trie calls an operation's binding ambiguous exactly when the
      inventory does, or another service declares it with other slashes. */
  lemma AmbiguityExact(operations: seq<Operation>, op: Operation, t: Tables, trie: Trie, flat: seq<Path>,
                       parents: seq<nat>)
    requires op in operations && IsRest(op) && AllPlain(Select(operations).rest)
    requires CompiledVia(t, Routes(Select(operations).rest), trie, flat, parents)
    ensures Lookup(t, RouteOf(op).path, RouteOf(op).Key()).Some?
    ensures Lookup(t, RouteOf(op).path, RouteOf(op).Key()).value.ambiguous <==>
      || |Declaring(operations, RestKey(op))| > 1
      || exists x :: x in Select(operations).rest && SamePlace(x, op) && !SameSlashes(x, op) && x.service != op.service
  {
    var rest := Select(operations).rest;
    var routes, path, key := Routes(rest), RouteOf(op).path, RouteOf(op).Key();
    RestSelected(operations, op);
    RouteListed(rest, RouteOf(op));
    OperationFound(t, routes, trie, flat, parents, RouteOf(op));
    LookupExact(t, routes, trie, flat, parents, path, key);
    SharedExact(operations, op);
  }

  ghost predicate AllWellBound(rest: seq<Operation>) { forall op {:trigger op in rest} :: op in rest ==> WellBound(op) }

  /** For rooted paths without a slash at the end, the two agree. */
  lemma AmbiguityAgrees(operations: seq<Operation>, op: Operation, t: Tables, trie: Trie, flat: seq<Path>,
                        parents: seq<nat>)
    requires op in operations && IsRest(op) && AllWellBound(Select(operations).rest)
    requires CompiledVia(t, Routes(Select(operations).rest), trie, flat, parents)
    ensures Lookup(t, RouteOf(op).path, RouteOf(op).Key()).Some?
    ensures Lookup(t, RouteOf(op).path, RouteOf(op).Key()).value.ambiguous <==> |Declaring(operations, RestKey(op))| > 1
  {
    RestSelected(operations, op);
    AmbiguityExact(operations, op, t, trie, flat, parents);
  }
}
