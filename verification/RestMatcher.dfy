/** The request-time matcher over the compiled tables, restTrieMatch in
    internal/awsapi/registry.go, proved against matching the request directly
    against the declared patterns. */
module RestMatcher {
  import opened Order
  import opened Text
  import opened RestUri
  import opened RestTrie
  import opened RestTables
  import opened RestCompiler
  import opened Wrappers

  // ----- what a request means -----

  /** The segments left in a request path; a final slash adds none. */
  function RequestSegments(rest: string): (segs: seq<string>)
    ensures rest == "" <==> segs == []
  {
    if rest == "" then []
    else
      var i := IndexOf(rest, '/');
      if i < 0 then [rest] else [rest[..i]] + RequestSegments(rest[i + 1..])
  }

  /** A pattern matches a list of segments; a greedy label takes one or more. */
  predicate Matches(steps: Path, segs: seq<string>)
    decreases |steps| + |segs|
  {
    if steps == [] then segs == []
    else if segs == [] then false
    else match steps[0]
      case Literal(text) => segs[0] == text && Matches(steps[1..], segs[1..])
      case Parameter => Matches(steps[1..], segs[1..])
      case Greedy => Matches(steps[1..], segs[1..]) || Matches(steps, segs[1..])
  }

  /** The query up to its first `&`, and what follows it. */
  function Cut(query: string): (r: (string, string))
    ensures query != "" ==> |r.1| < |query|
  {
    var i := IndexOf(query, '&');
    if i >= 0 then (query[..i], query[i + 1..]) else (query, "")
  }

  predicate Satisfies(part: string, required: string) {
    part == required || ('=' !in required && part == required + "=")
  }

  /** Some `&`-separated part of the raw query satisfies one required literal. */
  predicate QueryContains(raw: string, required: string)
    decreases |raw|
  {
    raw != "" && (Satisfies(Cut(raw).0, required) || QueryContains(Cut(raw).1, required))
  }

  /** Every `&`-separated part the binding requires is in the raw query. */
  predicate QueryAccepts(required: string, raw: string)
    decreases |required|
  {
    required == "" || (QueryContains(raw, Cut(required).0) && QueryAccepts(Cut(required).1, raw))
  }

  datatype Request = Request(httpMethod: string, path: string, rawQuery: string)

  predicate Accepts(key: Binding, req: Request) {
    key.httpMethod == req.httpMethod && QueryAccepts(key.query, req.rawQuery)
  }

  /** The node at `q` holds an operation that accepts the request. */
  ghost predicate NodeAccepts(trie: Trie, q: Path, req: Request) {
    q in trie && exists key :: key in RouteKeys(trie[q].operations) && Accepts(key, req)
  }

  /** Nothing below `p` both matches the segments and accepts the request. */
  ghost predicate Silent(trie: Trie, p: Path, segs: seq<string>, req: Request) {
    forall steps :: Matches(steps, segs) ==> !NodeAccepts(trie, p + steps, req)
  }

  function Rank(s: Step): nat {
    match s
    case Literal(_) => 0
    case Parameter => 1
    case Greedy => 2
  }

  // ----- how a pattern is laid over a path -----

  /** How many segments each step of a pattern takes. */
  type Split = seq<nat>

  /** The step takes this many segments, the first of which is `first`. */
  predicate Takes(s: Step, count: nat, first: string) {
    match s
    case Literal(text) => count == 1 && first == text
    case Parameter => count == 1
    case Greedy => count >= 1
  }

  /** The pattern, split like this, covers the segments. */
  predicate Fits(steps: Path, split: Split, segs: seq<string>) {
    if steps == [] then split == [] && segs == []
    else
      && split != [] && 1 <= split[0] <= |segs| && Takes(steps[0], split[0], segs[0])
      && Fits(steps[1..], split[1..], segs[split[0]..])
  }

  /** At the first step where they differ, `a` has the more specific step or, for
      the same step, takes fewer segments. */
  predicate NoLater(a: Path, split: Split, b: Path, split': Split) {
    || (a == b && split == split')
    || (&& a != [] && b != [] && split != [] && split' != []
        && if a[0] != b[0] then Rank(a[0]) < Rank(b[0])
           else if split[0] != split'[0] then split[0] < split'[0]
           else NoLater(a[1..], split[1..], b[1..], split'[1..]))
  }

  lemma {:induction false} FitsMatches(steps: Path, split: Split, segs: seq<string>)
    requires Fits(steps, split, segs)
    ensures Matches(steps, segs)
    decreases |steps|
  {
    if steps != [] {
      FitsMatches(steps[1..], split[1..], segs[split[0]..]);
      assert segs[0..] == segs && steps == [steps[0]] + steps[1..];
      if steps[0] == Greedy { GreedyTakes(steps[1..], segs, 0, split[0]); }
    }
  }

  lemma {:induction false} MatchesFits(steps: Path, segs: seq<string>) returns (split: Split)
    requires Matches(steps, segs)
    ensures Fits(steps, split, segs)
    decreases |steps| + |segs|
  {
    if steps == [] {
      split := [];
    } else if Matches(steps[1..], segs[1..]) {
      var rest := MatchesFits(steps[1..], segs[1..]);
      split := [1] + rest;
      assert split[1..] == rest;
    } else {
      var more := MatchesFits(steps, segs[1..]);
      split := [more[0] + 1] + more[1..];
      assert split[1..] == more[1..] && segs[1..][more[0]..] == segs[split[0]..];
    }
  }

  /** The order is total and antisymmetric on what fits a path, so at most one
      pattern and split come first. */
  lemma {:induction false} FirstIsUnique(a: Path, split: Split, b: Path, split': Split, segs: seq<string>)
    requires Fits(a, split, segs) && Fits(b, split', segs)
    ensures NoLater(a, split, b, split') || NoLater(b, split', a, split)
    ensures NoLater(a, split, b, split') && NoLater(b, split', a, split) ==> a == b && split == split'
    decreases |a|
  {
    if a != [] && b != [] && a[0] == b[0] && split[0] == split'[0] {
      FirstIsUnique(a[1..], split[1..], b[1..], split'[1..], segs[split[0]..]);
      assert a == [a[0]] + a[1..] && b == [b[0]] + b[1..];
      assert split == [split[0]] + split[1..] && split' == [split'[0]] + split'[1..];
    }
  }

  /** What fits the segments and accepts the request comes no earlier than this. */
  ghost predicate Best(trie: Trie, p: Path, segs: seq<string>, req: Request, steps: Path, split: Split) {
    forall other, split': Split :: Fits(other, split', segs) && NodeAccepts(trie, p + other, req) ==>
      NoLater(steps, split, other, split')
  }

  /** Entry `k` belongs to the node at `p + steps`, matches and accepts. */
  ghost predicate Hit(t: Tables, flat: seq<Path>, p: Path, segs: seq<string>, req: Request,
                      k: nat, steps: Path, split: Split, leaf: nat) {
    && Fits(steps, split, segs)
    && leaf < |flat| && leaf < |t.nodes| && flat[leaf] == p + steps
    && t.nodes[leaf].operationStart <= k < t.nodes[leaf].operationEnd
    && k < |t.entries| && Accepts(t.entries[k].key, req)
    && NoneBefore(t, t.nodes[leaf].operationStart, k, req)
  }

  /** No earlier row of the node accepts the request. */
  ghost predicate NoneBefore(t: Tables, from: nat, k: nat, req: Request)
    requires k < |t.entries|
  {
    forall l {:trigger t.entries[l]} :: from <= l < k ==> !Accepts(t.entries[l].key, req)
  }

  ghost predicate Answers(t: Tables, trie: Trie, flat: seq<Path>, p: Path, segs: seq<string>, req: Request,
                          r: Option<nat>, steps: Path, split: Split, leaf: nat) {
    match r
    case None => Silent(trie, p, segs, req)
    case Some(k) => Hit(t, flat, p, segs, req, k, steps, split, leaf) && Best(trie, p, segs, req, steps, split)
  }

  // ----- lemmas about matching -----

  lemma AbsentIsSilent(trie: Trie, p: Path, segs: seq<string>, req: Request)
    requires Linked(trie) && p !in trie
    ensures Silent(trie, p, segs, req)
  {
    forall steps | Matches(steps, segs) ensures !NodeAccepts(trie, p + steps, req) {
      if p + steps in trie {
        PrefixStored(trie, p, steps);
      }
    }
  }

  lemma Unfold(p: Path, steps: Path)
    requires steps != []
    ensures Child(p, steps[0]) + steps[1..] == p + steps
  {
  }

  lemma ConsChild(p: Path, s: Step, rest: Path)
    ensures Child(p, s) + rest == p + ([s] + rest)
    ensures ([s] + rest)[0] == s && ([s] + rest)[1..] == rest
  {
  }

  /** The greedy continuations tried so far have all failed. */
  ghost predicate GreedySilent(trie: Trie, p: Path, segs: seq<string>, req: Request, tried: nat)
    requires tried <= |segs|
  {
    forall c :: 1 <= c <= tried ==> Silent(trie, Child(p, Greedy), segs[c..], req)
  }

  lemma AbsentGreedySilent(trie: Trie, p: Path, segs: seq<string>, req: Request)
    requires Linked(trie) && Child(p, Greedy) !in trie
    ensures GreedySilent(trie, p, segs, req, |segs|)
  {
    forall c | 1 <= c <= |segs| ensures Silent(trie, Child(p, Greedy), segs[c..], req) {
      AbsentIsSilent(trie, Child(p, Greedy), segs[c..], req);
    }
  }

  lemma GreedySilentNext(trie: Trie, p: Path, segs: seq<string>, req: Request, c: nat)
    requires 1 <= c <= |segs| && GreedySilent(trie, p, segs, req, c - 1)
    requires Silent(trie, Child(p, Greedy), segs[c..], req)
    ensures GreedySilent(trie, p, segs, req, c)
  {
  }

  lemma {:induction false} GreedyNeverAccepts(trie: Trie, p: Path, segs: seq<string>, req: Request,
                                              steps: Path, from: nat)
    requires from < |segs| && GreedySilent(trie, p, segs, req, |segs|)
    requires steps != [] && steps[0] == Greedy && Matches(steps, segs[from..])
    ensures !NodeAccepts(trie, p + steps, req)
    decreases |segs| - from
  {
    Unfold(p, steps);
    assert segs[from..][1..] == segs[from + 1..];
    if Matches(steps[1..], segs[from + 1..]) {
      assert Silent(trie, Child(p, Greedy), segs[from + 1..], req);
    } else {
      assert from + 1 < |segs|;
      GreedyNeverAccepts(trie, p, segs, req, steps, from + 1);
    }
  }

  lemma AllBranchesSilent(trie: Trie, p: Path, segs: seq<string>, req: Request)
    requires segs != []
    requires Silent(trie, Child(p, Literal(segs[0])), segs[1..], req)
    requires Silent(trie, Child(p, Parameter), segs[1..], req)
    requires GreedySilent(trie, p, segs, req, |segs|)
    ensures Silent(trie, p, segs, req)
  {
    forall steps | Matches(steps, segs) ensures !NodeAccepts(trie, p + steps, req) {
      Unfold(p, steps);
      if steps[0] == Greedy {
        assert segs[0..] == segs;
        GreedyNeverAccepts(trie, p, segs, req, steps, 0);
      }
    }
  }

  /** A split of a longer pattern. */
  lemma ConsFits(s: Step, rest: Path, count: nat, split: Split, segs: seq<string>)
    requires 1 <= count <= |segs| && Takes(s, count, segs[0]) && Fits(rest, split, segs[count..])
    ensures Fits([s] + rest, [count] + split, segs)
    ensures ([count] + split)[0] == count && ([count] + split)[1..] == split
  {
    assert ([s] + rest)[1..] == rest && ([count] + split)[1..] == split;
  }

  /** Below a child that is silent, nothing fits and accepts. */
  lemma NotBelow(trie: Trie, p: Path, segs: seq<string>, req: Request, other: Path, split: Split)
    requires Fits(other, split, segs) && NodeAccepts(trie, p + other, req) && other != []
    ensures !Silent(trie, Child(p, other[0]), segs[split[0]..], req)
  {
    Unfold(p, other);
    FitsMatches(other[1..], split[1..], segs[split[0]..]);
  }

  /** The step under which a hit was found comes first, with this count. */
  ghost predicate FirstStep(trie: Trie, p: Path, segs: seq<string>, req: Request, s: Step, count: nat) {
    forall other, split: Split {:trigger Fits(other, split, segs)} ::
      Fits(other, split, segs) && NodeAccepts(trie, p + other, req) ==>
        other != [] && if other[0] != s then Rank(s) < Rank(other[0]) else count <= split[0]
  }

  /** A best hit below that step is a best hit here. */
  lemma StepHit(t: Tables, trie: Trie, flat: seq<Path>, p: Path, segs: seq<string>, req: Request,
                s: Step, count: nat, k: nat, rest: Path, split: Split, leaf: nat)
    requires 1 <= count <= |segs| && Takes(s, count, segs[0]) && FirstStep(trie, p, segs, req, s, count)
    requires Answers(t, trie, flat, Child(p, s), segs[count..], req, Some(k), rest, split, leaf)
    ensures Answers(t, trie, flat, p, segs, req, Some(k), [s] + rest, [count] + split, leaf)
  {
    ConsChild(p, s, rest);
    ConsFits(s, rest, count, split, segs);
    forall other, split': Split | Fits(other, split', segs) && NodeAccepts(trie, p + other, req)
      ensures NoLater([s] + rest, [count] + split, other, split')
    {
      assert other != [];
      Unfold(p, other);
      if other[0] == s && split'[0] == count {
        assert NoLater(rest, split, other[1..], split'[1..]);
      }
    }
  }

  lemma LiteralFirst(trie: Trie, p: Path, segs: seq<string>, req: Request)
    requires segs != []
    ensures FirstStep(trie, p, segs, req, Literal(segs[0]), 1)
  {
  }

  lemma ParameterFirst(trie: Trie, p: Path, segs: seq<string>, req: Request)
    requires segs != [] && Silent(trie, Child(p, Literal(segs[0])), segs[1..], req)
    ensures FirstStep(trie, p, segs, req, Parameter, 1)
  {
    forall other, split: Split | Fits(other, split, segs) && NodeAccepts(trie, p + other, req)
      ensures other != [] && if other[0] != Parameter then 1 < Rank(other[0]) else 1 <= split[0]
    {
      NotBelow(trie, p, segs, req, other, split);
    }
  }

  lemma GreedyFirst(trie: Trie, p: Path, segs: seq<string>, req: Request, c: nat)
    requires 1 <= c <= |segs| && GreedySilent(trie, p, segs, req, c - 1)
    requires Silent(trie, Child(p, Literal(segs[0])), segs[1..], req)
    requires Silent(trie, Child(p, Parameter), segs[1..], req)
    ensures FirstStep(trie, p, segs, req, Greedy, c)
  {
    forall other, split: Split | Fits(other, split, segs) && NodeAccepts(trie, p + other, req)
      ensures other != [] && other[0] == Greedy && c <= split[0]
    {
      NotBelow(trie, p, segs, req, other, split);
    }
  }

  lemma GreedyHit(t: Tables, trie: Trie, flat: seq<Path>, p: Path, segs: seq<string>, req: Request,
                  c: nat, r: Option<nat>, rest: Path, split: Split, leaf: nat)
    returns (steps: Path, split': Split)
    requires 1 <= c <= |segs| && GreedySilent(trie, p, segs, req, c - 1)
    requires Silent(trie, Child(p, Literal(segs[0])), segs[1..], req)
    requires Silent(trie, Child(p, Parameter), segs[1..], req)
    requires r.Some? && Answers(t, trie, flat, Child(p, Greedy), segs[c..], req, r, rest, split, leaf)
    ensures Answers(t, trie, flat, p, segs, req, r, steps, split', leaf)
  {
    steps, split' := [Greedy] + rest, [c] + split;
    GreedyFirst(trie, p, segs, req, c);
    StepHit(t, trie, flat, p, segs, req, Greedy, c, r.value, rest, split, leaf);
  }

  lemma {:induction false} GreedyTakes(rest: Path, segs: seq<string>, from: nat, c: nat)
    requires from < c <= |segs| && Matches(rest, segs[c..])
    ensures Matches([Greedy] + rest, segs[from..])
    decreases c - from
  {
    var steps := [Greedy] + rest;
    assert steps[1..] == rest && segs[from..][1..] == segs[from + 1..];
    if from + 1 < c {
      GreedyTakes(rest, segs, from + 1, c);
    }
  }

  // ----- the loops of registry.go -----

  /** `rawQueryContains`. */
  method RawQueryContains(rawQuery: string, required: string) returns (found: bool)
    ensures found == QueryContains(rawQuery, required)
  {
    var raw := rawQuery;
    while raw != ""
      invariant QueryContains(rawQuery, required) == QueryContains(raw, required)
      decreases |raw|
    {
      var (part, rest) := Cut(raw);
      raw := rest;
      if Satisfies(part, required) {
        return true;
      }
    }
    return false;
  }

  /** `restOperationMatches`. */
  method RestOperationMatches(key: Binding, req: Request) returns (ok: bool)
    ensures ok == Accepts(key, req)
  {
    if key.httpMethod != req.httpMethod {
      return false;
    }
    var required := key.query;
    while required != ""
      invariant QueryAccepts(key.query, req.rawQuery) == QueryAccepts(required, req.rawQuery)
      decreases |required|
    {
      var (part, rest) := Cut(required);
      required := rest;
      var found := RawQueryContains(req.rawQuery, part);
      if !found {
        return false;
      }
    }
    return true;
  }

  /** `restLiteralNode`: binary search in the node's edge window. */
  method RestLiteralNode(window: seq<Edge>, segment: string) returns (node: int)
    requires forall i, j :: 0 <= i < j < |window| ==> Less(window[i].segment, window[j].segment)
    ensures node == FindEdge(window, segment)
  {
    var i, j := 0, |window|;
    while i < j
      invariant 0 <= i <= j <= |window|
      invariant forall k :: 0 <= k < i ==> Less(window[k].segment, segment)
      invariant forall k :: j <= k < |window| ==> !Less(window[k].segment, segment)
    {
      var h := (i + j) / 2;
      if Less(window[h].segment, segment) {
        forall k | 0 <= k < h ensures Less(window[k].segment, segment) {
          LessTransitive(window[k].segment, window[h].segment, segment);
        }
        i := h + 1;
      } else {
        forall k | h <= k < |window| ensures !Less(window[k].segment, segment) {
          if k > h && Less(window[k].segment, segment) {
            LessTransitive(window[h].segment, window[k].segment, segment);
          }
        }
        j := h;
      }
    }
    FoundAt(window, segment, i);
    if i == |window| {
      node := -1;
    } else if window[i].segment != segment {
      node := -1;
    } else {
      node := window[i].node;
    }
  }

  lemma {:induction false} FoundAt(window: seq<Edge>, segment: string, i: nat)
    requires i <= |window|
    requires forall k :: 0 <= k < i ==> Less(window[k].segment, segment)
    requires forall a, b :: 0 <= a < b < |window| ==> Less(window[a].segment, window[b].segment)
    requires i < |window| ==> !Less(window[i].segment, segment)
    ensures FindEdge(window, segment) ==
      if i < |window| && window[i].segment == segment then window[i].node else -1
  {
    LessIrreflexive(segment);
    if i > 0 {
      FoundAt(window[1..], segment, i - 1);
    } else if |window| > 0 && window[0].segment != segment {
      LessTotal(segment, window[0].segment);
      forall k | 0 <= k < |window| ensures window[k].segment != segment {
        if k > 0 { LessTransitive(segment, window[0].segment, window[k].segment); }
      }
      NotFound(window, segment);
    }
  }

  lemma {:induction false} NotFound(window: seq<Edge>, segment: string)
    requires forall k :: 0 <= k < |window| ==> window[k].segment != segment
    ensures FindEdge(window, segment) == -1
  {
    if window != [] {
      NotFound(window[1..], segment);
    }
  }

  /** The end of a request: the first entry of the node that accepts it. */
  method FirstAccepting(t: Tables, ghost trie: Trie, ghost flat: seq<Path>, node: nat, req: Request)
    returns (r: Option<nat>)
    requires node < |t.nodes| && node < |flat| && flat[node] in trie
    requires OperationsExact(t.nodes[node], trie[flat[node]], t.entries, t.candidates)
    ensures Answers(t, trie, flat, flat[node], [], req, r, [], [], node)
  {
    var n := t.nodes[node];
    ghost var p := flat[node];
    assert p + [] == p;
    for k := n.operationStart to n.operationEnd
      invariant forall l :: n.operationStart <= l < k ==> !Accepts(t.entries[l].key, req)
    {
      var ok := RestOperationMatches(t.entries[k].key, req);
      if ok {
        return Some(k);
      }
    }
    ghost var window := t.entries[n.operationStart..n.operationEnd];
    forall key | key in RouteKeys(trie[p].operations) ensures !Accepts(key, req) {
      assert key in EntryKeys(window);
      var e :| e in window && e.key == key;
      var l :| 0 <= l < |window| && window[l] == e;
    }
    return None;
  }

  // ----- the matcher -----

  /** Where the segment at `start` ends, and where the next one starts. */
  method NextSegment(path: string, start: nat) returns (end: nat, next: nat)
    requires start < |path|
    ensures start <= end <= |path| && start < next <= |path|
    ensures RequestSegments(path[start..]) == [path[start..end]] + RequestSegments(path[next..])
  {
    var offset := IndexOf(path[start..], '/');
    end := if offset < 0 then |path| else start + offset;
    next := if end < |path| then end + 1 else end;
    assert path[start..][..end - start] == path[start..end];
    if offset >= 0 {
      assert path[start..][offset + 1..] == path[next..];
    } else {
      assert path[start..end] == path[start..] && path[next..] == "";
    }
  }

  /** `restTrieMatch`, from the node at index `node` and the position `start`. */
  method RestTrieMatch(t: Tables, ghost routes: seq<Route>, ghost trie: Trie, ghost flat: seq<Path>,
                       ghost parents: seq<nat>, node: nat, req: Request, start: nat)
    returns (r: Option<nat>, ghost steps: Path, ghost split: Split, ghost leaf: nat)
    requires CompiledVia(t, routes, trie, flat, parents)
    requires node < |flat| && start <= |req.path|
    ensures r.None? ==> Silent(trie, flat[node], RequestSegments(req.path[start..]), req)
    ensures r.Some? ==> r.value < |t.entries| && Accepts(t.entries[r.value].key, req)
    ensures Answers(t, trie, flat, flat[node], RequestSegments(req.path[start..]), req, r, steps, split, leaf)
    decreases |req.path| - start, 1
  {
    ghost var p, segs := flat[node], RequestSegments(req.path[start..]);
    if start == |req.path| {
      r := FirstAccepting(t, trie, flat, node, req);
      steps, split, leaf := [], [], node;
      return;
    }
    var end, next := NextSegment(req.path, start);
    var n := t.nodes[node];
    assert LinksExact(n, trie[p], p, t.edges, flat);
    var literal := RestLiteralNode(t.edges[n.literalStart..n.literalEnd], req.path[start..end]);
    FollowExact(t, trie, flat, node, Literal(segs[0]));
    if literal >= 0 {
      r, steps, split, leaf := RestTrieMatch(t, routes, trie, flat, parents, literal, req, next);
      if r.Some? {
        LiteralFirst(trie, p, segs, req);
        StepHit(t, trie, flat, p, segs, req, Literal(segs[0]), 1, r.value, steps, split, leaf);
        steps, split := [Literal(segs[0])] + steps, [1] + split;
        return;
      }
    } else {
      AbsentIsSilent(trie, Child(p, Literal(segs[0])), segs[1..], req);
    }
    FollowExact(t, trie, flat, node, Parameter);
    if n.parameter >= 0 {
      r, steps, split, leaf := RestTrieMatch(t, routes, trie, flat, parents, n.parameter, req, next);
      if r.Some? {
        ParameterFirst(trie, p, segs, req);
        StepHit(t, trie, flat, p, segs, req, Parameter, 1, r.value, steps, split, leaf);
        steps, split := [Parameter] + steps, [1] + split;
        return;
      }
    } else {
      AbsentIsSilent(trie, Child(p, Parameter), segs[1..], req);
    }
    r, steps, split, leaf := GreedyMatch(t, routes, trie, flat, parents, node, req, start, next);
  }

  /** The last branch of restTrieMatch: a greedy label with each possible end. */
  method GreedyMatch(t: Tables, ghost routes: seq<Route>, ghost trie: Trie, ghost flat: seq<Path>,
                     ghost parents: seq<nat>, node: nat, req: Request, ghost start: nat, next: nat)
    returns (r: Option<nat>, ghost steps: Path, ghost split: Split, ghost leaf: nat)
    requires CompiledVia(t, routes, trie, flat, parents)
    requires node < |flat| && start < next <= |req.path|
    requires var segs := RequestSegments(req.path[start..]);
      && segs != [] && segs[1..] == RequestSegments(req.path[next..])
      && Silent(trie, Child(flat[node], Literal(segs[0])), segs[1..], req)
      && Silent(trie, Child(flat[node], Parameter), segs[1..], req)
    ensures Answers(t, trie, flat, flat[node], RequestSegments(req.path[start..]), req, r, steps, split, leaf)
    decreases |req.path| - start, 0
  {
    ghost var p, segs := flat[node], RequestSegments(req.path[start..]);
    var n := t.nodes[node];
    FollowExact(t, trie, flat, node, Greedy);
    steps, split, leaf := [], [], 0;
    if n.greedy < 0 {
      AbsentGreedySilent(trie, p, segs, req);
      AllBranchesSilent(trie, p, segs, req);
      return None, [], [], 0;
    }
    var greedyStart := next;
    ghost var c := 1;
    while true
      invariant start < greedyStart <= |req.path| && 1 <= c <= |segs|
      invariant RequestSegments(req.path[greedyStart..]) == segs[c..]
      invariant GreedySilent(trie, p, segs, req, c - 1)
      decreases |req.path| - greedyStart
    {
      r, steps, split, leaf := RestTrieMatch(t, routes, trie, flat, parents, n.greedy, req, greedyStart);
      if r.Some? {
        steps, split := GreedyHit(t, trie, flat, p, segs, req, c, r, steps, split, leaf);
        return;
      }
      GreedySilentNext(trie, p, segs, req, c);
      if greedyStart == |req.path| {
        break;
      }
      var end, following := NextSegment(req.path, greedyStart);
      assert segs[c..] != [] && segs[c..][1..] == segs[c + 1..];
      greedyStart, c := following, c + 1;
    }
    AllBranchesSilent(trie, p, segs, req);
  }

  // ----- which row answers -----

  /** Of the bindings at a node that accept the request, `key` was emitted first. */
  ghost predicate FirstOf(key: Binding, here: seq<Route>, req: Request) {
    forall x {:trigger x in here} :: x in here && Accepts(x.Key(), req) ==> x.Key() == key || BindingLess(key, x.Key())
  }

  lemma FirstAtLeaf(t: Tables, routes: seq<Route>, trie: Trie, flat: seq<Path>, parents: seq<nat>,
                    path: Path, leaf: nat, k: nat, req: Request)
    requires CompiledVia(t, routes, trie, flat, parents)
    requires leaf < |flat| && flat[leaf] == flat[0] + path
    requires t.nodes[leaf].operationStart <= k < t.nodes[leaf].operationEnd && k < |t.entries|
    requires NoneBefore(t, t.nodes[leaf].operationStart, k, req)
    ensures FirstOf(t.entries[k].key, OpsAt(routes, path), req)
  {
    assert flat[0] + path == path;
    assert OperationsExact(t.nodes[leaf], trie[path], t.entries, t.candidates);
    FirstInWindow(t, leaf, trie[path], k, req);
  }

  lemma FirstInWindow(t: Tables, leaf: nat, node: BuildNode, k: nat, req: Request)
    requires leaf < |t.nodes| && OperationsExact(t.nodes[leaf], node, t.entries, t.candidates)
    requires t.nodes[leaf].operationStart <= k < t.nodes[leaf].operationEnd && k < |t.entries|
    requires NoneBefore(t, t.nodes[leaf].operationStart, k, req)
    ensures FirstOf(t.entries[k].key, node.operations, req)
  {
    var n, here := t.nodes[leaf], node.operations;
    var window := t.entries[n.operationStart..n.operationEnd];
    assert window[k - n.operationStart] == t.entries[k];
    forall x | x in here && Accepts(x.Key(), req)
      ensures x.Key() == t.entries[k].key || BindingLess(t.entries[k].key, x.Key())
    {
      assert x.Key() in RouteKeys(here);
      var e :| e in window && e.key == x.Key();
      var l :| 0 <= l < |window| && window[l] == e;
      assert t.entries[n.operationStart + l] == e;
      assert n.operationStart + l >= k;
    }
  }

  /** What the order of a node's rows is for: a binding without a literal query is
      not chosen where one with a literal query accepts the request. */
  lemma LiteralQueryFirst(key: Binding, here: seq<Route>, req: Request, x: Route)
    requires FirstOf(key, here, req) && Accepts(key, req) && x in here && Accepts(x.Key(), req)
    ensures key.query == "" ==> x.query == ""
  {
  }

  /** Among literal queries the greater text is chosen, not the one that asks for
      more: `?b` answers a request for `a&b` that `?a&b` also accepts. */
  lemma GreaterQueryFirst(m: string, path: string)
    ensures var req, one, two := Request(m, path, "a&b"), Binding(m, "b"), Binding(m, "a&b");
      Accepts(one, req) && Accepts(two, req) && BindingLess(one, two)
  {
  }

  /** The declared pattern of `x` serves the request. */
  ghost predicate Serves(x: Route, req: Request) {
    && |req.path| > 0 && req.path[0] == '/'
    && Matches(x.path, RequestSegments(req.path[1..]))
    && Accepts(x.Key(), req)
  }

  /** It does, with each label taking so many segments. */
  ghost predicate ServesAs(x: Route, split: Split, req: Request) {
    && |req.path| > 0 && req.path[0] == '/'
    && Fits(x.path, split, RequestSegments(req.path[1..]))
    && Accepts(x.Key(), req)
  }

  /** Whatever else serves the request, and however, comes no earlier. */
  ghost predicate ServedBest(routes: seq<Route>, req: Request, steps: Path, split: Split) {
    forall x, split': Split {:trigger ServesAs(x, split', req)} ::
      x in routes && ServesAs(x, split', req) ==> NoLater(steps, split, x.path, split')
  }

  /** A pattern serves a request exactly when it does so with some split. */
  lemma ServesExactly(x: Route, req: Request)
    ensures Serves(x, req) <==> exists split: Split :: ServesAs(x, split, req)
  {
    if Serves(x, req) {
      var split := MatchesFits(x.path, RequestSegments(req.path[1..]));
      assert ServesAs(x, split, req);
    }
    forall split: Split | ServesAs(x, split, req) ensures Serves(x, req) {
      FitsMatches(x.path, split, RequestSegments(req.path[1..]));
    }
  }

  lemma NoneServes(routes: seq<Route>, trie: Trie, flat: seq<Path>, req: Request)
    requires IsTrieOf(trie, routes) && |flat| > 0 && flat[0] == [] && |req.path| > 0
    requires Silent(trie, flat[0], RequestSegments(req.path[1..]), req)
    ensures forall x :: x in routes ==> !Serves(x, req)
  {
    forall x | x in routes ensures !Serves(x, req) {
      if Serves(x, req) { ServesIsAccepted(routes, trie, flat, x, req); }
    }
  }

  lemma BestServes(routes: seq<Route>, trie: Trie, flat: seq<Path>, req: Request, steps: Path, split: Split)
    requires IsTrieOf(trie, routes) && |flat| > 0 && flat[0] == [] && |req.path| > 0
    requires Best(trie, flat[0], RequestSegments(req.path[1..]), req, steps, split)
    ensures ServedBest(routes, req, steps, split)
  {
    forall x, split': Split | x in routes && ServesAs(x, split', req) ensures NoLater(steps, split, x.path, split') {
      ServesIsAccepted(routes, trie, flat, x, req);
    }
  }

  lemma ServesIsAccepted(routes: seq<Route>, trie: Trie, flat: seq<Path>, x: Route, req: Request)
    requires IsTrieOf(trie, routes) && |flat| > 0 && flat[0] == []
    requires x in routes && Accepts(x.Key(), req)
    ensures NodeAccepts(trie, flat[0] + x.path, req)
  {
    assert flat[0] + x.path == x.path;
    var k :| 0 <= k < |routes| && routes[k] == x;
    assert IsPrefix(x.path, routes[k].path) && Reached(routes, x.path);
    assert x in OpsAt(routes, x.path);
    assert x.Key() in RouteKeys(trie[x.path].operations);
  }

  lemma EntryAtLeaf(t: Tables, routes: seq<Route>, trie: Trie, flat: seq<Path>, parents: seq<nat>,
                    path: Path, leaf: nat, k: nat)
    requires CompiledVia(t, routes, trie, flat, parents)
    requires leaf < |flat| && flat[leaf] == flat[0] + path
    requires t.nodes[leaf].operationStart <= k < t.nodes[leaf].operationEnd
    ensures k < |t.entries| && EntryExact(t.entries[k], OpsAt(routes, path), t.candidates)
    ensures exists x :: x in OpsAt(routes, path) && x.Key() == t.entries[k].key
  {
    assert flat[0] + path == path;
    var n := t.nodes[leaf];
    assert OperationsExact(n, trie[path], t.entries, t.candidates);
    var window := t.entries[n.operationStart..n.operationEnd];
    assert window[k - n.operationStart] == t.entries[k];
    assert EntryExact(window[k - n.operationStart], OpsAt(routes, path), t.candidates);
    var x :| Bound(x, OpsAt(routes, path), t.entries[k].key);
  }
}
