/** What a REST binding means, read off its text: which requests a URI template
    serves, and which row of the compiled tables answers a request
    (cmd/awsmodelgen/main.go, internal/awsapi/registry.go). */
module RestText {
  import opened Order
  import opened Text
  import opened RestUri
  import opened RestTrie
  import opened RestTables
  import opened RestCompiler
  import opened RestMatcher
  import opened Wrappers

  // ----- paths -----

  /** A request path after its first slash, with a slash after its last segment. */
  function Ended(rest: string): string {
    if rest == "" || rest[|rest| - 1] == '/' then rest else rest + "/"
  }

  /** One or more segments, each with a slash after it. */
  predicate IsRun(text: string) { text != "" && text[|text| - 1] == '/' }

  /** One segment with a slash after it. */
  predicate IsOne(text: string) { IsRun(text) && '/' !in text[..|text| - 1] }

  /** The text is what the template becomes with one segment put for each label
      and one or more for each greedy label. */
  ghost predicate Fills(pieces: seq<Piece>, text: string) {
    if pieces == [] then text == ""
    else exists n :: 0 <= n <= |text| && Put(pieces[0], text[..n]) && Fills(pieces[1..], text[n..])
  }

  /** The text can stand for the piece. */
  predicate Put(p: Piece, text: string) {
    match p
    case Word(word) => text == word + "/"
    case Label(_) => IsOne(text)
    case GreedyLabel(_) => IsRun(text)
  }

  lemma SegmentsCons(seg: string, more: string)
    requires '/' !in seg
    ensures RequestSegments(seg + "/" + more) == [seg] + RequestSegments(more)
  {
    var text := seg + "/" + more;
    IndexPast(seg, more, '/');
    assert text[..|seg|] == seg && text[|seg| + 1..] == more;
  }

  /** A slash at the end of the path makes no difference. */
  lemma {:induction false} SegmentsEnded(rest: string)
    ensures RequestSegments(Ended(rest)) == RequestSegments(rest)
    decreases |rest|
  {
    var i := IndexOf(rest, '/');
    if i >= 0 {
      var seg, more := rest[..i], rest[i + 1..];
      assert rest == seg + "/" + more && Ended(rest) == seg + "/" + Ended(more);
      SegmentsEnded(more);
      SegmentsCons(seg, more);
      SegmentsCons(seg, Ended(more));
    } else if rest != "" {
      SegmentsCons(rest, "");
      assert rest + "/" + "" == rest + "/";
    }
  }

  /** A text of whole segments starts with one. */
  lemma FirstSegment(text: string) returns (seg: string, more: string)
    requires IsRun(text)
    ensures text == seg + "/" + more && '/' !in seg && (more == "" || IsRun(more))
    ensures RequestSegments(text) == [seg] + RequestSegments(more)
  {
    var i := IndexOf(text, '/');
    seg, more := text[..i], text[i + 1..];
    assert text == seg + "/" + more;
    SegmentsCons(seg, more);
  }

  lemma OneIsFirst(text: string, seg: string, more: string, n: nat)
    requires text == seg + "/" + more && '/' !in seg && n <= |text|
    ensures IsOne(text[..n]) <==> n == |seg| + 1
    ensures text[..|seg| + 1] == seg + "/" && text[|seg| + 1..] == more
  {
    if n > |seg| + 1 {
      assert text[..n][..n - 1][|seg|] == '/';
    } else if 0 < n <= |seg| {
      assert text[..n][n - 1] == seg[n - 1];
    }
  }

  // ----- patterns -----

  /** The piece put first, with `n` characters. */
  ghost predicate FillsAfter(pieces: seq<Piece>, text: string, n: nat)
    requires pieces != []
  {
    n <= |text| && Put(pieces[0], text[..n]) && Fills(pieces[1..], text[n..])
  }

  lemma FillsUnfold(pieces: seq<Piece>, text: string)
    requires pieces != []
    ensures Fills(pieces, text) <==> exists n: nat :: FillsAfter(pieces, text, n)
  {
    if Fills(pieces, text) {
      var n :| 0 <= n <= |text| && Put(pieces[0], text[..n]) && Fills(pieces[1..], text[n..]);
      assert FillsAfter(pieces, text, n);
    }
    if exists n: nat :: FillsAfter(pieces, text, n) {
      var n: nat :| FillsAfter(pieces, text, n);
    }
  }

  /** A word or a label takes the first segment. */
  lemma OneTaken(pieces: seq<Piece>, text: string, seg: string, more: string)
    requires pieces != [] && !pieces[0].GreedyLabel? && PlainPiece(pieces[0])
    requires text == seg + "/" + more && '/' !in seg
    ensures Fills(pieces, text) <==> (pieces[0].Word? ==> pieces[0].text == seg) && Fills(pieces[1..], more)
  {
    FillsUnfold(pieces, text);
    forall n: nat | n <= |text| ensures Put(pieces[0], text[..n]) <==>
        n == |seg| + 1 && (pieces[0].Word? ==> pieces[0].text == seg)
    {
      OneIsFirst(text, seg, more, n);
      if pieces[0].Word? { WordIsOne(pieces[0].text, text[..n], seg, n == |seg| + 1); }
    }
    OneIsFirst(text, seg, more, |seg| + 1);
    assert FillsAfter(pieces, text, |seg| + 1) <==>
      (pieces[0].Word? ==> pieces[0].text == seg) && Fills(pieces[1..], more);
  }

  lemma WordIsOne(word: string, start: string, seg: string, one: bool)
    requires '/' !in word && (IsOne(start) <==> one) && (one ==> start == seg + "/")
    ensures start == word + "/" <==> one && word == seg
  {
    if start == word + "/" {
      assert start[..|start| - 1] == word;
    }
    assert (seg + "/")[..|seg|] == seg;
  }

  lemma GreedyTaken(pieces: seq<Piece>, text: string, seg: string, more: string)
    requires pieces != [] && pieces[0].GreedyLabel?
    requires text == seg + "/" + more && '/' !in seg && (more == "" || IsRun(more))
    ensures Fills(pieces, text) <==> Fills(pieces[1..], more) || Fills(pieces, more)
  {
    FillsUnfold(pieces, text);
    FillsUnfold(pieces, more);
    if Fills(pieces, text) {
      var n: nat :| FillsAfter(pieces, text, n);
      GreedyShift(pieces, text, seg, more, n);
    }
    if Fills(pieces[1..], more) {
      GreedyShift(pieces, text, seg, more, |seg| + 1);
    }
    if Fills(pieces, more) {
      var n: nat :| FillsAfter(pieces, more, n);
      GreedyShift(pieces, text, seg, more, n + |seg| + 1);
    }
  }

  lemma GreedyShift(pieces: seq<Piece>, text: string, seg: string, more: string, n: nat)
    requires pieces != [] && pieces[0].GreedyLabel?
    requires text == seg + "/" + more && '/' !in seg
    ensures FillsAfter(pieces, text, n) <==>
      if n > |seg| + 1 then FillsAfter(pieces, more, n - |seg| - 1) else n == |seg| + 1 && Fills(pieces[1..], more)
  {
    if n <= |text| { RunTaken(text, seg, more, n); }
  }

  lemma RunTaken(text: string, seg: string, more: string, n: nat)
    requires text == seg + "/" + more && '/' !in seg && n <= |text|
    ensures n <= |seg| ==> !IsRun(text[..n])
    ensures n == |seg| + 1 ==> IsRun(text[..n]) && text[n..] == more
    ensures n > |seg| + 1 ==>
      (IsRun(text[..n]) <==> IsRun(more[..n - |seg| - 1])) && text[n..] == more[n - |seg| - 1..]
  {
    if 0 < n <= |seg| { assert text[..n][n - 1] == seg[n - 1]; }
    if n > |seg| + 1 { assert text[n - 1] == more[n - |seg| - 2]; }
  }

  /** Matching a pattern segment by segment is filling its template. */
  lemma {:induction false} PatternFills(pieces: seq<Piece>, text: string)
    requires PlainPieces(pieces) && (text == "" || IsRun(text))
    ensures Matches(StepsOf(pieces), RequestSegments(text)) <==> Fills(pieces, text)
    decreases |pieces| + |text|
  {
    if pieces == [] || text == "" {
      NothingFills(pieces, text);
    } else {
      var seg, more := FirstSegment(text);
      var steps := StepsOf(pieces);
      assert steps[1..] == StepsOf(pieces[1..]) && PlainPiece(pieces[0]);
      assert ([seg] + RequestSegments(more))[1..] == RequestSegments(more);
      PatternFills(pieces[1..], more);
      if pieces[0].GreedyLabel? {
        PatternFills(pieces, more);
        GreedyTaken(pieces, text, seg, more);
        GreedyNeedsOne(steps, RequestSegments(more));
      } else {
        OneTaken(pieces, text, seg, more);
      }
    }
  }

  lemma GreedyNeedsOne(steps: Path, segs: seq<string>)
    requires steps != []
    ensures Matches(steps, []) == false
  {
  }

  lemma NothingFills(pieces: seq<Piece>, text: string)
    requires PlainPieces(pieces) && (pieces == [] || text == "") && (text == "" || IsRun(text))
    ensures Matches(StepsOf(pieces), RequestSegments(text)) <==> Fills(pieces, text)
  {
    if pieces != [] {
      assert forall n :: 0 <= n <= |text| ==> !Put(pieces[0], text[..n]);
    }
  }

  // ----- queries -----

  /** `part` stands between ampersands in the query; what follows a last ampersand
      is a part only if it is not empty, and an empty query has none. */
  ghost predicate IsPart(query: string, part: string) {
    '&' !in part && exists before, after :: PartAt(query, before, part, after)
  }

  ghost predicate PartAt(query: string, before: string, part: string, after: string) {
    && query == before + part + after
    && (before == "" || before[|before| - 1] == '&') && (after == "" || after[0] == '&')
    && (part != "" || after != "")
  }

  /** The query holds the literal; one without `=` may have an empty value there. */
  ghost predicate Holds(query: string, literal: string) {
    IsPart(query, literal) || ('=' !in literal && IsPart(query, literal + "="))
  }

  lemma PartShifts(head: string, rest: string, part: string, before: string, after: string)
    requires '&' !in head && '&' !in part && PartAt(head + "&" + rest, before, part, after)
    ensures part == head || exists b, a :: PartAt(rest, b, part, a)
  {
    var query := head + "&" + rest;
    if before == "" {
      assert query[|head|] == '&';
      assert after != "" ==> query[|part|] == '&';
      assert forall k :: 0 <= k < |part| ==> query[k] == part[k];
      assert forall k :: 0 <= k < |head| ==> query[k] == head[k];
      assert |part| == |head|;
      assert part == query[..|part|] == head;
    } else {
      assert query[|before| - 1] == '&';
      assert forall k :: 0 <= k < |head| ==> query[k] == head[k];
      assert |before| > |head|;
      var b := before[|head| + 1..];
      assert rest == query[|head| + 1..] == b + part + after;
      assert PartAt(rest, b, part, after);
    }
  }

  lemma PartsOfPair(head: string, rest: string, part: string)
    requires '&' !in head
    ensures IsPart(head + "&" + rest, part) <==> part == head || IsPart(rest, part)
  {
    var query := head + "&" + rest;
    if IsPart(query, part) {
      var before, after :| PartAt(query, before, part, after);
      PartShifts(head, rest, part, before, after);
    }
    if part == head {
      assert query == "" + head + ("&" + rest);
      assert PartAt(query, "", head, "&" + rest);
    }
    if IsPart(rest, part) {
      var before, after :| PartAt(rest, before, part, after);
      assert query == (head + "&" + before) + part + after;
      assert PartAt(query, head + "&" + before, part, after);
    }
  }

  lemma NoneInParts(a: string, b: string)
    requires '&' !in a + b
    ensures '&' !in a && '&' !in b
  {
    assert forall c :: c in a || c in b ==> c in a + b;
  }

  lemma PartsOfLast(query: string, part: string)
    requires '&' !in query
    ensures IsPart(query, part) <==> query != "" && part == query
  {
    if IsPart(query, part) {
      var before, after :| PartAt(query, before, part, after);
      NoneInParts(before + part, after);
      NoneInParts(before, part);
      assert query == part;
    }
    if query != "" && part == query {
      assert query == "" + query + "";
      assert PartAt(query, "", query, "");
    }
  }

  /** The parts are what Cut takes off one by one. */
  lemma PartsUnfold(query: string, part: string)
    ensures IsPart(query, part) <==> query != "" && (part == Cut(query).0 || IsPart(Cut(query).1, part))
  {
    var i := IndexOf(query, '&');
    if i >= 0 {
      assert query == query[..i] + "&" + query[i + 1..];
      PartsOfPair(query[..i], query[i + 1..], part);
    } else {
      PartsOfLast(query, part);
      PartsOfLast("", part);
    }
  }

  lemma {:induction false} ContainsText(raw: string, required: string)
    ensures QueryContains(raw, required) <==> Holds(raw, required)
    decreases |raw|
  {
    PartsUnfold(raw, required);
    PartsUnfold(raw, required + "=");
    if raw != "" { ContainsText(Cut(raw).1, required); }
  }

  /** A required query is met when the request holds every part of it. */
  lemma {:induction false} AcceptsText(required: string, raw: string)
    ensures QueryAccepts(required, raw) <==> forall part :: IsPart(required, part) ==> Holds(raw, part)
    decreases |required|
  {
    if required == "" {
      forall part ensures !IsPart("", part) { PartsOfLast("", part); }
    } else {
      var (head, rest) := Cut(required);
      forall part ensures IsPart(required, part) <==> part == head || IsPart(rest, part) {
        PartsUnfold(required, part);
      }
      ContainsText(raw, head);
      AcceptsText(rest, raw);
    }
  }

  // ----- bindings -----

  /** How the URI of an operation is written. */
  datatype UriText = UriText(lead: string, pieces: seq<Piece>, tail: string, query: string)

  ghost predicate WrittenAs(op: Operation, w: UriText) { Written(op.uri, w.lead, w.pieces, w.tail, w.query) }

  /** An operation declared with this method and template serves the request: its
      method is the one, the path is what the template becomes, with or without a
      slash at the end, and the query holds every part of the one declared. */
  ghost predicate TextServes(httpMethod: string, w: UriText, req: Request) {
    && httpMethod == req.httpMethod
    && |req.path| > 0 && req.path[0] == '/' && Fills(w.pieces, Ended(req.path[1..]))
    && forall part :: IsPart(w.query, part) ==> Holds(req.rawQuery, part)
  }

  lemma TextRead(op: Operation, w: UriText)
    requires WrittenAs(op, w)
    ensures RouteOf(op) == Route(op, StepsOf(w.pieces), w.query)
  {
    WrittenPath(op.uri, w.lead, w.pieces, w.tail, w.query);
  }

  /** What an operation serves is what its text says. */
  lemma ServesAsWritten(op: Operation, w: UriText, req: Request)
    requires WrittenAs(op, w)
    ensures Serves(RouteOf(op), req) <==> TextServes(op.httpMethod, w, req)
  {
    TextRead(op, w);
    AcceptsText(w.query, req.rawQuery);
    if |req.path| > 0 {
      SegmentsEnded(req.path[1..]);
      PatternFills(w.pieces, Ended(req.path[1..]));
    }
  }

  /** The operations and how their URIs are written. */
  ghost predicate AllWritten(ops: seq<Operation>, written: seq<UriText>) {
    |written| == |ops| && forall k {:trigger written[k]} :: 0 <= k < |ops| ==> WrittenAs(ops[k], written[k])
  }

  ghost predicate Declares(ops: seq<Operation>, written: seq<UriText>, k: nat, req: Request) {
    k < |ops| == |written| && TextServes(ops[k].httpMethod, written[k], req)
  }

  lemma ServedAsWritten(ops: seq<Operation>, written: seq<UriText>, req: Request)
    requires AllWritten(ops, written)
    ensures (exists x :: x in Routes(ops) && Serves(x, req)) <==> exists k: nat :: Declares(ops, written, k, req)
  {
    var routes := Routes(ops);
    forall k: nat | k < |ops| ensures Declares(ops, written, k, req) <==> Serves(routes[k], req) {
      DeclaredThere(ops, written, k, req);
    }
    if exists x :: x in routes && Serves(x, req) {
      var x :| x in routes && Serves(x, req);
      var k :| 0 <= k < |routes| && routes[k] == x;
      assert Declares(ops, written, k, req);
    }
    if k: nat :| Declares(ops, written, k, req) {
      assert routes[k] in routes && Serves(routes[k], req);
    }
  }

  // ----- the claim -----

  /** Operation `k` is filed where the answer was found. */
  ghost predicate FiledThere(ops: seq<Operation>, written: seq<UriText>, k: nat, pattern: Path, key: Binding) {
    && k < |ops| == |written|
    && StepsOf(written[k].pieces) == pattern && Binding(ops[k].httpMethod, written[k].query) == key
  }

  /** The row is there for a declared operation that serves the request, and if it
      is not ambiguous it names the one service there. */
  ghost predicate AnswersFor(e: Entry, ops: seq<Operation>, written: seq<UriText>, pattern: Path, req: Request) {
    && (exists k: nat :: FiledThere(ops, written, k, pattern, e.key) && Declares(ops, written, k, req))
    && (!e.ambiguous ==>
      forall k: nat :: FiledThere(ops, written, k, pattern, e.key) ==> ops[k].service == e.modelService)
  }

  lemma AnswerRead(e: Entry, ops: seq<Operation>, written: seq<UriText>, pattern: Path, split: Split, req: Request,
                   candidates: seq<Candidate>)
    requires AllWritten(ops, written) && EntryExact(e, OpsAt(Routes(ops), pattern), candidates)
    requires |req.path| > 0 && req.path[0] == '/' && Accepts(e.key, req)
    requires Fits(pattern, split, RequestSegments(req.path[1..]))
    ensures AnswersFor(e, ops, written, pattern, req)
  {
    var routes := Routes(ops);
    forall k: nat | FiledThere(ops, written, k, pattern, e.key)
      ensures Bound(routes[k], OpsAt(routes, pattern), e.key)
    {
      RouteRead(ops, written, k);
      assert routes[k] in routes;
    }
    var x :| Bound(x, OpsAt(routes, pattern), e.key) && x.op.name == e.operation;
    var k := SomeAnswers(ops, written, x, pattern, split, e.key, req);
  }

  lemma SomeAnswers(ops: seq<Operation>, written: seq<UriText>, x: Route, pattern: Path, split: Split, key: Binding,
                    req: Request)
    returns (k: nat)
    requires AllWritten(ops, written) && x in Routes(ops) && x.path == pattern && x.Key() == key
    requires |req.path| > 0 && req.path[0] == '/' && Accepts(key, req)
    requires Fits(pattern, split, RequestSegments(req.path[1..]))
    ensures FiledThere(ops, written, k, pattern, key) && Declares(ops, written, k, req)
  {
    k :| 0 <= k < |ops| && Routes(ops)[k] == x;
    FitsMatches(pattern, split, RequestSegments(req.path[1..]));
    RouteRead(ops, written, k);
    DeclaredThere(ops, written, k, req);
  }

  lemma RouteRead(ops: seq<Operation>, written: seq<UriText>, k: nat)
    requires AllWritten(ops, written) && k < |ops|
    ensures Routes(ops)[k] == Route(ops[k], StepsOf(written[k].pieces), written[k].query)
  {
    assert WrittenAs(ops[k], written[k]);
    TextRead(ops[k], written[k]);
  }

  lemma DeclaredThere(ops: seq<Operation>, written: seq<UriText>, k: nat, req: Request)
    requires AllWritten(ops, written) && k < |ops|
    ensures Serves(Routes(ops)[k], req) <==> Declares(ops, written, k, req)
  {
    assert WrittenAs(ops[k], written[k]);
    ServesAsWritten(ops[k], written[k], req);
  }

  /** `ClaimRESTQuery` up to the choice of entry: which row answers a request. */
  method ClaimRest(t: Tables, ghost ops: seq<Operation>, ghost written: seq<UriText>, ghost trie: Trie,
                   ghost flat: seq<Path>, ghost parents: seq<nat>, req: Request)
    returns (r: Option<Entry>, ghost pattern: Path, ghost split: Split)
    requires CompiledVia(t, Routes(ops), trie, flat, parents) && AllWritten(ops, written)
    ensures r.None? <==> forall k: nat :: !Declares(ops, written, k, req)
    ensures r.Some? ==>
      && AnswersFor(r.value, ops, written, pattern, req)
      && Fits(pattern, split, RequestSegments(req.path[1..]))
      && EntryExact(r.value, OpsAt(Routes(ops), pattern), t.candidates)
      && ServedBest(Routes(ops), req, pattern, split)
      && FirstOf(r.value.key, OpsAt(Routes(ops), pattern), req)
  {
    ghost var routes := Routes(ops);
    ServedAsWritten(ops, written, req);
    pattern, split := [], [];
    if req.path == "" || req.path[0] != '/' {
      return None, [], [];
    }
    ghost var leaf := 0;
    var k;
    k, pattern, split, leaf := RestTrieMatch(t, routes, trie, flat, parents, 0, req, 1);
    if k.None? {
      NoneServes(routes, trie, flat, req);
      return None, [], [];
    }
    r := Some(t.entries[k.value]);
    BestServes(routes, trie, flat, req, pattern, split);
    EntryAtLeaf(t, routes, trie, flat, parents, pattern, leaf, k.value);
    FirstAtLeaf(t, routes, trie, flat, parents, pattern, leaf, k.value, req);
    AnswerRead(r.value, ops, written, pattern, split, req, t.candidates);
  }

  /** There is a way to read the texts of any operations. */
  lemma EveryOperationIsWritten(ops: seq<Operation>) returns (written: seq<UriText>)
    ensures AllWritten(ops, written)
  {
    written := [];
    for i := 0 to |ops|
      invariant |written| == i && forall k {:trigger written[k]} :: 0 <= k < i ==> WrittenAs(ops[k], written[k])
    {
      var lead, pieces, tail := EveryUriIsWritten(ops[i].uri);
      written := written + [UriText(lead, pieces, tail, QueryOf(ops[i].uri))];
    }
  }

  /** Every operation is found in the compiled tables under the words and labels of
      its text: named if its service is alone there, a candidate otherwise. */
  lemma FoundAsWritten(t: Tables, ops: seq<Operation>, written: seq<UriText>, trie: Trie, flat: seq<Path>,
                       parents: seq<nat>, k: nat)
    requires CompiledVia(t, Routes(ops), trie, flat, parents) && AllWritten(ops, written) && k < |ops|
    ensures var found := Lookup(t, StepsOf(written[k].pieces), Binding(ops[k].httpMethod, written[k].query));
      && found.Some?
      && if found.value.ambiguous
         then found.value.candidateStart <= found.value.candidateEnd <= |t.candidates|
              && Candidate(ops[k].service, ops[k].name)
                 in t.candidates[found.value.candidateStart..found.value.candidateEnd]
         else found.value.modelService == ops[k].service
  {
    RouteRead(ops, written, k);
    assert Routes(ops)[k] in Routes(ops);
    OperationFound(t, Routes(ops), trie, flat, parents, Routes(ops)[k]);
  }
}
