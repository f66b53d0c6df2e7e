/** Modeled operations and the reading of their URI patterns
    (cmd/awsmodelgen/main.go). */
module RestUri {
  import opened Text

  datatype Operation = Operation(
    service: string, serviceShape: string, apiVersion: string, name: string,
    protocol: string, protocols: seq<string>, targetPrefix: string,
    signingName: string, httpMethod: string, uri: string)

  /** One step of a REST path pattern. */
  datatype Step = Literal(text: string) | Parameter | Greedy

  type Path = seq<Step>

  /** Method and literal query: what distinguishes operations on one path. */
  datatype Binding = Binding(httpMethod: string, query: string)

  /** `splitRESTURI`. */
  function SplitUri(uri: string): (r: (string, string))
    ensures '?' !in r.0
    ensures '?' !in uri ==> r == (uri, "")
    ensures '?' in uri ==> uri == r.0 + "?" + r.1
  {
    var i := IndexOf(uri, '?');
    if i >= 0 then
      assert uri == uri[..i] + [uri[i]] + uri[i + 1..];
      (uri[..i], uri[i + 1..])
    else (uri, "")
  }

  function PathOf(uri: string): string { SplitUri(uri).0 }

  function QueryOf(uri: string): string { SplitUri(uri).1 }

  predicate IsLabel(segment: string) {
    |segment| > 0 && segment[0] == '{' && segment[|segment| - 1] == '}'
  }

  predicate IsGreedyLabel(segment: string) {
    IsLabel(segment) && |segment| >= 2 && segment[|segment| - 2] == '+'
  }

  function Classify(segment: string): Step {
    if IsGreedyLabel(segment) then Greedy
    else if IsLabel(segment) then Parameter
    else Literal(segment)
  }

  function ClassifyAll(segments: seq<string>): (p: Path)
    ensures |p| == |segments|
    ensures forall k :: 0 <= k < |segments| ==> p[k] == Classify(segments[k])
  {
    seq(|segments|, k requires 0 <= k < |segments| => Classify(segments[k]))
  }

  /** `strings.TrimSuffix(path, "/")` when the path is longer than one character. */
  function TrimTrailingSlash(path: string): string {
    if |path| > 1 && path[|path| - 1] == '/' then path[..|path| - 1] else path
  }

  /** The segments writeRESTTrie inserts an operation under. */
  function Segments(uri: string): seq<string> {
    var path := TrimTrailingSlash(PathOf(uri));
    var trimmed := if |path| > 0 && path[0] == '/' then path[1..] else path;
    if trimmed == "" then [] else Split(trimmed, '/')
  }

  /** An operation with its URI read: where it sits and what distinguishes it there. */
  datatype Route = Route(op: Operation, path: Path, query: string) {
    function Key(): Binding { Binding(op.httpMethod, query) }
  }

  function RouteOf(op: Operation): Route {
    Route(op, ClassifyAll(Segments(op.uri)), QueryOf(op.uri))
  }

  /** `sameRESTBinding`. */
  predicate SameBinding(left: Route, right: Route) {
    left.Key() == right.Key()
  }

  // ----- what a URI text means -----

  /** A part of a URI template between slashes, as it is written. */
  datatype Piece = Word(text: string) | Label(name: string) | GreedyLabel(name: string)

  function PieceText(p: Piece): string {
    match p
    case Word(text) => text
    case Label(name) => "{" + name + "}"
    case GreedyLabel(name) => "{" + name + "+}"
  }

  /** Free of separators, and not the spelling of another kind of piece. */
  ghost predicate PlainPiece(p: Piece) {
    && '/' !in PieceText(p) && '?' !in PieceText(p)
    && (p.Word? ==> forall name :: p.text != "{" + name + "}")
    && (p.Label? ==> forall name :: p.name != name + "+")
  }

  ghost predicate PlainPieces(pieces: seq<Piece>) {
    forall k {:trigger pieces[k]} :: 0 <= k < |pieces| ==> PlainPiece(pieces[k])
  }

  function PieceTexts(pieces: seq<Piece>): (texts: seq<string>)
    ensures |texts| == |pieces|
    ensures forall k {:trigger texts[k]} :: 0 <= k < |pieces| ==> texts[k] == PieceText(pieces[k])
  {
    seq(|pieces|, k requires 0 <= k < |pieces| => PieceText(pieces[k]))
  }

  /** The path of a template: its pieces between slashes, with or without a slash
      before and after them. */
  function Spelling(lead: string, pieces: seq<Piece>, tail: string): string {
    lead + Join(PieceTexts(pieces), "/") + tail
  }

  predicate OptionalSlash(s: string) { s == "" || s == "/" }

  /** The pieces can be told from the slashes around them. */
  ghost predicate Template(lead: string, pieces: seq<Piece>, tail: string) {
    && PlainPieces(pieces) && OptionalSlash(lead) && OptionalSlash(tail)
    && (pieces != [] ==> Join(PieceTexts(pieces), "/") != "")
    && (pieces != [] && lead == "" ==> PieceText(pieces[0]) != "")
    && (pieces != [] && tail == "" ==> PieceText(pieces[|pieces| - 1]) != "")
  }

  /** The URI is this template, with or without a query. */
  ghost predicate Written(uri: string, lead: string, pieces: seq<Piece>, tail: string, query: string) {
    && Template(lead, pieces, tail)
    && (if query == "" then uri == Spelling(lead, pieces, tail) || uri == Spelling(lead, pieces, tail) + "?"
        else uri == Spelling(lead, pieces, tail) + "?" + query)
  }

  function StepOf(p: Piece): Step {
    match p
    case Word(text) => Literal(text)
    case Label(_) => Parameter
    case GreedyLabel(_) => Greedy
  }

  function StepsOf(pieces: seq<Piece>): (p: Path)
    ensures |p| == |pieces|
    ensures forall k {:trigger p[k]} :: 0 <= k < |pieces| ==> p[k] == StepOf(pieces[k])
  {
    seq(|pieces|, k requires 0 <= k < |pieces| => StepOf(pieces[k]))
  }

  lemma PieceRead(p: Piece)
    requires PlainPiece(p)
    ensures Classify(PieceText(p)) == StepOf(p)
  {
    LabelText(PieceText(p));
    if p.Label? { PlusText(p.name); }
  }

  lemma LabelText(text: string)
    ensures IsLabel(text) <==> exists name :: text == "{" + name + "}"
  {
    if IsLabel(text) {
      assert text == "{" + text[1..|text| - 1] + "}";
    }
  }

  lemma PlusText(name: string)
    ensures name != "" && name[|name| - 1] == '+' <==> exists stem :: name == stem + "+"
  {
    if name != "" && name[|name| - 1] == '+' {
      assert name == name[..|name| - 1] + "+";
    }
  }

  lemma {:induction false} JoinEnds(texts: seq<string>)
    requires texts != [] && forall k {:trigger texts[k]} :: 0 <= k < |texts| ==> '/' !in texts[k] && '?' !in texts[k]
    ensures '?' !in Join(texts, "/")
    ensures var s := Join(texts, "/");
      && (texts[0] != "" ==> s != "" && s[0] != '/')
      && (texts[|texts| - 1] != "" ==> s != "" && s[|s| - 1] != '/')
  {
    if |texts| > 1 {
      JoinEnds(texts[1..]);
    }
  }

  /** The path of a spelled template, with its outer slashes trimmed. */
  lemma TrimmedSpelling(lead: string, pieces: seq<Piece>, tail: string)
    requires Template(lead, pieces, tail)
    ensures var path := TrimTrailingSlash(Spelling(lead, pieces, tail));
      (if |path| > 0 && path[0] == '/' then path[1..] else path) == Join(PieceTexts(pieces), "/")
    ensures '?' !in Spelling(lead, pieces, tail)
  {
    var texts := PieceTexts(pieces);
    if pieces != [] {
      forall k | 0 <= k < |texts| ensures '/' !in texts[k] && '?' !in texts[k] { assert PlainPiece(pieces[k]); }
      JoinEnds(texts);
      TrimmedJoin(lead, Join(texts, "/"), tail);
    }
  }

  lemma TrimmedJoin(lead: string, joined: string, tail: string)
    requires OptionalSlash(lead) && OptionalSlash(tail) && joined != ""
    requires (lead == "" ==> joined[0] != '/') && (tail == "" ==> joined[|joined| - 1] != '/')
    ensures var path := TrimTrailingSlash(lead + joined + tail);
      (if |path| > 0 && path[0] == '/' then path[1..] else path) == joined
  {
    var whole := lead + joined + tail;
    assert tail == "/" ==> whole[..|whole| - 1] == lead + joined;
    assert (lead + joined)[|lead|..] == joined;
  }

  lemma PathAndQuery(path: string, query: string)
    requires '?' !in path
    ensures SplitUri(path) == (path, "") && SplitUri(path + "?" + query) == (path, query)
  {
    var uri := path + "?" + query;
    IndexPast(path, query, '?');
    assert uri[..|path|] == path && uri[|path| + 1..] == query;
  }

  /** A template is filed under its words, labels and greedy labels. */
  lemma WrittenPath(uri: string, lead: string, pieces: seq<Piece>, tail: string, query: string)
    requires Written(uri, lead, pieces, tail, query)
    ensures ClassifyAll(Segments(uri)) == StepsOf(pieces) && QueryOf(uri) == query
  {
    TrimmedSpelling(lead, pieces, tail);
    PathAndQuery(Spelling(lead, pieces, tail), query);
    assert Spelling(lead, pieces, tail) + "?" + "" == Spelling(lead, pieces, tail) + "?";
    SegmentsRead(uri, pieces);
  }

  lemma SegmentsRead(uri: string, pieces: seq<Piece>)
    requires PlainPieces(pieces) && (pieces != [] ==> Join(PieceTexts(pieces), "/") != "")
    requires var path := TrimTrailingSlash(PathOf(uri));
      (if |path| > 0 && path[0] == '/' then path[1..] else path) == Join(PieceTexts(pieces), "/")
    ensures ClassifyAll(Segments(uri)) == StepsOf(pieces)
  {
    var texts := PieceTexts(pieces);
    if pieces != [] {
      forall k | 0 <= k < |texts| ensures '/' !in texts[k] { assert PlainPiece(pieces[k]); }
      SplitJoin(texts, '/');
    }
    assert Segments(uri) == texts;
    forall k | 0 <= k < |pieces| ensures Classify(texts[k]) == StepOf(pieces[k]) { PieceRead(pieces[k]); }
  }

  function PieceOf(text: string): (p: Piece)
    ensures PieceText(p) == text
  {
    if IsGreedyLabel(text) then GreedyLabel(text[1..|text| - 2])
    else if IsLabel(text) then Label(text[1..|text| - 1])
    else Word(text)
  }

  lemma PieceOfIsPlain(text: string)
    requires '/' !in text && '?' !in text
    ensures PlainPiece(PieceOf(text))
  {
    LabelText(text);
    if PieceOf(text).Label? { PlusText(PieceOf(text).name); }
  }

  function PiecesOf(texts: seq<string>): (pieces: seq<Piece>)
    ensures PieceTexts(pieces) == texts
  {
    var pieces := seq(|texts|, k requires 0 <= k < |texts| => PieceOf(texts[k]));
    assert PieceTexts(pieces) == texts;
    pieces
  }

  lemma PiecesArePlain(texts: seq<string>)
    requires forall k {:trigger texts[k]} :: 0 <= k < |texts| ==> '/' !in texts[k] && '?' !in texts[k]
    ensures PlainPieces(PiecesOf(texts))
  {
    forall k | 0 <= k < |texts| ensures PlainPiece(PiecesOf(texts)[k]) { PieceOfIsPlain(texts[k]); }
  }

  lemma OuterSlashes(path: string) returns (lead: string, inner: string, tail: string)
    ensures path == lead + inner + tail && OptionalSlash(lead) && OptionalSlash(tail)
    ensures inner != "" ==> (lead == "" ==> inner[0] != '/') && (tail == "" ==> inner[|inner| - 1] != '/')
  {
    lead := if |path| > 0 && path[0] == '/' then "/" else "";
    var rest := path[|lead|..];
    tail := if |rest| > 0 && rest[|rest| - 1] == '/' then "/" else "";
    inner := rest[..|rest| - |tail|];
  }

  lemma InnerTemplate(lead: string, inner: string, tail: string) returns (pieces: seq<Piece>)
    requires OptionalSlash(lead) && OptionalSlash(tail) && '?' !in inner
    requires inner != "" ==> (lead == "" ==> inner[0] != '/') && (tail == "" ==> inner[|inner| - 1] != '/')
    ensures Template(lead, pieces, tail) && Join(PieceTexts(pieces), "/") == inner
  {
    pieces := [];
    if inner != "" {
      var texts := TextsOf(inner);
      pieces := PiecesOf(texts);
      assert PieceText(pieces[0]) == texts[0] && PieceText(pieces[|pieces| - 1]) == texts[|texts| - 1];
    }
  }

  lemma TextsOf(inner: string) returns (texts: seq<string>)
    requires inner != "" && '?' !in inner
    ensures texts != [] && Join(texts, "/") == inner && PlainPieces(PiecesOf(texts))
    ensures inner[0] != '/' ==> texts[0] != ""
    ensures inner[|inner| - 1] != '/' ==> texts[|texts| - 1] != ""
  {
    texts := SplitParts(inner, '/', '?');
    PiecesArePlain(texts);
  }

  /** Every URI is some template and its query. */
  lemma EveryUriIsWritten(uri: string) returns (lead: string, pieces: seq<Piece>, tail: string)
    ensures Written(uri, lead, pieces, tail, QueryOf(uri))
  {
    var inner;
    lead, inner, tail := OuterSlashes(PathOf(uri));
    pieces := InnerTemplate(lead, inner, tail);
    assert '?' in uri && QueryOf(uri) == "" ==> PathOf(uri) + "?" + "" == PathOf(uri) + "?";
  }
}
