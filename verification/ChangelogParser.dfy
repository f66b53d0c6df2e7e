/** Parsing changelog fragments into entries and printing entries back
    (`parse_entries` and `render_entry` in scripts/changelog.py). */
module ChangelogParser {
  import opened Wrappers
  import opened Text
  import opened TextLines
  import opened EntryGrammar

  const SUMMARY_MAX: nat := 160
  const DETAIL_MAX: nat := 3
  const DETAIL_LINE_MAX: nat := 200
  const DETAIL_REVIEW_MIN: nat := 30

  datatype Entry = Entry(
    section: Section, breaking: bool, areas: seq<string>, prose: string,
    detail: seq<string>, migration: string, review: string, reviewLine: nat, line: nat)

  datatype Fault =
    | IndentedReview | ThinReason | ReviewAlreadyOpen(since: nat)
    | NoEntryAbove | DetailTooLong | EmptyMigration
    | NotAnEntry | UnknownKind(kind: string) | BracketProse | NeedsMarker
    | BadArea(area: AreaFault) | SummaryTooLong
    | NoMigration | ReviewExcusesNothing | OverBudget | ReviewWithoutEntry

  datatype Problem = Problem(line: nat, fault: Fault)

  // ----- kinds and markers -----

  function SectionOf(kind: string): Option<Section> {
    if kind == "+" then Some(Added)
    else if kind == "-" then Some(Removed)
    else if kind == "~" then Some(Changed)
    else if kind == "*" then Some(Fixed)
    else SectionByWord(Lower(kind))
  }

  function SectionByWord(word: string): Option<Section> {
    if word == "added" then Some(Added)
    else if word == "changed" then Some(Changed)
    else if word == "fixed" then Some(Fixed)
    else if word == "removed" then Some(Removed)
    else if word == "deprecated" then Some(Deprecated)
    else if word == "security" then Some(Security)
    else None
  }

  function SymbolOf(s: Section): string {
    match s
    case Added => "+"
    case Removed => "-"
    case Changed => "~"
    case Fixed => "*"
    case Deprecated => "deprecated"
    case Security => "security"
  }

  /** BREAKING_DEFAULT. */
  predicate BreakingDefault(s: Section) { s == Removed }

  function SummaryLine(e: Entry): string {
    (if e.breaking then "**BREAKING** " else "")
    + (if e.areas != [] then "[" + Join(e.areas, "/") + "] " else "")
    + e.prose
  }

  // ----- one entry line -----

  /** An entry line read: the entry if there is one, and what is wrong with the line. */
  datatype LineResult = LineResult(entry: Option<Entry>, faults: seq<Fault>)

  function AreaFaults(faults: seq<AreaFault>): (r: seq<Fault>)
    ensures |r| == |faults|
  {
    seq(|faults|, k requires 0 <= k < |faults| => BadArea(faults[k]))
  }

  /** `hint` stands for `breaking_hint`: whether the prose reads like a break. */
  function ReadEntry(raw: string, number: nat, review: Option<(nat, string)>, hint: string -> bool): LineResult {
    match MatchEntryLine(raw)
    case None => LineResult(None, [NotAnEntry])
    case Some(x) =>
      match SectionOf(x.kind)
      case None => LineResult(None, [UnknownKind(x.kind)])
      case Some(section) =>
        var prose := Strip(x.prose);
        if prose != "" && prose[0] == '[' then LineResult(None, [BracketProse])
        else if x.marker == Unmarked && hint(prose) then LineResult(None, [NeedsMarker])
        else Assembled(section, BreakingOf(x.marker, section), x.areas, prose, number, review)
  }

  predicate BreakingOf(m: Marker, section: Section) { m == Breaking || (m == Unmarked && BreakingDefault(section)) }

  function Assembled(section: Section, breaking: bool, areas: Option<string>, prose: string,
                     number: nat, review: Option<(nat, string)>): LineResult
  {
    var list := if areas.Some? then ReadAreas(Split(areas.value, '/')) else AreaList([], []);
    var e := Entry(section, breaking, list.areas, prose, [], "", ReviewText(review), ReviewLine(review), number);
    LineResult(Some(e), AreaFaults(list.faults) + if |SummaryLine(e)| > SUMMARY_MAX then [SummaryTooLong] else [])
  }

  function ReviewText(review: Option<(nat, string)>): string { if review.Some? then review.value.1 else "" }

  function ReviewLine(review: Option<(nat, string)>): nat { if review.Some? then review.value.0 else 0 }

  method ParseEntryLine(raw: string, number: nat, review: Option<(nat, string)>, hint: string -> bool)
    returns (entry: Option<Entry>, faults: seq<Fault>)
    ensures LineResult(entry, faults) == ReadEntry(raw, number, review, hint)
  {
    entry, faults := None, [];
    var matched := MatchEntryLine(raw);
    if matched.None? {
      faults := [NotAnEntry];
      return;
    }
    var x := matched.value;
    var section := SectionOf(x.kind);
    if section.None? {
      faults := [UnknownKind(x.kind)];
      return;
    }
    var prose := Strip(x.prose);
    if prose != "" && prose[0] == '[' {
      faults := [BracketProse];
      return;
    }
    var breaking := BreakingDefault(section.value);
    if x.marker == Breaking {
      breaking := true;
    } else if x.marker == Compatible {
      breaking := false;
    } else if hint(prose) {
      faults := [NeedsMarker];
      return;
    }
    entry, faults := AssembleEntry(section.value, breaking, x.areas, prose, number, review);
  }

  method AssembleEntry(section: Section, breaking: bool, scope: Option<string>, prose: string,
                       number: nat, review: Option<(nat, string)>)
    returns (entry: Option<Entry>, faults: seq<Fault>)
    ensures LineResult(entry, faults) == Assembled(section, breaking, scope, prose, number, review)
  {
    var areas;
    areas, faults := [], [];
    if scope.Some? {
      var problems;
      areas, problems := ParseAreas(scope.value, '/');
      faults := AreaFaults(problems);
    }
    var e := Entry(section, breaking, areas, prose, [], "", ReviewText(review), ReviewLine(review), number);
    entry := Some(e);
    if |SummaryLine(e)| > SUMMARY_MAX {
      faults := faults + [SummaryTooLong];
    }
  }

  // ----- the line loop -----

  datatype Parser = Parser(
    entries: seq<Entry>, problems: seq<Problem>, continuing: bool, pending: Option<(nat, string)>)

  function At(number: nat, faults: seq<Fault>): (r: seq<Problem>)
    ensures |r| == |faults|
  {
    seq(|faults|, k requires 0 <= k < |faults| => Problem(number, faults[k]))
  }

  function Report(p: Parser, number: nat, faults: seq<Fault>): Parser {
    p.(problems := p.problems + At(number, faults))
  }

  function OpenReview(p: Parser, number: nat, reason: string): Parser {
    var thin := if |reason| < DETAIL_REVIEW_MIN then [ThinReason] else [];
    var open := if p.pending.Some? then [ReviewAlreadyOpen(p.pending.value.0)] else [];
    Report(p, number, thin + open).(pending := Some((number, reason)))
  }

  /** The last entry replaced. */
  function Amend(p: Parser, e: Entry): Parser
    requires p.entries != []
  {
    p.(entries := p.entries[..|p.entries| - 1] + [e])
  }

  function Continue(p: Parser, number: nat, text: string): Parser {
    if p.entries == [] then Report(p, number, [NoEntryAbove])
    else
      var q := Report(p, number, if |text| > DETAIL_LINE_MAX then [DetailTooLong] else []);
      var last := q.entries[|q.entries| - 1];
      if IsMigration(text) then
        var note := Strip(text[|MIGRATION|..]);
        if note == "" then Report(q, number, [EmptyMigration])
        else Amend(q, last.(migration := Strip(last.migration + " " + note))).(continuing := true)
      else if q.continuing then Amend(q, last.(migration := last.migration + " " + text))
      else Amend(q, last.(detail := last.detail + [text]))
  }

  function Begin(p: Parser, number: nat, raw: string, hint: string -> bool): Parser {
    var r := ReadEntry(raw, number, p.pending, hint);
    var q := Report(p, number, r.faults).(continuing := false, pending := None);
    if r.entry.Some? then q.(entries := q.entries + [r.entry.value]) else q
  }

  function Step(p: Parser, number: nat, raw: string, hint: string -> bool): Parser {
    var text := Strip(raw);
    if text == "" || raw[0] == '#' then p
    else
      match ReadReview(text)
      case Some(reason) =>
        if IsSpace(raw[0]) then Report(p, number, [IndentedReview]) else OpenReview(p, number, reason)
      case None => if IsSpace(raw[0]) then Continue(p, number, text) else Begin(p, number, raw, hint)
  }

  const START := Parser([], [], false, None)

  /** The parser after the given lines, the first of them numbered one. */
  function Run(lines: seq<string>, hint: string -> bool): Parser {
    if lines == [] then START
    else Step(Run(lines[..|lines| - 1], hint), |lines|, lines[|lines| - 1], hint)
  }

  method ContinueEntry(p: Parser, number: nat, text: string) returns (q: Parser)
    ensures q == Continue(p, number, text)
  {
    q := p;
    if |p.entries| == 0 {
      q := Report(q, number, [NoEntryAbove]);
      return;
    }
    assert Report(p, number, []) == p;
    if |text| > DETAIL_LINE_MAX {
      q := Report(q, number, [DetailTooLong]);
    }
    var last := q.entries[|q.entries| - 1];
    if IsMigration(text) {
      var note := Strip(text[|MIGRATION|..]);
      if note == "" {
        q := Report(q, number, [EmptyMigration]);
        return;
      }
      q := Amend(q, last.(migration := Strip(last.migration + " " + note)));
      q := q.(continuing := true);
    } else if q.continuing {
      q := Amend(q, last.(migration := last.migration + " " + text));
    } else {
      q := Amend(q, last.(detail := last.detail + [text]));
    }
  }

  method ScanLines(lines: seq<string>, hint: string -> bool) returns (p: Parser)
    ensures p == Run(lines, hint)
  {
    p := START;
    for i := 0 to |lines|
      invariant p == Run(lines[..i], hint)
    {
      assert lines[..i + 1][..i] == lines[..i];
      var raw, number := lines[i], i + 1;
      var text := Strip(raw);
      if text == "" || raw[0] == '#' {
        continue;
      }
      var review := ReadReview(text);
      if review.Some? {
        if IsSpace(raw[0]) {
          p := Report(p, number, [IndentedReview]);
          continue;
        }
        p := OpenReview(p, number, review.value);
        continue;
      }
      if IsSpace(raw[0]) {
        p := ContinueEntry(p, number, text);
        continue;
      }
      var entry, faults := ParseEntryLine(raw, number, p.pending, hint);
      p := Report(p, number, faults).(continuing := false, pending := None);
      if entry.Some? {
        p := p.(entries := p.entries + [entry.value]);
      }
    }
    assert lines[..|lines|] == lines;
  }

  // ----- what only a whole entry can answer -----

  predicate LacksMigration(e: Entry) { e.breaking && e.migration == "" }

  /** What detail_budget_errors says of one entry. */
  function BudgetProblem(e: Entry): seq<Problem> {
    if e.reviewLine > 0 then
      if |e.detail| <= DETAIL_MAX then [Problem(e.reviewLine, ReviewExcusesNothing)] else []
    else if |e.detail| > DETAIL_MAX then [Problem(e.line, OverBudget)] else []
  }

  function MigrationProblems(entries: seq<Entry>): seq<Problem> {
    if entries == [] then []
    else
      var last := entries[|entries| - 1];
      MigrationProblems(entries[..|entries| - 1])
        + if LacksMigration(last) then [Problem(last.line, NoMigration)] else []
  }

  function BudgetProblems(entries: seq<Entry>): seq<Problem> {
    if entries == [] then []
    else BudgetProblems(entries[..|entries| - 1]) + BudgetProblem(entries[|entries| - 1])
  }

  function Finish(p: Parser): seq<Problem> {
    MigrationProblems(p.entries) + BudgetProblems(p.entries)
    + if p.pending.Some? then [Problem(p.pending.value.0, ReviewWithoutEntry)] else []
  }

  datatype Parsed = Parsed(entries: seq<Entry>, problems: seq<Problem>)

  function Parse(text: string, requireMigration: bool, hint: string -> bool): Parsed {
    var p := Run(SplitLines(text), hint);
    Parsed(p.entries, p.problems + if requireMigration then Finish(p) else [])
  }

  method FinishEntries(p: Parser) returns (problems: seq<Problem>)
    ensures problems == Finish(p)
  {
    var missing, budget := [], [];
    for i := 0 to |p.entries|
      invariant missing == MigrationProblems(p.entries[..i])
      invariant budget == BudgetProblems(p.entries[..i])
    {
      assert p.entries[..i + 1][..i] == p.entries[..i];
      var e := p.entries[i];
      if LacksMigration(e) {
        missing := missing + [Problem(e.line, NoMigration)];
      }
      budget := budget + BudgetProblem(e);
    }
    assert p.entries[..|p.entries|] == p.entries;
    problems := missing + budget;
    if p.pending.Some? {
      problems := problems + [Problem(p.pending.value.0, ReviewWithoutEntry)];
    }
  }

  /** `parse_entries`. */
  method ParseEntries(text: string, requireMigration: bool, hint: string -> bool)
    returns (entries: seq<Entry>, problems: seq<Problem>)
    ensures Parsed(entries, problems) == Parse(text, requireMigration, hint)
  {
    var p := ScanLines(SplitLines(text), hint);
    entries, problems := p.entries, p.problems;
    if requireMigration {
      var more := FinishEntries(p);
      problems := problems + more;
    }
  }

  // ----- printing -----

  function MarkerOf(e: Entry, hint: string -> bool): Marker {
    if e.breaking != BreakingDefault(e.section) || hint(e.prose) then
      if e.breaking then Breaking else Compatible
    else Unmarked
  }

  function WriteEntryLine(e: Entry, hint: string -> bool): string {
    SymbolOf(e.section) + MarkerText(MarkerOf(e, hint)) + WriteTail(e)
  }

  function WriteTail(e: Entry): string {
    if e.areas != [] then " " + Bracketed(Join(e.areas, "/"), " " + e.prose) else " " + e.prose
  }

  function WriteNotes(detail: seq<string>): (r: seq<string>)
    ensures |r| == |detail|
    ensures forall k :: 0 <= k < |r| ==> r[k] == "  " + detail[k]
  {
    seq(|detail|, k requires 0 <= k < |detail| => "  " + detail[k])
  }

  function WriteMigration(note: string): string { "  " + (MIGRATION + " " + note) }

  function IfSome(line: Option<string>): seq<string> { if line.Some? then [line.value] else [] }

  /** The printed lines of one entry, by their part in it. */
  datatype Block = Block(review: Option<string>, line: string, notes: seq<string>, migration: Option<string>)

  function Layout(b: Block): seq<string> { (IfSome(b.review) + [b.line]) + (b.notes + IfSome(b.migration)) }

  function ReviewOf(e: Entry): Option<string> { if e.reviewLine > 0 then Some(WriteReview(e.review)) else None }

  function MigrationOf(e: Entry): Option<string> {
    if e.migration != "" then Some(WriteMigration(e.migration)) else None
  }

  /** What `render_entry` prints. */
  function BlockOf(e: Entry, hint: string -> bool): Block {
    Block(ReviewOf(e), WriteEntryLine(e, hint), WriteNotes(e.detail), MigrationOf(e))
  }

  function RenderBlocks(entries: seq<Entry>, hint: string -> bool): (blocks: seq<Block>)
    ensures |blocks| == |entries|
    ensures forall k {:trigger blocks[k]} :: 0 <= k < |blocks| ==> blocks[k] == BlockOf(entries[k], hint)
  {
    seq(|entries|, k requires 0 <= k < |entries| => BlockOf(entries[k], hint))
  }

  function Flat(blocks: seq<Block>): seq<string> {
    if blocks == [] then [] else Flat(blocks[..|blocks| - 1]) + Layout(blocks[|blocks| - 1])
  }

  /** `render_entry`. */
  method RenderEntry(e: Entry, hint: string -> bool) returns (rendered: string)
    ensures rendered == Unlines(Layout(BlockOf(e, hint)))
  {
    var notes := RenderNotes(e.detail);
    rendered := PrintEntry(ReviewOf(e), WriteEntryLine(e, hint), notes, WriteNotes(e.detail), MigrationOf(e));
  }

  method PrintEntry(review: Option<string>, line: string, notes: string, ghost noteLines: seq<string>,
                    migration: Option<string>)
    returns (rendered: string)
    requires notes == Unlines(noteLines)
    ensures rendered == Unlines(Layout(Block(review, line, noteLines, migration)))
  {
    rendered := "";
    if review.Some? {
      LinePrinted([], review.value);
      rendered := rendered + review.value + "\n";
    }
    LinePrinted(IfSome(review), line);
    UnlinesAppend(IfSome(review) + [line], noteLines);
    rendered := rendered + line + "\n" + notes;
    ghost var printed := IfSome(review) + [line] + noteLines;
    assert rendered == Unlines(printed);
    if migration.Some? {
      LinePrinted(printed, migration.value);
      rendered := rendered + migration.value + "\n";
    }
    assert printed + IfSome(migration) == Layout(Block(review, line, noteLines, migration));
    assert migration.None? ==> printed + IfSome(migration) == printed;
  }

  method RenderNotes(detail: seq<string>) returns (rendered: string)
    ensures rendered == Unlines(WriteNotes(detail))
  {
    rendered := "";
    for i := 0 to |detail|
      invariant rendered == Unlines(WriteNotes(detail)[..i])
    {
      var line := "  " + detail[i];
      LinePrinted(WriteNotes(detail)[..i], line);
      assert WriteNotes(detail)[..i + 1] == WriteNotes(detail)[..i] + [line];
      rendered := rendered + line + "\n";
    }
    assert WriteNotes(detail)[..|detail|] == WriteNotes(detail);
  }

  lemma LinePrinted(lines: seq<string>, line: string)
    ensures Unlines(lines + [line]) == Unlines(lines) + line + "\n"
  {
    UnlinesAppend(lines, [line]);
    assert Unlines([line]) == line + "\n" by { assert [line][1..] == []; }
  }

  /** The text `changelog.py new` writes for a list of entries. */
  function Printed(entries: seq<Entry>, hint: string -> bool): string { Unlines(Flat(RenderBlocks(entries, hint))) }

  method PrintEntries(entries: seq<Entry>, hint: string -> bool) returns (body: string)
    ensures body == Printed(entries, hint)
  {
    body := "";
    ghost var blocks := RenderBlocks(entries, hint);
    for i := 0 to |entries|
      invariant body == Unlines(Flat(blocks[..i]))
    {
      var text := RenderEntry(entries[i], hint);
      UnlinesAppend(Flat(blocks[..i]), Layout(blocks[i]));
      FlatSnoc(blocks, i);
      body := body + text;
    }
    assert blocks[..|blocks|] == blocks;
  }

  lemma FlatSnoc(blocks: seq<Block>, i: nat)
    requires i < |blocks|
    ensures Flat(blocks[..i + 1]) == Flat(blocks[..i]) + Layout(blocks[i])
  {
    assert blocks[..i + 1][..i] == blocks[..i];
  }
}
