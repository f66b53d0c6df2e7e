/** Parsing what was printed gives the entries back. */
module ChangelogRoundTrip {
  import opened Wrappers
  import opened TextLines
  import opened EntryGrammar
  import opened ChangelogParser
  import opened ChangelogSound
  import opened ChangelogLines

  // ----- reading back a printed entry -----

  ghost predicate Moves(states: seq<Parser>, lines: seq<string>, step: Stepper, i: nat)
    requires |states| == |lines| + 1 && i < |lines|
  {
    states[i + 1] == step(states[i], i + 1, lines[i])
  }

  /** The parser's states before and after each line. */
  ghost predicate Trace(states: seq<Parser>, lines: seq<string>, step: Stepper) {
    && |states| == |lines| + 1
    && forall i {:trigger Moves(states, lines, step, i)} :: 0 <= i < |lines| ==> Moves(states, lines, step, i)
  }

  lemma RunStep(lines: seq<string>, i: nat, hint: string -> bool)
    requires i < |lines|
    ensures Run(lines[..i + 1], hint) == Step(Run(lines[..i], hint), i + 1, lines[i], hint)
  {
    assert lines[..i + 1][..i] == lines[..i];
  }

  lemma RunTrace(before: seq<string>, added: seq<string>, hint: string -> bool)
    returns (states: seq<Parser>, step: Stepper)
    ensures Trace(states, before + added, step) && StepsWith(step, hint)
    ensures states[|before|] == Run(before, hint) && states[|before + added|] == Run(before + added, hint)
    ensures states[0] == START
  {
    var lines := before + added;
    step := (p: Parser, n: nat, line: string) => Step(p, n, line, hint);
    states := seq(|lines| + 1, i requires 0 <= i <= |lines| => Run(lines[..i], hint));
    forall i | 0 <= i < |lines| ensures Moves(states, lines, step, i) {
      RunStep(lines, i, hint);
    }
    assert lines[..|before|] == before && lines[..|lines|] == lines;
  }

  /** `part` stands in `lines` from position `i` on. */
  predicate StandsAt(lines: seq<string>, i: nat, part: seq<string>) {
    i + |part| <= |lines| && lines[i..i + |part|] == part
  }

  lemma StandsParts(lines: seq<string>, i: nat, a: seq<string>, b: seq<string>)
    requires StandsAt(lines, i, a + b)
    ensures StandsAt(lines, i, a) && StandsAt(lines, i + |a|, b)
  {
    var part := lines[i..i + |a + b|];
    assert part[..|a|] == a && part[|a|..] == b;
    assert lines[i..i + |a|] == part[..|a|];
    assert lines[i + |a|..i + |a| + |b|] == part[|a|..];
  }

  lemma StandsLine(lines: seq<string>, i: nat, part: seq<string>, k: nat)
    requires StandsAt(lines, i, part) && k < |part|
    ensures lines[i + k] == part[k]
  {
    assert lines[i..i + |part|][k] == lines[i + k];
  }

  lemma {:induction false} NotesAt(states: seq<Parser>, lines: seq<string>, step: Stepper, i: nat,
                                   noteLines: seq<string>, notes: seq<string>, k: nat)
    requires Trace(states, lines, step) && StandsAt(lines, i, noteLines) && k <= |notes| == |noteLines|
    requires forall j {:trigger noteLines[j]} :: 0 <= j < |notes| ==> AddsNote(step, noteLines[j], notes[j])
    requires states[i].entries != [] && !states[i].continuing
    ensures var last := Last(states[i]);
      states[i + k] == Amend(states[i], last.(detail := last.detail + notes[..k]))
  {
    var last := Last(states[i]);
    if k == 0 {
      assert last.detail + [] == last.detail;
    } else {
      NotesAt(states, lines, step, i, noteLines, notes, k - 1);
      StandsLine(lines, i, noteLines, k - 1);
      assert Moves(states, lines, step, i + k - 1);
      assert last.detail + notes[..k] == last.detail + notes[..k - 1] + [notes[k - 1]];
    }
  }

  /** The entry with the line numbers it has when printed after `n` lines. */
  function Renumber(e: Entry, n: nat): Entry {
    if e.reviewLine > 0 then e.(reviewLine := n + 1, line := n + 2) else e.(line := n + 1)
  }

  /** What the marker line, if there is one, leaves pending. */
  function PendingOf(e: Entry, n: nat): Option<(nat, string)> {
    if e.reviewLine > 0 then Some((n + 1, e.review)) else None
  }

  function Bare(e: Entry, n: nat): Entry { Renumber(e, n).(detail := [], migration := "") }

  lemma MarkerAt(states: seq<Parser>, lines: seq<string>, step: Stepper, i: nat, b: Block, e: Entry)
    requires Trace(states, lines, step) && StandsAt(lines, i, IfSome(b.review))
    requires WritesEntry(step, b, e) && states[i].pending.None?
    ensures states[i + |IfSome(b.review)|] == states[i].(pending := PendingOf(e, i))
  {
    if b.review.Some? {
      StandsLine(lines, i, IfSome(b.review), 0);
      assert Moves(states, lines, step, i);
    }
  }

  lemma OpenedIs(e: Entry, b: Block, n: nat)
    requires GoodReview(e) && b.review.Some? == (e.reviewLine > 0)
    ensures Opened(e, n + |IfSome(b.review)| + 1, PendingOf(e, n)) == Bare(e, n)
  {
  }

  lemma HeadAt(states: seq<Parser>, lines: seq<string>, step: Stepper, i: nat, b: Block, e: Entry)
    requires Trace(states, lines, step) && StandsAt(lines, i, IfSome(b.review) + [b.line])
    requires WritesEntry(step, b, e) && GoodReview(e) && states[i].pending.None?
    ensures states[i + |IfSome(b.review)| + 1]
      == Parser(states[i].entries + [Bare(e, i)], states[i].problems, false, None)
  {
    var review := IfSome(b.review);
    StandsParts(lines, i, review, [b.line]);
    StandsLine(lines, i + |review|, [b.line], 0);
    MarkerAt(states, lines, step, i, b, e);
    var j := i + |review|;
    assert Moves(states, lines, step, j);
    OpenedIs(e, b, i);
  }

  function AfterTail(p: Parser, e: Entry, bare: Entry, end: nat): Parser
    requires p.entries != []
  {
    Amend(Report(p, end, TooLong(e.migration)), bare.(detail := e.detail, migration := e.migration))
    .(continuing := e.migration != "")
  }

  lemma TailAt(states: seq<Parser>, lines: seq<string>, step: Stepper, i: nat, b: Block, e: Entry, bare: Entry)
    requires Trace(states, lines, step) && StandsAt(lines, i, b.notes + IfSome(b.migration))
    requires WritesEntry(step, b, e) && bare.detail == [] && bare.migration == ""
    requires states[i].entries != [] && Last(states[i]) == bare && !states[i].continuing
    ensures var end := i + |b.notes + IfSome(b.migration)|; states[end] == AfterTail(states[i], e, bare, end)
  {
    StandsParts(lines, i, b.notes, IfSome(b.migration));
    NotesAt(states, lines, step, i, b.notes, e.detail, |e.detail|);
    assert [] + e.detail[..|e.detail|] == e.detail;
    var j := i + |b.notes|;
    if b.migration.Some? {
      StandsLine(lines, j, IfSome(b.migration), 0);
      assert Moves(states, lines, step, j);
    } else {
      assert Report(states[i], j, []) == states[i];
    }
  }

  /** The parser once an entry printed from line `n` to line `end` has been read. */
  function AfterEntry(p: Parser, e: Entry, n: nat, end: nat): Parser {
    Parser(p.entries + [Renumber(e, n)], p.problems + At(end, TooLong(e.migration)), e.migration != "", None)
  }

  /** The parser after the lines of a printed entry: the entry is added, and the
      only complaint possible is of a migration note too long for one line. */
  lemma EntryReadBack(states: seq<Parser>, lines: seq<string>, step: Stepper, i: nat, b: Block, e: Entry)
    requires Trace(states, lines, step) && StandsAt(lines, i, Layout(b))
    requires WritesEntry(step, b, e) && GoodReview(e) && states[i].pending.None?
    ensures var end := i + |Layout(b)|; states[end] == AfterEntry(states[i], e, i, end)
  {
    var head, rest := IfSome(b.review) + [b.line], b.notes + IfSome(b.migration);
    var mid := i + |IfSome(b.review)| + 1;
    assert mid == i + |head|;
    StandsParts(lines, i, head, rest);
    HeadAt(states, lines, step, i, b, e);
    var q := states[mid];
    assert Last(q) == Bare(e, i);
    TailAt(states, lines, step, mid, b, e, Bare(e, i));
    Completed(states[i], q, mid + |rest|, e, i);
  }

  lemma Completed(p: Parser, q: Parser, end: nat, e: Entry, n: nat)
    requires q == Parser(p.entries + [Bare(e, n)], p.problems, false, None)
    ensures AfterTail(q, e, Bare(e, n), end) == AfterEntry(p, e, n, end)
  {
  }

  // ----- reading back everything -----

  /** The same entry up to the lines it was read from. */
  predicate SameContent(a: Entry, b: Entry) {
    a.(line := 0, reviewLine := 0) == b.(line := 0, reviewLine := 0) && (a.reviewLine > 0 <==> b.reviewLine > 0)
  }

  predicate SameEntries(xs: seq<Entry>, ys: seq<Entry>) {
    |xs| == |ys| && forall k {:trigger xs[k]} {:trigger ys[k]} :: 0 <= k < |xs| ==> SameContent(xs[k], ys[k])
  }

  predicate NoteFits(e: Entry) { TooLong(e.migration) == [] }

  ghost predicate AllNotesFit(entries: seq<Entry>) {
    forall k {:trigger NoteFits(entries[k])} :: 0 <= k < |entries| ==> NoteFits(entries[k])
  }

  /** Complaints about migration notes that no longer fit on one line, and no others. */
  ghost predicate OnlyLongNotes(problems: seq<Problem>, entries: seq<Entry>) {
    && (problems == [] <==> AllNotesFit(entries))
    && forall k {:trigger problems[k]} :: 0 <= k < |problems| ==> problems[k].fault == DetailTooLong
  }

  lemma SameSnoc(xs: seq<Entry>, ys: seq<Entry>, e: Entry, n: nat)
    requires SameEntries(xs, ys)
    ensures SameEntries(xs + [Renumber(e, n)], ys + [e])
  {
  }

  lemma NotesSnoc(problems: seq<Problem>, entries: seq<Entry>, e: Entry, number: nat)
    requires OnlyLongNotes(problems, entries)
    ensures OnlyLongNotes(problems + At(number, TooLong(e.migration)), entries + [e])
  {
    var longer := entries + [e];
    assert NoteFits(e) <==> NoteFits(longer[|entries|]);
    assert forall k :: 0 <= k < |entries| ==> longer[k] == entries[k];
    if AllNotesFit(longer) {
      forall k | 0 <= k < |entries| ensures NoteFits(entries[k]) {
        assert NoteFits(longer[k]);
      }
    }
  }

  lemma {:induction false} BlocksRead(states: seq<Parser>, lines: seq<string>, step: Stepper, i: nat,
                                      blocks: seq<Block>, entries: seq<Entry>, k: nat)
    returns (xs: seq<Entry>, problems: seq<Problem>)
    requires Trace(states, lines, step) && AllWritten(step, blocks, entries) && k <= |blocks|
    requires StandsAt(lines, i, Flat(blocks[..k])) && states[i].pending.None?
    ensures ReadBack(states[i], states[i + |Flat(blocks[..k])|], xs, problems, entries[..k])
  {
    if k == 0 {
      xs, problems := [], [];
    } else {
      assert entries[..k] == entries[..k - 1] + [entries[k - 1]];
      var mid := BlockStands(lines, i, blocks, k - 1);
      xs, problems := BlocksRead(states, lines, step, i, blocks, entries, k - 1);
      xs, problems := BlockRead(states, lines, step, states[i], mid, blocks, entries, k - 1, xs, problems);
    }
  }

  lemma BlockStands(lines: seq<string>, i: nat, blocks: seq<Block>, k: nat) returns (mid: nat)
    requires k < |blocks| && StandsAt(lines, i, Flat(blocks[..k + 1]))
    ensures StandsAt(lines, i, Flat(blocks[..k])) && StandsAt(lines, mid, Layout(blocks[k]))
    ensures mid == i + |Flat(blocks[..k])| && mid + |Layout(blocks[k])| == i + |Flat(blocks[..k + 1])|
  {
    FlatSnoc(blocks, k);
    StandsParts(lines, i, Flat(blocks[..k]), Layout(blocks[k]));
    mid := i + |Flat(blocks[..k])|;
  }

  /** The parser has gained these entries, as they should be, and these problems, about long notes only. */
  ghost predicate ReadBack(p: Parser, q: Parser, xs: seq<Entry>, problems: seq<Problem>, entries: seq<Entry>) {
    Extended(p, q, xs, problems) && SameEntries(xs, entries) && OnlyLongNotes(problems, entries)
  }

  lemma BlockRead(states: seq<Parser>, lines: seq<string>, step: Stepper, p: Parser, i: nat, blocks: seq<Block>,
                  entries: seq<Entry>, k: nat, xs: seq<Entry>, problems: seq<Problem>)
    returns (ys: seq<Entry>, more: seq<Problem>)
    requires Trace(states, lines, step) && AllWritten(step, blocks, entries) && k < |blocks|
    requires StandsAt(lines, i, Layout(blocks[k])) && ReadBack(p, states[i], xs, problems, entries[..k])
    ensures ReadBack(p, states[i + |Layout(blocks[k])|], ys, more, entries[..k] + [entries[k]])
  {
    var block, e := blocks[k], entries[k];
    var end := i + |Layout(block)|;
    assert Written(step, blocks, entries, k);
    BlockExtends(states, lines, step, p, i, block, e, xs, problems);
    SameSnoc(xs, entries[..k], e, i);
    NotesSnoc(problems, entries[..k], e, end);
    ys, more := xs + [Renumber(e, i)], problems + At(end, TooLong(e.migration));
  }

  ghost predicate Written(step: Stepper, blocks: seq<Block>, entries: seq<Entry>, k: nat)
    requires k < |blocks| == |entries|
  {
    WritesEntry(step, blocks[k], entries[k]) && GoodReview(entries[k])
  }

  ghost predicate AllWritten(step: Stepper, blocks: seq<Block>, entries: seq<Entry>) {
    && |blocks| == |entries|
    && forall k {:trigger Written(step, blocks, entries, k)} :: 0 <= k < |blocks| ==> Written(step, blocks, entries, k)
  }

  /** The parser has gained these entries and problems and has no marker open. */
  predicate Extended(p: Parser, q: Parser, xs: seq<Entry>, problems: seq<Problem>) {
    q.pending.None? && q.entries == p.entries + xs && q.problems == p.problems + problems
  }

  lemma BlockExtends(states: seq<Parser>, lines: seq<string>, step: Stepper, p: Parser, i: nat, b: Block, e: Entry,
                     xs: seq<Entry>, problems: seq<Problem>)
    requires Trace(states, lines, step) && StandsAt(lines, i, Layout(b))
    requires WritesEntry(step, b, e) && GoodReview(e) && Extended(p, states[i], xs, problems)
    ensures var end := i + |Layout(b)|;
      Extended(p, states[end], xs + [Renumber(e, i)], problems + At(end, TooLong(e.migration)))
  {
    EntryReadBack(states, lines, step, i, b, e);
    EntryExtends(p, states[i], xs, problems, e, i, i + |Layout(b)|);
  }

  lemma EntryExtends(p: Parser, q: Parser, xs: seq<Entry>, problems: seq<Problem>, e: Entry, n: nat, end: nat)
    requires Extended(p, q, xs, problems)
    ensures Extended(p, AfterEntry(q, e, n, end), xs + [Renumber(e, n)], problems + At(end, TooLong(e.migration)))
  {
  }

  // ----- the checks that need whole entries -----

  predicate Complete(e: Entry) { !LacksMigration(e) && BudgetProblem(e) == [] }

  ghost predicate AllComplete(entries: seq<Entry>) {
    forall k {:trigger Complete(entries[k])} :: 0 <= k < |entries| ==> Complete(entries[k])
  }

  lemma CompleteSnoc(entries: seq<Entry>, e: Entry)
    ensures AllComplete(entries + [e]) <==> AllComplete(entries) && Complete(e)
  {
    var longer := entries + [e];
    if AllComplete(longer) {
      forall k | 0 <= k < |entries| ensures Complete(entries[k]) {
        assert Complete(longer[k]);
      }
      assert Complete(longer[|entries|]);
    }
  }

  lemma {:induction false} FinishClean(entries: seq<Entry>)
    ensures MigrationProblems(entries) == [] && BudgetProblems(entries) == [] <==> AllComplete(entries)
  {
    if entries != [] {
      var init, last := entries[..|entries| - 1], entries[|entries| - 1];
      FinishClean(init);
      CompleteSnoc(init, last);
      assert entries == init + [last];
    }
  }

  lemma SameComplete(xs: seq<Entry>, ys: seq<Entry>)
    requires SameEntries(xs, ys) && MigrationProblems(ys) == [] && BudgetProblems(ys) == []
    ensures MigrationProblems(xs) == [] && BudgetProblems(xs) == []
  {
    FinishClean(ys);
    forall k | 0 <= k < |xs| ensures Complete(xs[k]) {
      assert Complete(ys[k]) && SameContent(xs[k], ys[k]);
    }
    FinishClean(xs);
  }

  // ----- main results -----

  lemma CleanEntries(text: string, requireMigration: bool, hint: string -> bool)
    requires Parse(text, requireMigration, hint).problems == []
    ensures AllWellFormed(Parse(text, requireMigration, hint).entries)
  {
    LinesAreOneLine(text);
    RunSound(SplitLines(text), hint);
  }

  lemma BlocksWritten(step: Stepper, entries: seq<Entry>, blocks: seq<Block>, hint: string -> bool)
    requires StepsWith(step, hint) && AllWellFormed(entries) && blocks == RenderBlocks(entries, hint)
    ensures AllWritten(step, blocks, entries)
  {
    forall k | 0 <= k < |blocks| ensures Written(step, blocks, entries, k) {
      PrintedWrites(step, entries[k], hint);
    }
  }

  lemma BlocksOneLine(entries: seq<Entry>, blocks: seq<Block>, hint: string -> bool)
    requires AllWellFormed(entries) && blocks == RenderBlocks(entries, hint)
    ensures AllOneLine(Flat(blocks))
  {
    forall k | 0 <= k < |blocks| ensures BlockOneLine(blocks[k]) {
      PrintedOneLine(entries[k], hint);
    }
    FlatOneLine(blocks);
  }

  /** Reading well-formed entries printed after earlier text. */
  lemma PrintedAfter(before: string, entries: seq<Entry>, hint: string -> bool)
    returns (xs: seq<Entry>, problems: seq<Problem>)
    requires before == "" || before[|before| - 1] == '\n'
    requires AllWellFormed(entries) && Run(SplitLines(before), hint).pending.None?
    ensures Extended(Run(SplitLines(before), hint),
                     Run(SplitLines(before + Printed(entries, hint)), hint), xs, problems)
    ensures SameEntries(xs, entries) && OnlyLongNotes(problems, entries)
  {
    var blocks := RenderBlocks(entries, hint);
    BlocksOneLine(entries, blocks, hint);
    SplitUnlines(Flat(blocks));
    SplitAppended(before, Unlines(Flat(blocks)));
    xs, problems := LinesAfter(SplitLines(before), blocks, entries, hint);
  }

  lemma LinesAfter(before: seq<string>, blocks: seq<Block>, entries: seq<Entry>, hint: string -> bool)
    returns (xs: seq<Entry>, problems: seq<Problem>)
    requires AllWellFormed(entries) && Run(before, hint).pending.None? && blocks == RenderBlocks(entries, hint)
    ensures Extended(Run(before, hint), Run(before + Flat(blocks), hint), xs, problems)
    ensures SameEntries(xs, entries) && OnlyLongNotes(problems, entries)
  {
    var states, step := RunTrace(before, Flat(blocks), hint);
    xs, problems := TraceAfter(states, before, blocks, step, entries, hint);
  }

  lemma TraceAfter(states: seq<Parser>, before: seq<string>, blocks: seq<Block>, step: Stepper, entries: seq<Entry>,
                   hint: string -> bool)
    returns (xs: seq<Entry>, problems: seq<Problem>)
    requires Trace(states, before + Flat(blocks), step) && StepsWith(step, hint) && states[|before|].pending.None?
    requires AllWellFormed(entries) && blocks == RenderBlocks(entries, hint)
    ensures Extended(states[|before|], states[|before + Flat(blocks)|], xs, problems)
    ensures SameEntries(xs, entries) && OnlyLongNotes(problems, entries)
  {
    BlocksWritten(step, entries, blocks, hint);
    xs, problems := WrittenAfter(states, before, blocks, step, entries);
  }

  lemma WrittenAfter(states: seq<Parser>, before: seq<string>, blocks: seq<Block>, step: Stepper, entries: seq<Entry>)
    returns (xs: seq<Entry>, problems: seq<Problem>)
    requires Trace(states, before + Flat(blocks), step) && AllWritten(step, blocks, entries)
    requires states[|before|].pending.None?
    ensures Extended(states[|before|], states[|before + Flat(blocks)|], xs, problems)
    ensures SameEntries(xs, entries) && OnlyLongNotes(problems, entries)
  {
    assert StandsAt(before + Flat(blocks), |before|, Flat(blocks));
    assert blocks[..|blocks|] == blocks && entries[..|blocks|] == entries;
    xs, problems := BlocksRead(states, before + Flat(blocks), step, |before|, blocks, entries, |blocks|);
  }

  lemma ReadAgain(p: Parser, q: Parser, xs: seq<Entry>, problems: seq<Problem>, entries: seq<Entry>,
                  requireMigration: bool)
    requires Extended(p, q, xs, problems) && SameEntries(xs, entries)
    requires requireMigration ==>
      MigrationProblems(p.entries) == [] && BudgetProblems(p.entries) == [] &&
      MigrationProblems(entries) == [] && BudgetProblems(entries) == []
    ensures p.problems + problems == q.problems + if requireMigration then Finish(q) else []
  {
    if requireMigration {
      SameComplete(xs, entries);
      BothComplete(p.entries, xs);
    }
  }

  lemma BothComplete(xs: seq<Entry>, ys: seq<Entry>)
    requires MigrationProblems(xs) == [] && BudgetProblems(xs) == []
    requires MigrationProblems(ys) == [] && BudgetProblems(ys) == []
    ensures MigrationProblems(xs + ys) == [] && BudgetProblems(xs + ys) == []
  {
    FinishClean(xs);
    FinishClean(ys);
    forall k | 0 <= k < |xs + ys| ensures Complete((xs + ys)[k]) {
      assert if k < |xs| then Complete(xs[k]) else Complete(ys[k - |xs|]);
    }
    FinishClean(xs + ys);
  }

  /** Appending what was printed from a clean parse to a clean fragment file that
      ends in a line feed keeps the file's entries and adds the printed ones up to
      line numbers. The result is clean too exactly when every joined migration
      note still fits on a line, and otherwise complains of nothing else. */
  lemma AppendRoundTrip(file: string, text: string, requireMigration: bool, hint: string -> bool)
    requires file == "" || file[|file| - 1] == '\n'
    requires Parse(file, true, hint).problems == [] && Parse(text, requireMigration, hint).problems == []
    ensures var old_, entries := Parse(file, true, hint).entries, Parse(text, requireMigration, hint).entries;
      Appended(Parse(file + Printed(entries, hint), requireMigration, hint), old_, entries)
  {
    var entries := Parse(text, requireMigration, hint).entries;
    CleanEntries(text, requireMigration, hint);
    var p := Run(SplitLines(file), hint);
    var xs, problems := PrintedAfter(file, entries, hint);
    var q := Run(SplitLines(file + Printed(entries, hint)), hint);
    AppendedFrom(p, q, xs, problems, entries, requireMigration);
  }

  ghost predicate Appended(again: Parsed, old_: seq<Entry>, entries: seq<Entry>) {
    && |again.entries| == |old_| + |entries| && again.entries[..|old_|] == old_
    && SameEntries(again.entries[|old_|..], entries) && OnlyLongNotes(again.problems, entries)
  }

  lemma AppendedFrom(p: Parser, q: Parser, xs: seq<Entry>, problems: seq<Problem>, entries: seq<Entry>,
                     requireMigration: bool)
    requires Extended(p, q, xs, problems) && SameEntries(xs, entries) && OnlyLongNotes(problems, entries)
    requires p.problems == [] && MigrationProblems(p.entries) == [] && BudgetProblems(p.entries) == []
    requires requireMigration ==> MigrationProblems(entries) == [] && BudgetProblems(entries) == []
    ensures Appended(Parsed(q.entries, q.problems + if requireMigration then Finish(q) else []), p.entries, entries)
  {
    ReadAgain(p, q, xs, problems, entries, requireMigration);
    SplitsBack(p.entries, xs);
  }

  lemma SplitsBack(a: seq<Entry>, b: seq<Entry>)
    ensures (a + b)[..|a|] == a && (a + b)[|a|..] == b
  {
  }

  lemma EmptyFile(hint: string -> bool)
    ensures Parse("", true, hint) == Parsed([], [])
  {
    assert SplitLines("") == [];
  }

  /** Parsing what was printed from a clean parse gives the same entries up to
      line numbers. It is clean too exactly when every joined migration note
      still fits on a line, and otherwise complains of nothing else. */
  lemma RoundTrip(text: string, requireMigration: bool, hint: string -> bool)
    requires Parse(text, requireMigration, hint).problems == []
    ensures var entries := Parse(text, requireMigration, hint).entries;
      var again := Parse(Printed(entries, hint), requireMigration, hint);
      SameEntries(again.entries, entries) && OnlyLongNotes(again.problems, entries)
  {
    var entries := Parse(text, requireMigration, hint).entries;
    EmptyFile(hint);
    AppendRoundTrip("", text, requireMigration, hint);
    assert "" + Printed(entries, hint) == Printed(entries, hint);
    AppendedToNothing(Parse(Printed(entries, hint), requireMigration, hint), entries);
  }

  lemma AppendedToNothing(again: Parsed, entries: seq<Entry>)
    requires Appended(again, [], entries)
    ensures SameEntries(again.entries, entries) && OnlyLongNotes(again.problems, entries)
  {
    assert again.entries[0..] == again.entries;
  }

  /** The round trip can fail: under any entry line, two notes that each fit on a
      line may be joined into one that does not. */
  lemma JoinedNotesOverflow(lines: seq<string>, e: Entry, first: string, second: string, hint: string -> bool)
    requires GoodHead(e) && Plain(first) && TooLong(first) == [] && GoodNote(second)
    requires |first| + |second| + 1 > DETAIL_LINE_MAX
    requires |lines| == 3 && lines[0] == WriteEntryLine(e, hint)
    requires lines[1] == WriteMigration(first) && lines[2] == "  " + second
    ensures Overflows(Run(lines, hint))
  {
    var states, step := RunTrace([], lines, hint);
    assert [] + lines == lines;
    PrintedEntryLine(step, e, hint);
    PrintedMigration(step, first, hint);
    PrintedNote(step, second, hint);
    ThreeLines(states, lines, step, e, first, second);
  }

  /** Nothing is wrong with the text, yet the only entry's note cannot be printed on one line. */
  predicate Overflows(p: Parser) {
    p.problems == [] && p.pending.None? && |p.entries| == 1 && !NoteFits(p.entries[0])
  }

  lemma ThreeLines(states: seq<Parser>, lines: seq<string>, step: Stepper, e: Entry, first: string, second: string)
    requires TooLong(first) == [] && |first| + |second| + 1 > DETAIL_LINE_MAX
    requires |lines| == 3 && Trace(states, lines, step) && states[0] == START
    requires BeginsEntry(step, lines[0], e) && SetsMigration(step, lines[1], first)
    requires ContinuesMigration(step, lines[2], second)
    ensures Overflows(states[3])
  {
    assert Moves(states, lines, step, 0) && Moves(states, lines, step, 1) && Moves(states, lines, step, 2);
  }
}
