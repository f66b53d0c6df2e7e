/** How the parser takes each kind of line that `render_entry` prints. */
module ChangelogLines {
  import opened Wrappers
  import opened Text
  import opened TextLines
  import opened EntryGrammar
  import opened ChangelogParser
  import opened ChangelogSound

  lemma PaddedLine(text: string)
    requires Plain(text)
    ensures var raw := "  " + text; Strip(raw) == text && IsSpace(raw[0]) && raw[0] != '#' && OneLine(raw)
  {
    assert "  " + text == "  " + text + "";
    StripPadded("  ", text, "");
    PartsOneLine("  ", text);
  }

  lemma ReviewLineRead(p: Parser, number: nat, reason: string, hint: string -> bool)
    requires GoodReason(reason) && p.pending.None?
    ensures Step(p, number, WriteReview(reason), hint) == p.(pending := Some((number, reason)))
  {
    var raw := WriteReview(reason);
    WrittenReviewPlain(reason);
    StripStripped(raw);
    ReviewRoundTrip(reason);
    assert Report(p, number, []) == p;
  }

  lemma NoteRead(p: Parser, number: nat, note: string, hint: string -> bool)
    requires GoodNote(note) && p.entries != [] && !p.continuing
    ensures var last := p.entries[|p.entries| - 1];
      Step(p, number, "  " + note, hint) == Amend(p, last.(detail := last.detail + [note]))
  {
    PaddedLine(note);
    assert Report(p, number, []) == p;
  }

  function TooLong(note: string): seq<Fault> {
    if note != "" && |MIGRATION| + 1 + |note| > DETAIL_LINE_MAX then [DetailTooLong] else []
  }

  lemma MigrationPlain(note: string)
    requires Plain(note)
    ensures Plain(MIGRATION + " " + note) && OneLine(WriteMigration(note))
  {
    var text := MIGRATION + " " + note;
    assert OneLine(MIGRATION + " ");
    PartsOneLine(MIGRATION + " ", note);
    assert text[0] == 'm' && text[|text| - 1] == note[|note| - 1];
    PartsOneLine("  ", text);
  }

  lemma MigrationLineRead(p: Parser, number: nat, note: string, hint: string -> bool)
    requires Plain(note) && p.entries != [] && p.entries[|p.entries| - 1].migration == ""
    ensures var last := p.entries[|p.entries| - 1];
      Step(p, number, WriteMigration(note), hint)
      == Amend(Report(p, number, TooLong(note)), last.(migration := note)).(continuing := true)
  {
    var text := MIGRATION + " " + note;
    MigrationPlain(note);
    PaddedLine(text);
    MigrationRead(note);
    JoinedNote("", note);
  }

  lemma SymbolRead(s: Section)
    ensures IsKind(SymbolOf(s)) && SectionOf(SymbolOf(s)) == Some(s)
    ensures OneLine(SymbolOf(s)) && !IsSpace(SymbolOf(s)[0]) && SymbolOf(s)[0] != '#' && SymbolOf(s)[0] != '<'
  {
    assert Lower("deprecated") == "deprecated";
    assert Lower("security") == "security";
  }

  function Captured(e: Entry, hint: string -> bool): EntryLine {
    EntryLine(SymbolOf(e.section), MarkerOf(e, hint), if e.areas != [] then Some(Join(e.areas, "/")) else None, e.prose)
  }

  lemma TailWritten(e: Entry)
    requires GoodHead(e)
    ensures TailMatches(WriteTail(e), if e.areas != [] then Some(Join(e.areas, "/")) else None, e.prose, " ", " ")
    ensures OneLine(WriteTail(e))
    ensures e.areas == [] ==> ReadAreaGroup(WriteTail(e)).None?
  {
    PartsOneLine(" ", e.prose);
    if e.areas != [] {
      JoinedPlain(e.areas);
      var list := Join(e.areas, "/");
      PartsOneLine("[" + list + "]", " " + e.prose);
      PartsOneLine(" ", Bracketed(list, " " + e.prose));
    } else {
      StripLeftSkips(" ", e.prose);
    }
  }

  /** The printed entry line is matched as it was meant. */
  lemma EntryLineMatched(e: Entry, hint: string -> bool)
    requires GoodHead(e)
    ensures MatchEntryLine(WriteEntryLine(e, hint)) == Some(Captured(e, hint))
  {
    var raw, x, tail := WriteEntryLine(e, hint), Captured(e, hint), WriteTail(e);
    SymbolRead(e.section);
    TailWritten(e);
    MatchComplete(raw, x, tail, " ", " ");
    TailStart(tail, x.areas, x.prose, " ", " ");
    HeadRead(raw, x.kind, x.marker, tail);
  }

  /** The entry as its first line alone gives it. */
  function Opened(e: Entry, number: nat, pending: Option<(nat, string)>): Entry {
    Entry(e.section, e.breaking, e.areas, e.prose, [], "", ReviewText(pending), ReviewLine(pending), number)
  }

  lemma EntryRead(e: Entry, number: nat, pending: Option<(nat, string)>, hint: string -> bool)
    requires GoodHead(e)
    ensures ReadEntry(WriteEntryLine(e, hint), number, pending, hint)
      == LineResult(Some(Opened(e, number, pending)), [])
  {
    EntryLineMatched(e, hint);
    SymbolRead(e.section);
    StripStripped(e.prose);
    AreasReassembled(e, number, pending);
    CapturedRead(WriteEntryLine(e, hint), Captured(e, hint), e, number, pending, hint);
  }

  lemma CapturedRead(raw: string, x: EntryLine, e: Entry, number: nat, pending: Option<(nat, string)>,
                     hint: string -> bool)
    requires MatchEntryLine(raw) == Some(x) && SectionOf(x.kind) == Some(e.section) && Strip(x.prose) == e.prose
    requires x.marker == MarkerOf(e, hint) && e.prose != "" && e.prose[0] != '['
    ensures ReadEntry(raw, number, pending, hint) == Assembled(e.section, e.breaking, x.areas, e.prose, number, pending)
  {
  }

  lemma AreasReassembled(e: Entry, number: nat, pending: Option<(nat, string)>)
    requires GoodHead(e)
    ensures Assembled(e.section, e.breaking, if e.areas != [] then Some(Join(e.areas, "/")) else None,
                      e.prose, number, pending)
      == LineResult(Some(Opened(e, number, pending)), [])
  {
    if e.areas != [] {
      AreasRoundTrip(e.areas);
    }
    assert SummaryLine(Opened(e, number, pending)) == SummaryLine(e);
  }

  lemma EntryLineShape(e: Entry, hint: string -> bool)
    requires GoodHead(e)
    ensures var raw := WriteEntryLine(e, hint);
      raw != "" && OneLine(raw) && !IsSpace(raw[0]) && raw[0] != '#' && Strip(raw) != "" && ReadReview(Strip(raw)).None?
  {
    var raw := WriteEntryLine(e, hint);
    var symbol, tail := SymbolOf(e.section), WriteTail(e);
    SymbolRead(e.section);
    TailWritten(e);
    PartsOneLine(symbol, MarkerText(MarkerOf(e, hint)));
    PartsOneLine(symbol + MarkerText(MarkerOf(e, hint)), tail);
    assert raw[0] == symbol[0];
    StripKeeps(raw);
    StripStart(raw);
    NotAReview(Strip(raw));
  }

  lemma NotAReview(text: string)
    requires text != "" && text[0] != '<'
    ensures ReadReview(text).None?
  {
  }

  lemma StripStart(s: string)
    requires s != "" && !IsSpace(s[0])
    ensures Strip(s) != "" && Strip(s)[0] == s[0]
  {
    StripKeeps(s);
    assert "" + s == s;
    StripLeftSkips("", s);
    var gap := RightCut(s);
    FirstKept(Strip(s), gap);
  }

  // ----- lines by what they do -----

  type Stepper = (Parser, nat, string) -> Parser

  /** The parser's step as a function of the state, the line number and the line. */
  ghost predicate StepsWith(step: Stepper, hint: string -> bool) {
    forall p: Parser, n: nat, line: string {:trigger step(p, n, line)} :: step(p, n, line) == Step(p, n, line, hint)
  }

  ghost predicate OpensReview(step: Stepper, line: string, reason: string) {
    forall p: Parser, n: nat {:trigger step(p, n, line)} :: p.pending.None? ==>
      step(p, n, line) == p.(pending := Some((n, reason)))
  }

  ghost predicate BeginsEntry(step: Stepper, line: string, e: Entry) {
    forall p: Parser, n: nat {:trigger step(p, n, line)} ::
      step(p, n, line) == Parser(p.entries + [Opened(e, n, p.pending)], p.problems, false, None)
  }

  function Last(p: Parser): Entry
    requires p.entries != []
  {
    p.entries[|p.entries| - 1]
  }

  ghost predicate AddsNote(step: Stepper, line: string, note: string) {
    forall p: Parser, n: nat {:trigger step(p, n, line)} :: p.entries != [] && !p.continuing ==>
      step(p, n, line) == Amend(p, Last(p).(detail := Last(p).detail + [note]))
  }

  ghost predicate SetsMigration(step: Stepper, line: string, note: string) {
    forall p: Parser, n: nat {:trigger step(p, n, line)} :: p.entries != [] && Last(p).migration == "" ==>
      step(p, n, line) == Amend(Report(p, n, TooLong(note)), Last(p).(migration := note)).(continuing := true)
  }

  ghost predicate ContinuesMigration(step: Stepper, line: string, note: string) {
    forall p: Parser, n: nat {:trigger step(p, n, line)} :: p.entries != [] && p.continuing ==>
      step(p, n, line) == Amend(p, Last(p).(migration := Last(p).migration + " " + note))
  }

  lemma PrintedReview(step: Stepper, reason: string, hint: string -> bool)
    requires StepsWith(step, hint) && GoodReason(reason)
    ensures OpensReview(step, WriteReview(reason), reason)
  {
    forall p: Parser, n: nat | p.pending.None?
      ensures step(p, n, WriteReview(reason)) == p.(pending := Some((n, reason)))
    {
      ReviewLineRead(p, n, reason, hint);
    }
  }

  lemma PrintedEntryLine(step: Stepper, e: Entry, hint: string -> bool)
    requires StepsWith(step, hint) && GoodHead(e)
    ensures BeginsEntry(step, WriteEntryLine(e, hint), e)
  {
    EntryLineShape(e, hint);
    forall p: Parser, n: nat
      ensures step(p, n, WriteEntryLine(e, hint))
        == Parser(p.entries + [Opened(e, n, p.pending)], p.problems, false, None)
    {
      EntryRead(e, n, p.pending, hint);
      EntryStep(p, n, WriteEntryLine(e, hint), Opened(e, n, p.pending), hint);
    }
  }

  lemma EntryStep(p: Parser, number: nat, raw: string, e: Entry, hint: string -> bool)
    requires raw != "" && !IsSpace(raw[0]) && raw[0] != '#' && Strip(raw) != "" && ReadReview(Strip(raw)).None?
    requires ReadEntry(raw, number, p.pending, hint) == LineResult(Some(e), [])
    ensures Step(p, number, raw, hint) == Parser(p.entries + [e], p.problems, false, None)
  {
    assert Report(p, number, []) == p;
    assert Step(p, number, raw, hint) == Begin(p, number, raw, hint);
  }

  lemma PrintedNote(step: Stepper, note: string, hint: string -> bool)
    requires StepsWith(step, hint) && GoodNote(note)
    ensures AddsNote(step, "  " + note, note)
    ensures ContinuesMigration(step, "  " + note, note)
  {
    var line := "  " + note;
    forall p: Parser, n: nat | p.entries != [] && !p.continuing
      ensures step(p, n, line) == Amend(p, Last(p).(detail := Last(p).detail + [note]))
    {
      NoteRead(p, n, note, hint);
    }
    forall p: Parser, n: nat | p.entries != [] && p.continuing
      ensures step(p, n, line) == Amend(p, Last(p).(migration := Last(p).migration + " " + note))
    {
      NoteContinues(p, n, note, hint);
    }
  }

  lemma NoteContinues(p: Parser, number: nat, note: string, hint: string -> bool)
    requires GoodNote(note) && p.entries != [] && p.continuing
    ensures Step(p, number, "  " + note, hint) == Amend(p, Last(p).(migration := Last(p).migration + " " + note))
  {
    PaddedLine(note);
    assert Report(p, number, []) == p;
  }

  lemma PrintedMigration(step: Stepper, note: string, hint: string -> bool)
    requires StepsWith(step, hint) && Plain(note)
    ensures SetsMigration(step, WriteMigration(note), note)
  {
    forall p: Parser, n: nat | p.entries != [] && Last(p).migration == ""
      ensures step(p, n, WriteMigration(note))
        == Amend(Report(p, n, TooLong(note)), Last(p).(migration := note)).(continuing := true)
    {
      MigrationLineRead(p, n, note, hint);
    }
  }

  // ----- a printed entry -----

  /** The lines of a block do what the parts of the entry call for. */
  ghost predicate WritesEntry(step: Stepper, b: Block, e: Entry) {
    && b.review.Some? == (e.reviewLine > 0) && (b.review.Some? ==> OpensReview(step, b.review.value, e.review))
    && BeginsEntry(step, b.line, e)
    && |b.notes| == |e.detail|
    && (forall k {:trigger b.notes[k]} :: 0 <= k < |b.notes| ==> AddsNote(step, b.notes[k], e.detail[k]))
    && b.migration.Some? == (e.migration != "")
    && (b.migration.Some? ==> SetsMigration(step, b.migration.value, e.migration))
  }

  lemma PrintedWrites(step: Stepper, e: Entry, hint: string -> bool)
    requires StepsWith(step, hint) && WellFormed(e)
    ensures WritesEntry(step, BlockOf(e, hint), e)
  {
    if e.reviewLine > 0 { PrintedReview(step, e.review, hint); }
    PrintedEntryLine(step, e, hint);
    NotesWritten(step, e.detail, hint);
    if e.migration != "" { PrintedMigration(step, e.migration, hint); }
  }

  lemma NotesWritten(step: Stepper, notes: seq<string>, hint: string -> bool)
    requires StepsWith(step, hint) && GoodNotes(notes)
    ensures var lines := WriteNotes(notes);
      forall k {:trigger lines[k]} :: 0 <= k < |lines| ==> AddsNote(step, lines[k], notes[k])
  {
    var lines := WriteNotes(notes);
    forall k | 0 <= k < |lines| ensures AddsNote(step, lines[k], notes[k]) {
      PrintedNote(step, notes[k], hint);
    }
  }

  // ----- printed lines are single lines -----

  ghost predicate BlockOneLine(b: Block) {
    && (b.review.Some? ==> OneLine(b.review.value)) && OneLine(b.line) && AllOneLine(b.notes)
    && (b.migration.Some? ==> OneLine(b.migration.value))
  }

  lemma PrintedOneLine(e: Entry, hint: string -> bool)
    requires WellFormed(e)
    ensures BlockOneLine(BlockOf(e, hint))
  {
    EntryLineShape(e, hint);
    if e.reviewLine > 0 { WrittenReviewPlain(e.review); }
    if e.migration != "" { MigrationPlain(e.migration); }
    NotesOneLine(e.detail);
  }

  lemma NotesOneLine(notes: seq<string>)
    requires GoodNotes(notes)
    ensures AllOneLine(WriteNotes(notes))
  {
    forall k | 0 <= k < |notes| ensures OneLine(WriteNotes(notes)[k]) {
      assert GoodNote(notes[k]);
      PartsOneLine("  ", notes[k]);
    }
  }

  lemma LinesJoin(a: seq<string>, b: seq<string>)
    requires AllOneLine(a) && AllOneLine(b)
    ensures AllOneLine(a + b)
  {
  }

  lemma LayoutOneLine(b: Block)
    requires BlockOneLine(b)
    ensures AllOneLine(Layout(b))
  {
    LinesJoin(IfSome(b.review), [b.line]);
    LinesJoin(b.notes, IfSome(b.migration));
    LinesJoin(IfSome(b.review) + [b.line], b.notes + IfSome(b.migration));
  }

  lemma {:induction false} FlatOneLine(blocks: seq<Block>)
    requires forall k {:trigger blocks[k]} :: 0 <= k < |blocks| ==> BlockOneLine(blocks[k])
    ensures AllOneLine(Flat(blocks))
  {
    if blocks != [] {
      FlatOneLine(blocks[..|blocks| - 1]);
      LayoutOneLine(blocks[|blocks| - 1]);
      LinesJoin(Flat(blocks[..|blocks| - 1]), Layout(blocks[|blocks| - 1]));
    }
  }
}
