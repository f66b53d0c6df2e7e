/** What a parse that reports nothing produces. */
module ChangelogSound {
  import opened Wrappers
  import opened Text
  import opened TextLines
  import opened EntryGrammar
  import opened ChangelogParser

  // ----- what a clean parse produces -----

  predicate Plain(s: string) { s != "" && Stripped(s) && OneLine(s) }

  predicate GoodReason(reason: string) { Stripped(reason) && OneLine(reason) && |reason| >= DETAIL_REVIEW_MIN }

  predicate GoodNote(note: string) {
    Plain(note) && |note| <= DETAIL_LINE_MAX && ReadReview(note).None? && !IsMigration(note)
  }

  ghost predicate GoodNotes(notes: seq<string>) {
    forall k {:trigger notes[k]} :: 0 <= k < |notes| ==> GoodNote(notes[k])
  }

  /** The first line of an entry. */
  ghost predicate GoodHead(e: Entry) {
    Plain(e.prose) && e.prose[0] != '[' && GoodAreas(e.areas) && |SummaryLine(e)| <= SUMMARY_MAX
  }

  ghost predicate GoodReview(e: Entry) { if e.reviewLine > 0 then GoodReason(e.review) else e.review == "" }

  ghost predicate WellFormed(e: Entry) {
    GoodHead(e) && GoodReview(e) && GoodNotes(e.detail) && (e.migration == "" || Plain(e.migration))
  }

  ghost predicate AllWellFormed(entries: seq<Entry>) {
    forall k {:trigger entries[k]} :: 0 <= k < |entries| ==> WellFormed(entries[k])
  }

  ghost predicate GoodPending(pending: Option<(nat, string)>) {
    pending.Some? ==> pending.value.0 > 0 && GoodReason(pending.value.1)
  }

  /** What holds of the parser as long as nothing was reported. */
  ghost predicate Sound(p: Parser) {
    && AllWellFormed(p.entries) && GoodPending(p.pending)
    && (p.continuing ==> p.entries != [] && p.entries[|p.entries| - 1].migration != "")
  }

  lemma ReadEntrySound(raw: string, number: nat, review: Option<(nat, string)>, hint: string -> bool)
    requires OneLine(raw) && GoodPending(review)
    requires ReadEntry(raw, number, review, hint).faults == []
    ensures var r := ReadEntry(raw, number, review, hint); r.entry.Some? && WellFormed(r.entry.value)
  {
    var x := MatchEntryLine(raw).value;
    ProsePlain(raw);
    AssembledSound(SectionOf(x.kind).value, BreakingOf(x.marker, SectionOf(x.kind).value), x.areas, Strip(x.prose),
        number, review);
  }

  lemma ProsePlain(raw: string)
    requires OneLine(raw) && MatchEntryLine(raw).Some?
    ensures Plain(Strip(MatchEntryLine(raw).value.prose))
  {
    var x := MatchEntryLine(raw).value;
    var tail, gap, space := MatchSound(raw);
    PartsOneLine(x.kind + MarkerText(x.marker), tail);
    TailProse(tail, x.areas, x.prose, gap, space);
    StripGives(x.prose);
    StripKeeps(x.prose);
  }

  lemma TailProse(s: string, areas: Option<string>, prose: string, gap: string, space: string)
    requires TailMatches(s, areas, prose, gap, space) && OneLine(s)
    ensures OneLine(prose)
  {
    PartsOneLine(space, prose);
    if areas.Some? {
      PartsOneLine(gap, Bracketed(areas.value, space + prose));
      PartsOneLine("[" + areas.value + "]", space + prose);
    }
  }

  lemma StripKeeps(s: string)
    requires s != "" && !IsSpace(s[0])
    ensures Strip(s) != ""
  {
    assert "" + s == s;
    StripLeftSkips("", s);
    var gap := RightCut(s);
  }

  lemma AssembledSound(section: Section, breaking: bool, areas: Option<string>, prose: string,
                       number: nat, review: Option<(nat, string)>)
    requires Plain(prose) && prose[0] != '[' && GoodPending(review)
    requires Assembled(section, breaking, areas, prose, number, review).faults == []
    ensures WellFormed(Assembled(section, breaking, areas, prose, number, review).entry.value)
  {
    if areas.Some? {
      AreasAreGood(Split(areas.value, '/'));
    }
  }

  lemma AppendWellFormed(entries: seq<Entry>, e: Entry)
    requires AllWellFormed(entries) && WellFormed(e)
    ensures AllWellFormed(entries + [e])
  {
  }

  lemma AmendSound(p: Parser, e: Entry)
    requires p.entries != [] && AllWellFormed(p.entries) && WellFormed(e)
    ensures AllWellFormed(Amend(p, e).entries)
  {
  }

  lemma ContinueSound(p: Parser, number: nat, text: string)
    requires Plain(text) && ReadReview(text).None?
    requires Sound(p) && Continue(p, number, text).problems == []
    ensures Sound(Continue(p, number, text))
  {
    assert p.entries != [] && |text| <= DETAIL_LINE_MAX;
    assert Report(p, number, []) == p;
    if IsMigration(text) {
      MigrationSound(p, number, text);
    } else if p.continuing {
      var last := p.entries[|p.entries| - 1];
      JoinedLine(last.migration, text);
      AmendSound(p, last.(migration := last.migration + " " + text));
    } else {
      var last := p.entries[|p.entries| - 1];
      AmendSound(p, last.(detail := last.detail + [text]));
    }
  }

  lemma MigrationSound(p: Parser, number: nat, text: string)
    requires Plain(text) && IsMigration(text) && |text| <= DETAIL_LINE_MAX && p.entries != []
    requires Sound(p) && Continue(p, number, text).problems == []
    ensures Sound(Continue(p, number, text))
  {
    var last := p.entries[|p.entries| - 1];
    var rest := text[|MIGRATION|..];
    assert Report(p, number, []) == p;
    assert OneLine(rest);
    StripGives(rest);
    assert Strip(rest) != "";
    JoinedNote(last.migration, Strip(rest));
    AmendSound(p, last.(migration := Strip(last.migration + " " + Strip(rest))));
  }

  lemma JoinedLine(note: string, text: string)
    requires Plain(note) && Plain(text)
    ensures Plain(note + " " + text)
  {
    PartsOneLine(note, " ");
    PartsOneLine(note + " ", text);
  }

  lemma JoinedNote(migration: string, note: string)
    requires (migration == "" || Plain(migration)) && Plain(note)
    ensures Plain(Strip(migration + " " + note))
    ensures migration == "" ==> Strip(migration + " " + note) == note
    ensures migration != "" ==> Strip(migration + " " + note) == migration + " " + note
  {
    if migration == "" {
      assert migration + " " + note == " " + note + "";
      StripPadded(" ", note, "");
    } else {
      JoinedLine(migration, note);
      StripStripped(migration + " " + note);
    }
  }

  lemma StepSound(p: Parser, number: nat, raw: string, hint: string -> bool)
    requires OneLine(raw) && number > 0 && Sound(p) && Step(p, number, raw, hint).problems == []
    ensures Sound(Step(p, number, raw, hint))
  {
    var text := Strip(raw);
    StripGives(raw);
    if text != "" && raw[0] != '#' {
      match ReadReview(text)
      case Some(reason) =>
        ReadReviewPlain(text);
        if !IsSpace(raw[0]) { OpenSound(p, number, reason); }
      case None =>
        if IsSpace(raw[0]) {
          ContinueSound(p, number, text);
        } else {
          BeginSound(p, number, raw, hint);
        }
    }
  }

  lemma OpenSound(p: Parser, number: nat, reason: string)
    requires number > 0 && Sound(p) && Stripped(reason) && OneLine(reason)
      && OpenReview(p, number, reason).problems == []
    ensures Sound(OpenReview(p, number, reason))
  {
  }

  lemma BeginSound(p: Parser, number: nat, raw: string, hint: string -> bool)
    requires OneLine(raw) && number > 0 && Sound(p) && Begin(p, number, raw, hint).problems == []
    ensures Sound(Begin(p, number, raw, hint))
  {
    assert |At(number, ReadEntry(raw, number, p.pending, hint).faults)| == 0;
    ReadEntrySound(raw, number, p.pending, hint);
    AppendWellFormed(p.entries, ReadEntry(raw, number, p.pending, hint).entry.value);
  }

  lemma StepKeepsProblems(p: Parser, number: nat, raw: string, hint: string -> bool)
    ensures p.problems <= Step(p, number, raw, hint).problems
  {
  }

  lemma {:induction false} RunSound(lines: seq<string>, hint: string -> bool)
    requires AllOneLine(lines) && Run(lines, hint).problems == []
    ensures Sound(Run(lines, hint))
  {
    if lines != [] {
      var init, last := lines[..|lines| - 1], lines[|lines| - 1];
      StepKeepsProblems(Run(init, hint), |lines|, last, hint);
      RunSound(init, hint);
      StepSound(Run(init, hint), |lines|, last, hint);
    }
  }
}
