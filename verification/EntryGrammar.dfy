/** The grammar of one changelog entry line, its area list and the
    detail-review marker (scripts/changelog.py). */
module EntryGrammar {
  import opened Wrappers
  import opened Text
  import opened TextLines

  datatype Section = Added | Changed | Fixed | Removed | Deprecated | Security

  datatype Marker = Unmarked | Breaking | Compatible

  /** What ENTRY_LINE captures. */
  datatype EntryLine = EntryLine(kind: string, marker: Marker, areas: Option<string>, prose: string)

  // ----- prefixes and suffixes -----

  function AfterPrefix(s: string, prefix: string): (r: Option<string>)
    ensures r.Some? ==> s == prefix + r.value
  {
    if |prefix| <= |s| && s[..|prefix|] == prefix then Some(s[|prefix|..]) else None
  }

  function BeforeSuffix(s: string, suffix: string): (r: Option<string>)
    ensures r.Some? ==> s == r.value + suffix
  {
    if |suffix| <= |s| && s[|s| - |suffix|..] == suffix then Some(s[..|s| - |suffix|]) else None
  }

  lemma PrefixRead(prefix: string, s: string)
    ensures AfterPrefix(prefix + s, prefix) == Some(s)
  {
    assert (prefix + s)[..|prefix|] == prefix;
  }

  lemma SuffixRead(s: string, suffix: string)
    ensures BeforeSuffix(s + suffix, suffix) == Some(s)
  {
    assert (s + suffix)[|s|..] == suffix;
  }

  // ----- letters -----

  predicate IsLetter(c: char) { 'a' <= c <= 'z' || 'A' <= c <= 'Z' }

  function LowerChar(c: char): char { if 'A' <= c <= 'Z' then c - 'A' + 'a' else c }

  /** `str.lower` on the letters that can matter to a prefix or keyword of plain letters. */
  function Lower(s: string): (t: string)
    ensures |t| == |s|
  {
    seq(|s|, k requires 0 <= k < |s| => LowerChar(s[k]))
  }

  predicate Letters(s: string) { forall k :: 0 <= k < |s| ==> IsLetter(s[k]) }

  function LetterRun(s: string): (n: nat)
    ensures n <= |s| && Letters(s[..n])
    ensures n < |s| ==> !IsLetter(s[n])
  {
    if s == "" || !IsLetter(s[0]) then 0
    else
      var n := LetterRun(s[1..]);
      assert s[..n + 1] == [s[0]] + s[1..][..n];
      n + 1
  }

  lemma {:induction false} LetterRunOf(word: string, rest: string)
    requires Letters(word) && (rest == "" || !IsLetter(rest[0]))
    ensures LetterRun(word + rest) == |word|
  {
    if word == "" {
      assert word + rest == rest;
    } else {
      assert (word + rest)[1..] == word[1..] + rest;
      LetterRunOf(word[1..], rest);
    }
  }

  // ----- the entry line -----

  predicate IsSymbol(c: char) { c == '+' || c == '-' || c == '~' || c == '*' }

  predicate IsKind(kind: string) {
    kind != "" && ((|kind| == 1 && IsSymbol(kind[0])) || Letters(kind))
  }

  function MarkerText(m: Marker): string {
    match m
    case Unmarked => ""
    case Breaking => "!"
    case Compatible => "."
  }

  function KindLength(raw: string): (n: nat)
    ensures n <= |raw|
  {
    if raw != "" && IsSymbol(raw[0]) then 1 else LetterRun(raw)
  }

  function ReadMarker(s: string): (m: Marker)
    ensures |MarkerText(m)| <= |s|
  {
    if s != "" && s[0] == '!' then Breaking else if s != "" && s[0] == '.' then Compatible else Unmarked
  }

  /** White space, then a bracketed list: the list and what follows it. */
  function ReadAreaGroup(s: string): Option<(string, string)> {
    var t := StripLeft(s);
    if t == "" || t[0] != '[' then None
    else
      var i := IndexOf(t, ']');
      if i < 1 then None else Some((t[1..i], t[i + 1..]))
  }

  /** At least one white space character, then text. */
  function ReadProse(s: string): Option<string> {
    var t := StripLeft(s);
    if t == "" || |t| == |s| then None else Some(t)
  }

  /** `ENTRY_LINE.match`: the area group is tried first and given up when no
      prose can follow it. */
  function MatchEntryLine(raw: string): Option<EntryLine> {
    var n := KindLength(raw);
    if n == 0 then None
    else
      var m := ReadMarker(raw[n..]);
      var rest := raw[n + |MarkerText(m)|..];
      var scoped := ReadScoped(rest);
      if scoped.Some? then Some(EntryLine(raw[..n], m, Some(scoped.value.0), scoped.value.1))
      else
        var plain := ReadProse(rest);
        if plain.Some? then Some(EntryLine(raw[..n], m, None, plain.value)) else None
  }

  function ReadScoped(s: string): Option<(string, string)> {
    var group := ReadAreaGroup(s);
    if group.None? then None
    else
      var prose := ReadProse(group.value.1);
      if prose.None? then None else Some((group.value.0, prose.value))
  }

  function Bracketed(list: string, after: string): string { "[" + list + "]" + after }

  /** What the pattern's tail accepts, with the white space it skipped. */
  ghost predicate TailMatches(s: string, areas: Option<string>, prose: string, gap: string, space: string) {
    && Blank(gap) && Blank(space) && space != "" && prose != "" && !IsSpace(prose[0])
    && match areas
       case None => s == space + prose
       case Some(list) => ']' !in list && s == gap + Bracketed(list, space + prose)
  }

  /** `raw` is a match of the pattern capturing `x`. */
  ghost predicate LineMatches(raw: string, x: EntryLine, tail: string, gap: string, space: string) {
    IsKind(x.kind) && raw == x.kind + MarkerText(x.marker) + tail && TailMatches(tail, x.areas, x.prose, gap, space)
  }

  lemma SpaceFacts(c: char)
    ensures IsSpace(c) ==> !IsLetter(c) && c != '!' && c != '.' && c != '[' && c != ']'
  {
  }

  lemma TailStart(s: string, areas: Option<string>, prose: string, gap: string, space: string)
    requires TailMatches(s, areas, prose, gap, space)
    ensures s != "" && !IsLetter(s[0]) && s[0] != '!' && s[0] != '.'
  {
    SpaceFacts(s[0]);
  }

  lemma BracketsRead(list: string, after: string)
    requires ']' !in list
    ensures var t := Bracketed(list, after);
      t != "" && t[0] == '[' && IndexOf(t, ']') == |list| + 1 && t[1..|list| + 1] == list && t[|list| + 2..] == after
  {
    IndexOfFirst("[" + list, ']', after);
    assert "[" + list + [']'] + after == Bracketed(list, after);
  }

  lemma GroupRead(gap: string, list: string, after: string)
    requires Blank(gap) && ']' !in list
    ensures ReadAreaGroup(gap + Bracketed(list, after)) == Some((list, after))
  {
    BracketsRead(list, after);
    SpaceFacts('[');
    StripLeftSkips(gap, Bracketed(list, after));
  }

  lemma ProseRead(space: string, prose: string)
    requires Blank(space) && space != "" && prose != "" && !IsSpace(prose[0])
    ensures ReadProse(space + prose) == Some(prose)
  {
    StripLeftSkips(space, prose);
  }

  lemma {:induction false} IndexOfFirst(head: string, c: char, rest: string)
    requires c !in head
    ensures IndexOf(head + [c] + rest, c) == |head|
  {
    if head != "" {
      assert head == [head[0]] + head[1..];
      assert (head + [c] + rest)[1..] == head[1..] + [c] + rest;
      IndexOfFirst(head[1..], c, rest);
    }
  }

  lemma TailRead(s: string, areas: Option<string>, prose: string, gap: string, space: string)
    requires TailMatches(s, areas, prose, gap, space)
    ensures areas.Some? ==> ReadScoped(s) == Some((areas.value, prose))
    ensures areas.None? ==> ReadProse(s) == Some(prose)
  {
    ProseRead(space, prose);
    match areas
    case Some(list) => GroupRead(gap, list, space + prose);
    case None =>
  }

  lemma HeadRead(raw: string, kind: string, m: Marker, tail: string)
    requires IsKind(kind) && raw == kind + MarkerText(m) + tail
    requires tail != "" && !IsLetter(tail[0]) && tail[0] != '!' && tail[0] != '.'
    ensures KindLength(raw) == |kind| > 0 && raw[..|kind|] == kind
    ensures ReadMarker(raw[|kind|..]) == m
    ensures raw[|kind| + |MarkerText(m)|..] == tail
  {
    var after := MarkerText(m) + tail;
    assert raw == kind + after;
    assert raw[0] == kind[0] && raw[|kind|..] == after;
    if !IsSymbol(kind[0]) {
      LetterRunOf(kind, after);
    }
  }

  /** Every match of the pattern is found: one with an area list is the one
      returned, one without is returned when no other has a list. */
  lemma MatchComplete(raw: string, x: EntryLine, tail: string, gap: string, space: string)
    requires LineMatches(raw, x, tail, gap, space)
    ensures MatchEntryLine(raw).Some?
    ensures x.areas.Some? || MatchEntryLine(raw).value.areas.None? ==> MatchEntryLine(raw).value == x
  {
    TailStart(tail, x.areas, x.prose, gap, space);
    HeadRead(raw, x.kind, x.marker, tail);
    TailRead(tail, x.areas, x.prose, gap, space);
  }

  /** What is returned is a match of the pattern. */
  lemma MatchSound(raw: string) returns (tail: string, gap: string, space: string)
    requires MatchEntryLine(raw).Some?
    ensures LineMatches(raw, MatchEntryLine(raw).value, tail, gap, space)
  {
    var x := MatchEntryLine(raw).value;
    tail := HeadFound(raw);
    gap, space := TailFound(tail, x.areas, x.prose);
  }

  lemma HeadFound(raw: string) returns (tail: string)
    requires KindLength(raw) > 0
    ensures var n := KindLength(raw); var m := ReadMarker(raw[n..]);
      && tail == raw[n + |MarkerText(m)|..] && raw == raw[..n] + MarkerText(m) + tail && IsKind(raw[..n])
  {
    var n := KindLength(raw);
    var m := ReadMarker(raw[n..]);
    tail := raw[n + |MarkerText(m)|..];
    assert raw[..n] + (MarkerText(m) + tail) == raw by {
      assert MarkerText(m) == raw[n..n + |MarkerText(m)|];
    }
  }

  lemma TailFound(s: string, areas: Option<string>, prose: string) returns (gap: string, space: string)
    requires areas.Some? ==> ReadScoped(s) == Some((areas.value, prose))
    requires areas.None? ==> ReadProse(s) == Some(prose)
    ensures TailMatches(s, areas, prose, gap, space)
  {
    match areas
    case None =>
      gap := "";
      space := ProseFound(s);
    case Some(list) =>
      var after := ReadAreaGroup(s).value.1;
      gap := GroupFound(s);
      space := ProseFound(after);
  }

  lemma ProseFound(s: string) returns (space: string)
    requires ReadProse(s).Some?
    ensures Blank(space) && space != "" && s == space + ReadProse(s).value
    ensures var prose := ReadProse(s).value; prose != "" && !IsSpace(prose[0])
  {
    space := LeftCut(s);
  }

  lemma GroupFound(s: string) returns (gap: string)
    requires ReadAreaGroup(s).Some?
    ensures var (list, after) := ReadAreaGroup(s).value;
      Blank(gap) && ']' !in list && s == gap + Bracketed(list, after)
  {
    gap := LeftCut(s);
    BracketsFound(StripLeft(s));
  }

  lemma BracketsFound(t: string)
    requires t != "" && t[0] == '[' && IndexOf(t, ']') >= 1
    ensures var i := IndexOf(t, ']'); ']' !in t[1..i] && t == Bracketed(t[1..i], t[i + 1..])
  {
    var i := IndexOf(t, ']');
    assert t[..i] == [t[0]] + t[1..i];
    assert t == t[..i] + [t[i]] + t[i + 1..];
  }

  // ----- area lists -----

  datatype AreaFault = EmptyArea | NotASlug(slug: string) | RepeatedArea(slug: string)

  predicate SlugStart(c: char) { 'a' <= c <= 'z' || '0' <= c <= '9' }

  /** AREA_SLUG. */
  predicate IsSlug(s: string) {
    s != "" && SlugStart(s[0]) && forall k :: 0 <= k < |s| ==> SlugStart(s[k]) || s[k] == '-'
  }

  datatype AreaList = AreaList(areas: seq<string>, faults: seq<AreaFault>)

  function AddArea(found: AreaList, part: string): AreaList {
    var slug := Strip(part);
    if slug == "" then found.(faults := found.faults + [EmptyArea])
    else if !IsSlug(slug) then found.(faults := found.faults + [NotASlug(slug)])
    else if slug in found.areas then found.(faults := found.faults + [RepeatedArea(slug)])
    else found.(areas := found.areas + [slug])
  }

  function ReadAreas(parts: seq<string>): AreaList {
    if parts == [] then AreaList([], [])
    else AddArea(ReadAreas(parts[..|parts| - 1]), parts[|parts| - 1])
  }

  /** `parse_areas`. */
  method ParseAreas(raw: string, separator: char) returns (areas: seq<string>, faults: seq<AreaFault>)
    ensures AreaList(areas, faults) == ReadAreas(Split(raw, separator))
  {
    areas, faults := [], [];
    var parts := Split(raw, separator);
    for i := 0 to |parts|
      invariant AreaList(areas, faults) == ReadAreas(parts[..i])
    {
      assert parts[..i + 1][..i] == parts[..i];
      var slug := Strip(parts[i]);
      if slug == "" {
        faults := faults + [EmptyArea];
        continue;
      }
      if !IsSlug(slug) {
        faults := faults + [NotASlug(slug)];
        continue;
      }
      if slug in areas {
        faults := faults + [RepeatedArea(slug)];
        continue;
      }
      areas := areas + [slug];
    }
    assert parts[..|parts|] == parts;
  }

  ghost predicate GoodAreas(areas: seq<string>) {
    && (forall k :: 0 <= k < |areas| ==> IsSlug(areas[k]))
    && (forall i, j :: 0 <= i < j < |areas| ==> areas[i] != areas[j])
  }

  /** The areas kept are distinct slugs, and a list without faults is not empty. */
  lemma {:induction false} AreasAreGood(parts: seq<string>)
    ensures GoodAreas(ReadAreas(parts).areas)
    ensures ReadAreas(parts).faults == [] ==> |ReadAreas(parts).areas| == |parts|
  {
    if parts != [] {
      AreasAreGood(parts[..|parts| - 1]);
      AddAreaGood(ReadAreas(parts[..|parts| - 1]), parts[|parts| - 1]);
    }
  }

  lemma AddAreaGood(found: AreaList, part: string)
    requires GoodAreas(found.areas)
    ensures GoodAreas(AddArea(found, part).areas)
    ensures AddArea(found, part).faults == [] ==>
      found.faults == [] && |AddArea(found, part).areas| == |found.areas| + 1
  {
  }

  lemma SlugPlain(s: string)
    requires IsSlug(s)
    ensures Stripped(s) && OneLine(s) && '/' !in s && ']' !in s
  {
  }

  lemma SlugAdded(areas: seq<string>, slug: string)
    requires IsSlug(slug) && slug !in areas
    ensures AddArea(AreaList(areas, []), slug) == AreaList(areas + [slug], [])
  {
    SlugPlain(slug);
    StripStripped(slug);
  }

  /** Distinct slugs are read back as they are. */
  lemma {:induction false} GoodAreasRead(areas: seq<string>)
    requires GoodAreas(areas)
    ensures ReadAreas(areas) == AreaList(areas, [])
  {
    if areas != [] {
      var init, last := areas[..|areas| - 1], areas[|areas| - 1];
      assert areas == init + [last] && last !in init;
      GoodAreasRead(init);
      SlugAdded(init, last);
    }
  }

  /** Writing an area list and reading it back gives the same areas. */
  lemma AreasRoundTrip(areas: seq<string>)
    requires GoodAreas(areas) && areas != []
    ensures ReadAreas(Split(Join(areas, "/"), '/')) == AreaList(areas, [])
  {
    forall k | 0 <= k < |areas| ensures '/' !in areas[k] {
      SlugPlain(areas[k]);
    }
    SplitJoin(areas, '/');
    GoodAreasRead(areas);
  }

  lemma {:induction false} JoinedPlain(areas: seq<string>)
    requires forall k :: 0 <= k < |areas| ==> IsSlug(areas[k])
    ensures ']' !in Join(areas, "/") && OneLine(Join(areas, "/"))
  {
    if |areas| > 1 {
      SlugPlain(areas[0]);
      JoinedPlain(areas[1..]);
    } else if |areas| == 1 {
      SlugPlain(areas[0]);
    }
  }

  // ----- the detail-review marker -----

  const COMMENT_OPEN := "<!--"
  const REVIEW_WORD := "changelog-detail-review:"
  const COMMENT_CLOSE := "-->"

  /** `DETAIL_REVIEW.match` on a stripped line: the stripped reason. */
  function ReadReview(text: string): Option<string> {
    var inner := AfterPrefix(text, COMMENT_OPEN);
    if inner.None? then None
    else
      var reason := AfterPrefix(StripLeft(inner.value), REVIEW_WORD);
      if reason.None? then None
      else
        var body := BeforeSuffix(reason.value, COMMENT_CLOSE);
        if body.None? then None else Some(Strip(body.value))
  }

  function WriteReview(reason: string): string {
    COMMENT_OPEN + " " + REVIEW_WORD + " " + reason + " " + COMMENT_CLOSE
  }

  lemma ReviewRoundTrip(reason: string)
    requires Stripped(reason) && reason != ""
    ensures ReadReview(WriteReview(reason)) == Some(reason)
  {
    var body := " " + reason + " ";
    var inner := REVIEW_WORD + (body + COMMENT_CLOSE);
    WrittenParts(reason);
    PrefixRead(COMMENT_OPEN, " " + inner);
    StripLeftSkips(" ", inner);
    PrefixRead(REVIEW_WORD, body + COMMENT_CLOSE);
    SuffixRead(body, COMMENT_CLOSE);
    StripPadded(" ", reason, " ");
  }

  lemma WrittenParts(reason: string)
    ensures var inner := REVIEW_WORD + ((" " + reason + " ") + COMMENT_CLOSE);
      WriteReview(reason) == COMMENT_OPEN + (" " + inner) && inner[0] == 'c'
  {
  }

  lemma WrittenReviewPlain(reason: string)
    requires OneLine(reason)
    ensures var line := WriteReview(reason); OneLine(line) && Stripped(line) && line[0] == '<'
  {
    assert OneLine(COMMENT_OPEN) && OneLine(REVIEW_WORD) && OneLine(COMMENT_CLOSE);
  }

  lemma ReadReviewPlain(text: string)
    requires OneLine(text) && ReadReview(text).Some?
    ensures Stripped(ReadReview(text).value) && OneLine(ReadReview(text).value)
  {
    var inner := AfterPrefix(text, COMMENT_OPEN).value;
    var stripped := StripLeft(inner);
    var reason := AfterPrefix(stripped, REVIEW_WORD).value;
    var body := BeforeSuffix(reason, COMMENT_CLOSE).value;
    var gap := LeftCut(inner);
    PartsOneLine(COMMENT_OPEN, inner);
    PartsOneLine(gap, stripped);
    PartsOneLine(REVIEW_WORD, reason);
    PartsOneLine(body, COMMENT_CLOSE);
    StripGives(body);
  }

  // ----- the migration prefix -----

  const MIGRATION := "migration:"

  predicate IsMigration(text: string) { |text| >= |MIGRATION| && Lower(text[..|MIGRATION|]) == MIGRATION }

  lemma MigrationRead(note: string)
    requires Stripped(note) && note != ""
    ensures var text := MIGRATION + " " + note;
      IsMigration(text) && Strip(text[|MIGRATION|..]) == note && ReadReview(text).None?
  {
    var text := MIGRATION + " " + note;
    assert text[..|MIGRATION|] == MIGRATION && text[|MIGRATION|..] == " " + note + "";
    StripPadded(" ", note, "");
    assert text[0] == 'm';
  }
}
