/** What a changelog line means, read off its text: the section, the breaking
    flag and the areas of an entry line, and what is wrong with a line
    (`parse_entries` in scripts/changelog.py). */
module ChangelogMeaning {
  import opened Wrappers
  import opened Order
  import opened Text
  import opened TextLines
  import opened EntryGrammar
  import opened ChangelogParser

  // ----- kinds -----

  /** The character is this lower-case one, or its capital. */
  predicate CaseOf(c: char, lower: char) {
    c == lower || ('a' <= lower <= 'z' && c as int == lower as int - 32)
  }

  /** The text is this lower-case word, in any letter case. */
  predicate AnyCase(s: string, word: string) {
    |s| == |word| && forall k :: 0 <= k < |s| ==> CaseOf(s[k], word[k])
  }

  /** What the kind of an entry line can be for each section. */
  predicate KindMeans(kind: string, s: Section) {
    match s
    case Added => kind == "+" || AnyCase(kind, "added")
    case Removed => kind == "-" || AnyCase(kind, "removed")
    case Changed => kind == "~" || AnyCase(kind, "changed")
    case Fixed => kind == "*" || AnyCase(kind, "fixed")
    case Deprecated => AnyCase(kind, "deprecated")
    case Security => AnyCase(kind, "security")
  }

  predicate Uncapital(word: string) { forall k :: 0 <= k < |word| ==> !('A' <= word[k] <= 'Z') }

  lemma LowerIsCase(s: string, word: string)
    requires Uncapital(word)
    ensures Lower(s) == word <==> AnyCase(s, word)
  {
    assert forall k :: 0 <= k < |s| ==> Lower(s)[k] == LowerChar(s[k]);
    if |s| == |word| {
      forall k | 0 <= k < |s| ensures LowerChar(s[k]) == word[k] <==> CaseOf(s[k], word[k]) {
        CharIsCase(s[k], word[k]);
      }
    }
  }

  lemma CharIsCase(c: char, lower: char)
    requires !('A' <= lower <= 'Z')
    ensures LowerChar(c) == lower <==> CaseOf(c, lower)
  {
  }

  lemma WordsRead(kind: string)
    ensures Lower(kind) == "added" <==> AnyCase(kind, "added")
    ensures Lower(kind) == "changed" <==> AnyCase(kind, "changed")
    ensures Lower(kind) == "fixed" <==> AnyCase(kind, "fixed")
    ensures Lower(kind) == "removed" <==> AnyCase(kind, "removed")
    ensures Lower(kind) == "deprecated" <==> AnyCase(kind, "deprecated")
    ensures Lower(kind) == "security" <==> AnyCase(kind, "security")
  {
    LowerIsCase(kind, "added");
    LowerIsCase(kind, "changed");
    LowerIsCase(kind, "fixed");
    LowerIsCase(kind, "removed");
    LowerIsCase(kind, "deprecated");
    LowerIsCase(kind, "security");
  }

  /** A kind is one of a section exactly when it is its symbol or its word. */
  lemma KindExactly(kind: string, s: Section)
    ensures SectionOf(kind) == Some(s) <==> KindMeans(kind, s)
  {
    WordsRead(kind);
    assert |kind| != 1 || kind == [kind[0]];
  }

  // ----- entry lines -----

  /** The line is read as `x`: it has its form and, if `x` has no areas, no form with areas. */
  ghost predicate Captures(raw: string, x: EntryLine) {
    && (exists tail, gap, space :: LineMatches(raw, x, tail, gap, space))
    && (x.areas.None? ==> forall y, tail, gap, space :: LineMatches(raw, y, tail, gap, space) ==> y.areas.None?)
  }

  lemma CapturesExactly(raw: string, x: EntryLine)
    ensures MatchEntryLine(raw) == Some(x) <==> Captures(raw, x)
  {
    if MatchEntryLine(raw) == Some(x) {
      var tail, gap, space := MatchSound(raw);
      forall y, tail, gap, space | LineMatches(raw, y, tail, gap, space) && x.areas.None? ensures y.areas.None? {
        MatchComplete(raw, y, tail, gap, space);
      }
    }
    if Captures(raw, x) {
      var tail, gap, space :| LineMatches(raw, x, tail, gap, space);
      MatchComplete(raw, x, tail, gap, space);
      if MatchEntryLine(raw).value.areas.Some? {
        var t, g, s := MatchSound(raw);
      }
    }
  }

  /** The author says that the entry breaks something, or removes and does not say
      that it does not. */
  predicate SaysBreaking(x: EntryLine) {
    x.marker == Breaking || (x.marker == Unmarked && (x.kind == "-" || AnyCase(x.kind, "removed")))
  }

  /** The parts of an area list, each without the white space around it. */
  ghost predicate Lists(list: string, areas: seq<string>) {
    var parts := Split(list, '/');
    && |areas| == |parts| && (forall k :: 0 <= k < |parts| ==> areas[k] == Strip(parts[k]))
    && GoodAreas(areas)
  }

  lemma {:induction false} PartsExactly(parts: seq<string>)
    ensures ReadAreas(parts).faults == [] <==> GoodAreas(StripAll(parts))
    ensures ReadAreas(parts).faults == [] ==> ReadAreas(parts).areas == StripAll(parts)
  {
    if parts != [] {
      var init, last := parts[..|parts| - 1], parts[|parts| - 1];
      PartsExactly(init);
      assert parts == init + [last];
      StripAllSnoc(init, last);
      GoodSnoc(StripAll(init), Strip(last));
    }
  }

  function StripAll(parts: seq<string>): (r: seq<string>)
    ensures |r| == |parts| && forall k :: 0 <= k < |parts| ==> r[k] == Strip(parts[k])
  {
    seq(|parts|, k requires 0 <= k < |parts| => Strip(parts[k]))
  }

  lemma StripAllSnoc(parts: seq<string>, last: string)
    ensures StripAll(parts + [last]) == StripAll(parts) + [Strip(last)]
  {
  }

  lemma GoodSnoc(areas: seq<string>, slug: string)
    ensures GoodAreas(areas + [slug]) <==> GoodAreas(areas) && IsSlug(slug) && slug !in areas
  {
    var more := areas + [slug];
    if GoodAreas(more) {
      assert forall k :: 0 <= k < |areas| ==> more[k] == areas[k];
      assert more[|areas|] == slug;
    }
  }

  /** An area list without faults is its parts, distinct slugs, in order. */
  lemma ListsExactly(list: string, areas: seq<string>)
    ensures ReadAreas(Split(list, '/')) == AreaList(areas, []) <==> Lists(list, areas)
  {
    var parts := Split(list, '/');
    PartsExactly(parts);
    if Lists(list, areas) { assert areas == StripAll(parts); }
  }

  /** How wide the summary of an entry is: thirteen for the flag, the areas with a
      slash between any two, brackets and a space, and the prose. */
  function Width(breaking: bool, areas: seq<string>, prose: string): nat {
    (if breaking then 13 else 0) + (if areas == [] then 0 else Total(areas) + |areas| + 2) + |prose|
  }

  function Total(texts: seq<string>): nat { if texts == [] then 0 else |texts[0]| + Total(texts[1..]) }

  lemma {:induction false} JoinedLength(areas: seq<string>)
    requires areas != []
    ensures |Join(areas, "/")| == Total(areas) + |areas| - 1
  {
    if |areas| > 1 {
      JoinedLength(areas[1..]);
    } else {
      assert areas[1..] == [];
    }
  }

  lemma SummaryWidth(e: Entry)
    ensures |SummaryLine(e)| == Width(e.breaking, e.areas, e.prose)
  {
    if e.areas != [] { JoinedLength(e.areas); }
  }

  // ----- what a line is taken for -----

  ghost predicate NoKind(x: EntryLine) { forall s :: !KindMeans(x.kind, s) }

  predicate StartsBracket(x: EntryLine) { Strip(x.prose) != "" && Strip(x.prose)[0] == '[' }

  predicate LeftOpen(x: EntryLine, hint: string -> bool) { x.marker == Unmarked && hint(Strip(x.prose)) }

  /** The line gives an entry: its kind is known, its prose starts with no bracket
      and does not read like a break that no marker settles. */
  ghost predicate Taken(x: EntryLine, hint: string -> bool) {
    !NoKind(x) && !StartsBracket(x) && !LeftOpen(x, hint)
  }

  /** The areas kept: the slugs among the parts, each once. */
  ghost predicate Keeps(list: Option<string>, areas: seq<string>) {
    && GoodAreas(areas)
    && match list
       case None => areas == []
       case Some(text) =>
         && (forall slug :: slug in areas <==> IsSlug(slug) && slug in StripAll(Split(text, '/')))
         && (forall all :: Lists(text, all) ==> areas == all)
  }

  /** The first line of the entry is what the text says. */
  ghost predicate MeansHead(x: EntryLine, e: Entry) {
    && KindMeans(x.kind, e.section) && e.breaking == SaysBreaking(x)
    && e.prose == Strip(x.prose) && Keeps(x.areas, e.areas)
  }

  /** What is wrong with an area list. */
  ghost predicate ListFault(list: string, f: AreaFault) {
    PartFault(StripAll(Split(list, '/')), f)
  }

  /** What is wrong with a line that is read as `x`. */
  ghost predicate CapturedFault(x: EntryLine, hint: string -> bool, f: Fault) {
    match f
    case UnknownKind(kind) => NoKind(x) && x.kind == kind
    case BracketProse => !NoKind(x) && StartsBracket(x)
    case NeedsMarker => !NoKind(x) && !StartsBracket(x) && LeftOpen(x, hint)
    case BadArea(fault) => Taken(x, hint) && x.areas.Some? && ListFault(x.areas.value, fault)
    case SummaryTooLong => Taken(x, hint) && exists areas :: Wide(x, areas)
    case _ => false
  }

  ghost predicate Wide(x: EntryLine, areas: seq<string>) {
    Keeps(x.areas, areas) && Width(SaysBreaking(x), areas, Strip(x.prose)) > 160
  }

  /** What is wrong with a line that should start an entry. */
  ghost predicate HeadFault(raw: string, hint: string -> bool, f: Fault) {
    if f.NotAnEntry? then forall x :: !Captures(raw, x)
    else exists x :: Captures(raw, x) && CapturedFault(x, hint, f)
  }

  lemma {:induction false} KeptMembers(parts: seq<string>, slug: string)
    ensures slug in ReadAreas(parts).areas <==> IsSlug(slug) && slug in StripAll(parts)
  {
    if parts != [] {
      var init, last := parts[..|parts| - 1], parts[|parts| - 1];
      assert parts == init + [last];
      KeptMembers(init, slug);
      StripAllSnoc(init, last);
    }
  }

  lemma {:induction false} PartFaults(parts: seq<string>, f: AreaFault)
    ensures f in ReadAreas(parts).faults <==> PartFault(StripAll(parts), f)
  {
    if parts != [] {
      var init, last := parts[..|parts| - 1], parts[|parts| - 1];
      assert parts == init + [last];
      PartFaults(init, f);
      StripAllSnoc(init, last);
      KeptMembers(init, Strip(last));
      PartFaultSnoc(StripAll(init), Strip(last), f);
    }
  }

  ghost predicate PartFault(slugs: seq<string>, f: AreaFault) {
    match f
    case EmptyArea => "" in slugs
    case NotASlug(slug) => slug in slugs && slug != "" && !IsSlug(slug)
    case RepeatedArea(slug) => IsSlug(slug) && exists i, j :: 0 <= i < j < |slugs| && slugs[i] == slugs[j] == slug
  }

  lemma PartFaultSnoc(slugs: seq<string>, slug: string, f: AreaFault)
    ensures PartFault(slugs + [slug], f) <==> PartFault(slugs, f) || match f
      case EmptyArea => slug == ""
      case NotASlug(s) => s == slug && slug != "" && !IsSlug(slug)
      case RepeatedArea(s) => s == slug && IsSlug(slug) && slug in slugs
  {
    var more := slugs + [slug];
    match f
    case RepeatedArea(s) =>
      if i, j :| 0 <= i < j < |more| && more[i] == more[j] == s {
        assert more[i] == slugs[i];
      }
      if PartFault(slugs, f) {
        var i, j :| 0 <= i < j < |slugs| && slugs[i] == slugs[j] == s;
        assert more[i] == more[j] == s;
      }
      if s == slug && slug in slugs {
        var i :| 0 <= i < |slugs| && slugs[i] == slug;
        assert more[i] == more[|slugs|] == s;
      }
    case _ =>
  }

  /** The area list of an entry line, as it is read. */
  lemma AreasRead(list: Option<string>)
    ensures var found := if list.Some? then ReadAreas(Split(list.value, '/')) else AreaList([], []);
      && Keeps(list, found.areas)
      && forall f :: f in found.faults <==> list.Some? && ListFault(list.value, f)
  {
    if list.Some? {
      var parts := Split(list.value, '/');
      AreasAreGood(parts);
      forall slug ensures slug in ReadAreas(parts).areas <==> IsSlug(slug) && slug in StripAll(parts) {
        KeptMembers(parts, slug);
      }
      forall all | Lists(list.value, all) ensures ReadAreas(parts).areas == all { ListsExactly(list.value, all); }
      forall f ensures f in ReadAreas(parts).faults <==> ListFault(list.value, f) { PartFaults(parts, f); }
    }
  }

  lemma {:induction false} TotalConcat(a: seq<string>, b: seq<string>)
    ensures Total(a + b) == Total(a) + Total(b)
  {
    if a == [] {
      assert a + b == b;
    } else {
      assert (a + b)[1..] == a[1..] + b;
      TotalConcat(a[1..], b);
    }
  }

  ghost predicate Different(xs: seq<string>) { forall i, j :: 0 <= i < j < |xs| ==> xs[i] != xs[j] }

  /** Lists of different texts with the same members are as long and as wide. */
  lemma {:induction false} SameTotal(xs: seq<string>, ys: seq<string>)
    requires Different(xs) && Different(ys) && forall x :: x in xs <==> x in ys
    ensures |xs| == |ys| && Total(xs) == Total(ys)
  {
    if xs != [] {
      assert xs[0] in ys;
      var k :| 0 <= k < |ys| && ys[k] == xs[0];
      var rest := ys[..k] + ys[k + 1..];
      RestMembers(xs, ys, k, rest);
      SameTotal(xs[1..], rest);
      TotalWithout(ys, k);
    } else if ys != [] {
      var y := SomeMember(ys);
    }
  }

  lemma TotalWithout(xs: seq<string>, k: nat)
    requires k < |xs|
    ensures Total(xs) == |xs[k]| + Total(xs[..k] + xs[k + 1..])
  {
    assert xs == xs[..k] + xs[k..] && xs[k..][1..] == xs[k + 1..];
    TotalConcat(xs[..k], xs[k..]);
    TotalConcat(xs[..k], xs[k + 1..]);
  }

  lemma RestMembers(xs: seq<string>, ys: seq<string>, k: nat, rest: seq<string>)
    requires Different(xs) && Different(ys) && xs != [] && k < |ys| && ys[k] == xs[0]
    requires rest == ys[..k] + ys[k + 1..] && forall x :: x in xs <==> x in ys
    ensures Different(rest) && forall x :: x in xs[1..] <==> x in rest
  {
    forall x ensures x in rest <==> x in ys && x != xs[0] {
      if x in ys && x != xs[0] {
        var i :| 0 <= i < |ys| && ys[i] == x;
        assert x == if i < k then rest[i] else rest[i - 1];
      }
    }
    assert xs == [xs[0]] + xs[1..];
  }

  lemma KeptWidth(list: Option<string>, a: seq<string>, b: seq<string>, breaking: bool, prose: string)
    requires Keeps(list, a) && Keeps(list, b)
    ensures Width(breaking, a, prose) == Width(breaking, b, prose)
  {
    if list.Some? { SameTotal(a, b); }
  }

  /** The first line of an entry before anything is read below it. */
  ghost predicate Fresh(e: Entry, number: nat, review: Option<(nat, string)>) {
    && e.detail == [] && e.migration == "" && e.line == number
    && e.review == ReviewText(review) && e.reviewLine == ReviewLine(review)
  }

  lemma AssembledMeans(x: EntryLine, section: Section, number: nat, review: Option<(nat, string)>)
    requires KindMeans(x.kind, section)
    ensures var r := Assembled(section, SaysBreaking(x), x.areas, Strip(x.prose), number, review);
      && r.entry.Some? && MeansHead(x, r.entry.value) && Fresh(r.entry.value, number, review)
      && forall f :: f in r.faults <==> match f
        case BadArea(fault) => x.areas.Some? && ListFault(x.areas.value, fault)
        case SummaryTooLong => Width(SaysBreaking(x), r.entry.value.areas, Strip(x.prose)) > 160
        case _ => false
  {
    var r := Assembled(section, SaysBreaking(x), x.areas, Strip(x.prose), number, review);
    var found := if x.areas.Some? then ReadAreas(Split(x.areas.value, '/')) else AreaList([], []);
    AreasRead(x.areas);
    SummaryWidth(r.entry.value);
    AreaFaultsMembers(found.faults);
  }

  lemma AreaFaultsMembers(faults: seq<AreaFault>)
    ensures forall f :: f in AreaFaults(faults) <==> f.BadArea? && f.area in faults
  {
    var all := AreaFaults(faults);
    forall f ensures f in all <==> f.BadArea? && f.area in faults {
      if f.BadArea? && f.area in faults {
        var k :| 0 <= k < |faults| && faults[k] == f.area;
        assert all[k] == f;
      }
    }
  }

  /** Breaking by the table of sections is breaking by what the line says. */
  lemma BreakingMeans(x: EntryLine, section: Section)
    requires KindMeans(x.kind, section)
    ensures BreakingOf(x.marker, section) == SaysBreaking(x)
  {
    KindExactly(x.kind, section);
    KindExactly(x.kind, Removed);
  }

  lemma OneReading(raw: string, x: EntryLine, y: EntryLine)
    requires Captures(raw, x) && Captures(raw, y)
    ensures x == y
  {
    CapturesExactly(raw, x);
    CapturesExactly(raw, y);
  }

  lemma FaultOf(raw: string, hint: string -> bool, x: EntryLine, f: Fault)
    requires Captures(raw, x)
    ensures HeadFault(raw, hint, f) <==> CapturedFault(x, hint, f)
  {
    forall y | Captures(raw, y) ensures y == x { OneReading(raw, x, y); }
  }

  lemma TakenRead(x: EntryLine, number: nat, review: Option<(nat, string)>, hint: string -> bool, section: Section)
    requires KindMeans(x.kind, section) && Taken(x, hint)
    ensures var r := Assembled(section, SaysBreaking(x), x.areas, Strip(x.prose), number, review);
      && r.entry.Some? && MeansHead(x, r.entry.value) && Fresh(r.entry.value, number, review)
      && forall f :: f in r.faults <==> CapturedFault(x, hint, f)
  {
    AssembledMeans(x, section, number, review);
    var e := Assembled(section, SaysBreaking(x), x.areas, Strip(x.prose), number, review).entry.value;
    forall areas | Keeps(x.areas, areas) ensures Wide(x, areas) <==> Wide(x, e.areas) {
      KeptWidth(x.areas, areas, e.areas, SaysBreaking(x), Strip(x.prose));
    }
  }

  lemma RefusedRead(raw: string, number: nat, review: Option<(nat, string)>, hint: string -> bool, x: EntryLine)
    requires MatchEntryLine(raw) == Some(x) && !Taken(x, hint)
    requires forall s :: SectionOf(x.kind) == Some(s) <==> KindMeans(x.kind, s)
    ensures var r := ReadEntry(raw, number, review, hint);
      r.entry.None? && forall f :: f in r.faults <==> CapturedFault(x, hint, f)
  {
    var fault := if NoKind(x) then UnknownKind(x.kind) else if StartsBracket(x) then BracketProse else NeedsMarker;
    assert ReadEntry(raw, number, review, hint) == LineResult(None, [fault]) by {
      if SectionOf(x.kind).Some? { assert KindMeans(x.kind, SectionOf(x.kind).value); }
    }
  }

  lemma TakenReads(raw: string, number: nat, review: Option<(nat, string)>, hint: string -> bool, x: EntryLine)
    requires MatchEntryLine(raw) == Some(x) && Taken(x, hint)
    requires forall s :: SectionOf(x.kind) == Some(s) <==> KindMeans(x.kind, s)
    ensures SectionOf(x.kind).Some? && KindMeans(x.kind, SectionOf(x.kind).value)
    ensures ReadEntry(raw, number, review, hint)
      == Assembled(SectionOf(x.kind).value, SaysBreaking(x), x.areas, Strip(x.prose), number, review)
  {
    var section :| KindMeans(x.kind, section);
    BreakingMeans(x, section);
  }

  lemma CapturedRead(raw: string, number: nat, review: Option<(nat, string)>, hint: string -> bool, x: EntryLine)
    requires Captures(raw, x)
    ensures var r := ReadEntry(raw, number, review, hint);
      && (r.entry.Some? <==> Taken(x, hint))
      && (r.entry.Some? ==> MeansHead(x, r.entry.value) && Fresh(r.entry.value, number, review))
      && forall f :: f in r.faults <==> CapturedFault(x, hint, f)
  {
    CapturesExactly(raw, x);
    forall s ensures SectionOf(x.kind) == Some(s) <==> KindMeans(x.kind, s) { KindExactly(x.kind, s); }
    if Taken(x, hint) {
      TakenReads(raw, number, review, hint, x);
      TakenRead(x, number, review, hint, SectionOf(x.kind).value);
    } else {
      RefusedRead(raw, number, review, hint, x);
    }
  }

  /** Any other line is no entry line, and is faulted for that. */
  lemma UncapturedRead(raw: string, number: nat, review: Option<(nat, string)>, hint: string -> bool)
    requires forall x :: !Captures(raw, x)
    ensures var r := ReadEntry(raw, number, review, hint);
      r.entry.None? && forall f :: f in r.faults <==> HeadFault(raw, hint, f)
  {
    var m := MatchEntryLine(raw);
    if m.Some? { CapturesExactly(raw, m.value); }
  }

  /** The line is an entry line that gives this entry. */
  ghost predicate GivesEntry(raw: string, hint: string -> bool, e: Entry) {
    exists x :: Captures(raw, x) && Taken(x, hint) && MeansHead(x, e)
  }

  ghost predicate GivesSome(raw: string, hint: string -> bool) {
    exists x :: Captures(raw, x) && Taken(x, hint)
  }

  /** What the reader makes of a line is what its text says: it gives an entry
      exactly when it is captured and taken, the entry means what the line says, and
      the faults are exactly what is wrong with the line. */
  lemma LineRead(raw: string, number: nat, review: Option<(nat, string)>, hint: string -> bool)
    ensures var r := ReadEntry(raw, number, review, hint);
      && (r.entry.Some? <==> GivesSome(raw, hint))
      && (r.entry.Some? ==> GivesEntry(raw, hint, r.entry.value) && Fresh(r.entry.value, number, review))
      && forall f :: f in r.faults <==> HeadFault(raw, hint, f)
  {
    if x :| Captures(raw, x) {
      CapturedRead(raw, number, review, hint, x);
      forall y | Captures(raw, y) ensures y == x { OneReading(raw, x, y); }
      forall f ensures HeadFault(raw, hint, f) <==> CapturedFault(x, hint, f) { FaultOf(raw, hint, x, f); }
    } else {
      UncapturedRead(raw, number, review, hint);
    }
  }
}
