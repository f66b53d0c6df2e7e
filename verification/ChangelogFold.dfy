/** Folding entries into a release section of CHANGELOG.md, category by category
    (`fold_entries`, `insert_category` and `place_in_category` in
    scripts/changelog.py). */
module ChangelogFold {
  import opened Order
  import opened EntryGrammar
  import opened BulletLists

  // ----- headings -----

  /** A `### ` line. */
  predicate IsCategory(line: string) {
    |line| >= 4 && line[0] == '#' && line[1] == '#' && line[2] == '#' && line[3] == ' '
  }

  function Title(s: Section): string {
    match s
    case Added => "Added"
    case Changed => "Changed"
    case Fixed => "Fixed"
    case Removed => "Removed"
    case Deprecated => "Deprecated"
    case Security => "Security"
  }

  predicate Padding(s: string) { forall k :: 0 <= k < |s| ==> s[k] == ' ' || s[k] == '\t' }

  predicate IsHeading(line: string, s: Section) {
    IsCategory(line) && |line| >= 4 + |Title(s)| && line[4..4 + |Title(s)|] == Title(s)
      && Padding(line[4 + |Title(s)|..])
  }

  function HeadingOf(s: Section): string { "### " + Title(s) }

  /** The search pattern of category_heading. */
  function HeadingTest(s: Section): string -> bool { (line: string) => IsHeading(line, s) }

  lemma HeadingFacts(s: Section)
    ensures IsHeading(HeadingOf(s), s) && HeadingOf(s) != "" && !IsBullet(HeadingOf(s))
  {
    var line := HeadingOf(s);
    assert line[4..4 + |Title(s)|] == Title(s);
  }

  lemma HeadingsDiffer(line: string, s: Section, t: Section)
    requires IsHeading(line, s) && IsHeading(line, t)
    ensures s == t
  {
    assert line[4] == Title(s)[0] && line[4] == Title(t)[0];
  }

  // ----- the categories of a release section -----

  /** The lines before the next category. */
  function Upto(ls: Lines): Lines { ls[..Find(ls, IsCategory)] }

  predicate Has(body: Lines, s: Section) { Find(body, HeadingTest(s)) < |body| }

  /** What follows the first line with the property; nothing if there is none. */
  function AfterFirst(ls: Lines, p: string -> bool): Lines {
    var c := Find(ls, p);
    if c < |ls| then ls[c + 1..] else []
  }

  /** The lines of a category, its heading excluded. */
  function Content(body: Lines, s: Section): Lines { Upto(AfterFirst(body, HeadingTest(s))) }

  function BulletsIn(body: Lines, s: Section): seq<Lines> { SplitBullets(Content(body, s)) }

  // ----- folding one category -----

  /** `place_in_category`. */
  function Place(category: Lines, bullets: seq<Lines>, area: Lines -> string): Lines {
    var existing := SplitBullets(category);
    if existing == [] then TrimEnd(category) + [""] + JoinBullets(bullets) + [""]
    else JoinBullets(PlaceAll(existing, bullets, area)) + [""]
  }

  const SECTIONS: seq<Section> := [Added, Changed, Fixed, Removed, Deprecated, Security]

  function Rank(s: Section): (k: nat)
    ensures k < |SECTIONS| && SECTIONS[k] == s
  {
    match s
    case Added => 0
    case Changed => 1
    case Fixed => 2
    case Removed => 3
    case Deprecated => 4
    case Security => 5
  }

  /** The heading of the first of the given categories that is there, or the length. */
  function FirstHeading(body: Lines, later: seq<Section>): (k: nat)
    ensures k <= |body|
    ensures k < |body| ==> IsCategory(body[k])
  {
    if later == [] then |body|
    else
      var k := Find(body, HeadingTest(later[0]));
      if k < |body| then k else FirstHeading(body, later[1..])
  }

  /** `insert_category`. */
  function InsertCategory(body: Lines, s: Section, block: Lines): Lines {
    var l := FirstHeading(body, SECTIONS[Rank(s) + 1..]);
    if l < |body| then TrimEnd(body[..l] + [""]) + ["", HeadingOf(s), ""] + block + [""] + body[l..]
    else TrimEnd(body) + ["", HeadingOf(s), ""] + block + [""]
  }

  /** One round of the loop of fold_entries. */
  function FoldCategory(body: Lines, s: Section, bullets: seq<Lines>, area: Lines -> string): (after: Lines)
    ensures body != [] ==> after != []
  {
    var c := Find(body, HeadingTest(s));
    if bullets == [] then body
    else if c == |body| then InsertCategory(body, s, JoinBullets(bullets))
    else FoldAt(body, c, bullets, area)
  }

  /** Folding into the category whose heading is at `c`. */
  function FoldAt(body: Lines, c: nat, bullets: seq<Lines>, area: Lines -> string): (after: Lines)
    requires c < |body|
    ensures after != []
  {
    Rejoin(body[..c + 1], body[c + 1..], bullets, area)
  }

  /** The category as place_in_category gets it. */
  function CategoryText(content: Lines, rest: Lines): Lines { [""] + content + (if rest != [] then [""] else []) }

  function RestText(rest: Lines): Lines { if rest != [] then rest else [""] }

  /** The text written under the heading. */
  function NewText(category: Lines, bullets: seq<Lines>, area: Lines -> string): Lines {
    TrimEnd(TrimStart(Place(category, bullets, area)))
  }

  function Framed(text: Lines): Lines { [""] + text + [""] }

  /** The body put back together around the new category text. */
  function Rejoin(upto: Lines, after: Lines, bullets: seq<Lines>, area: Lines -> string): Lines {
    var n := Find(after, IsCategory);
    var category := CategoryText(after[..n], after[n..]);
    upto + Framed(NewText(category, bullets, area)) + TrimStart(RestText(after[n..]))
  }

  // ----- where a category is found -----

  lemma UptoConcat(a: Lines, b: Lines)
    requires Lacks(a, IsCategory)
    ensures Upto(a + b) == a + Upto(b)
  {
    FindConcat(a, b, IsCategory);
  }

  lemma UptoStops(a: Lines, b: Lines)
    requires b != [] && IsCategory(b[0])
    ensures Upto(a + b) == Upto(a)
  {
    FindConcat(a, b, IsCategory);
    assert Find(b, IsCategory) == 0;
  }

  /** The content of a category whose heading is known. */
  lemma ContentAt(a: Lines, h: string, r: Lines, s: Section)
    requires Lacks(a, HeadingTest(s)) && IsHeading(h, s)
    ensures Has(a + [h] + r, s) && Content(a + [h] + r, s) == Upto(r)
  {
    var body := a + [h] + r;
    assert body[..|a|] == a;
    FindIs(body, HeadingTest(s), |a|);
    assert body[|a| + 1..] == r;
  }

  lemma AfterLater(a: Lines, b: Lines, p: string -> bool)
    requires Find(a, p) == |a|
    ensures AfterFirst(a + b, p) == AfterFirst(b, p) && (Find(a + b, p) < |a + b|) == (Find(b, p) < |b|)
  {
    FindConcat(a, b, p);
    if Find(b, p) < |b| {
      AfterAt(b, p, Find(b, p));
      AfterAt(a + b, p, |a| + Find(b, p));
      DropPast(a, b, Find(b, p) + 1);
    }
  }

  lemma DropPast(a: Lines, b: Lines, k: nat)
    requires k <= |b|
    ensures (a + b)[|a| + k..] == b[k..]
  {
  }

  lemma AfterEarlier(a: Lines, b: Lines, p: string -> bool)
    requires Find(a, p) < |a|
    ensures AfterFirst(a + b, p) == AfterFirst(a, p) + b && Find(a + b, p) < |a + b|
  {
    FindConcat(a, b, p);
    AfterAt(a, p, Find(a, p));
    AfterAt(a + b, p, Find(a, p));
    DropInside(a, b, Find(a, p) + 1);
  }

  lemma AfterAt(ls: Lines, p: string -> bool, c: nat)
    requires c == Find(ls, p) < |ls|
    ensures AfterFirst(ls, p) == ls[c + 1..]
  {
  }

  lemma DropInside(a: Lines, b: Lines, k: nat)
    requires k <= |a|
    ensures (a + b)[k..] == a[k..] + b
  {
  }

  lemma ContentLater(a: Lines, b: Lines, t: Section)
    requires !Has(a, t)
    ensures Has(a + b, t) == Has(b, t) && Content(a + b, t) == Content(b, t)
  {
    AfterLater(a, b, HeadingTest(t));
  }

  lemma ContentEarlier(a: Lines, b: Lines, t: Section)
    requires Has(a, t) && b != [] && IsCategory(b[0])
    ensures Has(a + b, t) && Content(a + b, t) == Content(a, t)
  {
    AfterEarlier(a, b, HeadingTest(t));
    UptoStops(AfterFirst(a, HeadingTest(t)), b);
  }

  /** Content is found on the side of a category boundary its heading is on. */
  lemma ContentSplit(a: Lines, b: Lines, t: Section)
    requires b == [] || IsCategory(b[0])
    ensures Has(a + b, t) == (Has(a, t) || Has(b, t))
    ensures Content(a + b, t) == if Has(a, t) then Content(a, t) else Content(b, t)
  {
    if !Has(a, t) {
      ContentLater(a, b, t);
    } else if b == [] {
      assert a + b == a;
    } else {
      ContentEarlier(a, b, t);
    }
  }

  lemma LacksHeading(ls: Lines, t: Section)
    requires Lacks(ls, IsCategory)
    ensures !Has(ls, t) && Lacks(ls, HeadingTest(t))
  {
  }

  /** Lines that are no category hold no heading. */
  lemma ContentSkips(a: Lines, b: Lines, t: Section)
    requires Lacks(a, IsCategory)
    ensures Has(a + b, t) == Has(b, t) && Content(a + b, t) == Content(b, t)
  {
    LacksHeading(a, t);
    ContentLater(a, b, t);
  }

  /** Around a heading of another category: what is before it or after its content. */
  lemma ContentAround(a: Lines, h: string, m: Lines, q: Lines, t: Section)
    requires IsCategory(h) && !IsHeading(h, t) && Lacks(m, IsCategory)
    ensures var body := a + [h] + m + q;
      Has(body, t) == (Has(a, t) || Has(q, t)) && Content(body, t) == if Has(a, t) then Content(a, t) else Content(q, t)
  {
    var tail := [h] + (m + q);
    assert a + [h] + m + q == a + tail;
    ContentSplit(a, tail, t);
    HeadingSkipped(h, m + q, t);
    ContentSkips(m, q, t);
  }

  lemma HeadingSkipped(h: string, r: Lines, t: Section)
    requires !IsHeading(h, t)
    ensures Has([h] + r, t) == Has(r, t) && Content([h] + r, t) == Content(r, t)
  {
    FindIs([h], HeadingTest(t), 1);
    ContentLater([h], r, t);
  }

  // ----- an existing category -----

  /** What a category's bullets become: the new ones are placed among the old,
      or stand by themselves where there were none. */
  function Folded(old_: seq<Lines>, more: seq<Lines>, area: Lines -> string): seq<Lines> {
    if old_ == [] then more else PlaceAll(old_, more, area)
  }

  /** No line of any of the bullets has the property. */
  ghost predicate AllLack(bs: seq<Lines>, p: string -> bool) {
    forall k {:trigger bs[k]} :: 0 <= k < |bs| ==> Lacks(bs[k], p)
  }

  lemma {:induction false} JoinLacks(bs: seq<Lines>, p: string -> bool)
    requires !p("") && AllLack(bs, p)
    ensures Lacks(JoinBullets(bs), p)
  {
    if bs != [] {
      assert Lacks(bs[0], p);
      JoinLacks(bs[1..], p);
    }
  }

  lemma {:induction false} ChunksLack(ls: Lines, p: string -> bool)
    requires Lacks(ls, p)
    ensures AllLack(Chunks(ls), p)
    decreases |ls|
  {
    if ls != [] {
      var n := BulletLength(ls);
      ChunksLack(ls[n..], p);
      assert Lacks(TrimEnd(ls[..n]), p);
    }
  }

  lemma SplitLacks(ls: Lines, p: string -> bool)
    requires Lacks(ls, p)
    ensures AllLack(SplitBullets(ls), p)
  {
    ChunksLack(ls[Find(ls, IsBullet)..], p);
  }

  lemma InsertLacks(bs: seq<Lines>, b: Lines, i: nat, p: string -> bool)
    requires AllLack(bs, p) && Lacks(b, p) && i <= |bs|
    ensures AllLack(bs[..i] + [b] + bs[i..], p)
  {
  }

  lemma {:induction false} PlacedLack(bs: seq<Lines>, more: seq<Lines>, area: Lines -> string, p: string -> bool)
    requires AllLack(bs, p) && AllLack(more, p)
    ensures AllLack(PlaceAll(bs, more, area), p)
  {
    if more != [] {
      var init, b := more[..|more| - 1], more[|more| - 1];
      PlacedLack(bs, init, area, p);
      var before := PlaceAll(bs, init, area);
      InsertLacks(before, b, PlaceFor(before, b, area), p);
    }
  }

  /** Where there are bullets, the new text is the joined bullets and nothing else. */
  lemma NewTextJoined(category: Lines, bullets: seq<Lines>, area: Lines -> string)
    requires AllItems(bullets) && SplitBullets(category) != []
    ensures NewText(category, bullets, area) == JoinBullets(PlaceAll(SplitBullets(category), bullets, area))
  {
    var all := PlaceAll(SplitBullets(category), bullets, area);
    SplitGivesItems(category);
    PlacedItems(SplitBullets(category), bullets, area);
    JoinStarts(all);
    JoinEnds(all);
    var joined := JoinBullets(all);
    assert joined[0] != "" && TrimStart(joined + [""]) == joined + [""];
    TrimEndKeeps(joined);
  }

  /** Where there are none, the new text is what was there and the new bullets after it. */
  lemma NewTextAppended(category: Lines, bullets: seq<Lines>, area: Lines -> string)
    requires category != [] && AllItems(bullets) && bullets != [] && SplitBullets(category) == []
    ensures var before := TrimEnd(category) + [""];
      NewText(category, bullets, area) == TrimStart(before + JoinBullets(bullets))
  {
    var joined := JoinBullets(bullets);
    var before := TrimEnd(category) + [""];
    JoinEnds(bullets);
    TrimStartSnoc(before + joined);
    assert before + joined + [""] == TrimEnd(category) + [""] + joined + [""];
    var text := TrimStart(before + joined);
    TrimEndKeeps(text);
  }

  lemma {:induction false} TrimStartSnoc(ls: Lines)
    requires ls != [] && ls[|ls| - 1] != ""
    ensures TrimStart(ls + [""]) == TrimStart(ls) + [""]
    ensures TrimStart(ls)[|TrimStart(ls)| - 1] != ""
  {
    if |ls| > 1 && ls[0] == "" {
      assert (ls + [""])[1..] == ls[1..] + [""];
      TrimStartSnoc(ls[1..]);
    } else {
      assert ls[0] != "";
    }
  }

  lemma {:induction false} TrimmedStart(ls: Lines) returns (gap: Lines)
    ensures ls == gap + TrimStart(ls) && forall k :: 0 <= k < |gap| ==> gap[k] == ""
  {
    if |ls| > 1 && ls[0] == "" {
      gap := TrimmedStart(ls[1..]);
      gap := [""] + gap;
    } else {
      gap := [];
    }
  }

  lemma SplitTrimStart(ls: Lines)
    ensures SplitBullets(TrimStart(ls)) == SplitBullets(ls)
  {
    var gap := TrimmedStart(ls);
    SplitSkips(gap, TrimStart(ls));
  }

  lemma JoinedSplits(category: Lines, bullets: seq<Lines>, area: Lines -> string)
    requires AllItems(bullets) && SplitBullets(category) != []
    ensures SplitBullets(NewText(category, bullets, area)) == PlaceAll(SplitBullets(category), bullets, area)
  {
    var existing := SplitBullets(category);
    NewTextJoined(category, bullets, area);
    SplitGivesItems(category);
    PlacedItems(existing, bullets, area);
    SplitJoined(PlaceAll(existing, bullets, area));
  }

  lemma AppendedSplits(category: Lines, bullets: seq<Lines>, area: Lines -> string)
    requires category != [] && AllItems(bullets) && bullets != [] && SplitBullets(category) == []
    ensures SplitBullets(NewText(category, bullets, area)) == bullets
  {
    var before := TrimEnd(category) + [""];
    NewTextAppended(category, bullets, area);
    SplitTrimStart(before + JoinBullets(bullets));
    NoBullets(category);
    SplitSkips(before, JoinBullets(bullets));
    SplitJoined(bullets);
  }

  /** The bullets of the new text: the old ones with the new ones folded in. */
  lemma NewTextSplits(category: Lines, bullets: seq<Lines>, area: Lines -> string)
    requires category != [] && AllItems(bullets) && bullets != []
    ensures SplitBullets(NewText(category, bullets, area)) == Folded(SplitBullets(category), bullets, area)
  {
    if SplitBullets(category) != [] {
      JoinedSplits(category, bullets, area);
    } else {
      AppendedSplits(category, bullets, area);
    }
  }

  lemma NoBullets(ls: Lines)
    requires SplitBullets(ls) == []
    ensures Lacks(ls, IsBullet)
  {
    var k := Find(ls, IsBullet);
    assert ls[k..] == [];
  }

  lemma NewTextLacks(category: Lines, bullets: seq<Lines>, area: Lines -> string, p: string -> bool)
    requires category != [] && AllItems(bullets) && bullets != [] && !p("") && Lacks(category, p) && AllLack(bullets, p)
    ensures Lacks(NewText(category, bullets, area), p)
  {
    var existing := SplitBullets(category);
    if existing != [] {
      NewTextJoined(category, bullets, area);
      SplitLacks(category, p);
      PlacedLack(existing, bullets, area, p);
      JoinLacks(PlaceAll(existing, bullets, area), p);
    } else {
      NewTextAppended(category, bullets, area);
      JoinLacks(bullets, p);
      AppendedLacks(category, JoinBullets(bullets), p);
    }
  }

  lemma AppendedLacks(category: Lines, joined: Lines, p: string -> bool)
    requires !p("") && Lacks(category, p) && Lacks(joined, p)
    ensures Lacks(TrimStart(TrimEnd(category) + [""] + joined), p)
  {
    var text := TrimEnd(category) + [""] + joined;
    assert Lacks(text, p);
    var gap := TrimmedStart(text);
    assert forall j :: 0 <= j < |TrimStart(text)| ==> TrimStart(text)[j] == text[|gap| + j];
  }

  // ----- the body around an existing category -----

  lemma FramedSplits(text: Lines)
    ensures SplitBullets(Framed(text)) == SplitBullets(text)
    ensures SplitBullets([""] + text) == SplitBullets(text)
  {
    SplitSkips([""], text);
    SplitSnoc([""] + text);
  }

  lemma Joined3(a: Lines, b: Lines, c: Lines, p: string -> bool)
    ensures Lacks(a + b + c, p) <==> Lacks(a, p) && Lacks(b, p) && Lacks(c, p)
  {
    LacksConcat(a + b, c, p);
    LacksConcat(a, b, p);
  }

  lemma FramedLacks(text: Lines, p: string -> bool)
    requires Lacks(text, p) && !p("")
    ensures Lacks(Framed(text), p)
  {
    Joined3([""], text, [""], p);
  }

  ghost predicate Boundary(q: Lines) { q == [] || IsCategory(q[0]) }

  /** Rejoin on a body cut at the end of its heading and at the next category. */
  lemma RejoinIs(upto: Lines, x: Lines, q: Lines, bullets: seq<Lines>, area: Lines -> string)
    requires Lacks(x, IsCategory) && Boundary(q)
    ensures Rejoin(upto, x + q, bullets, area)
      == upto + Framed(NewText(CategoryText(x, q), bullets, area)) + RestText(q)
  {
    FindConcat(x, q, IsCategory);
    assert Find(q, IsCategory) == 0;
    assert (x + q)[..|x|] == x && (x + q)[|x|..] == q;
    assert TrimStart(RestText(q)) == RestText(q);
  }

  lemma RestFacts(q: Lines, t: Section)
    requires Boundary(q)
    ensures Has(RestText(q), t) == Has(q, t) && Content(RestText(q), t) == Content(q, t)
    ensures Upto(q) == [] && Upto(RestText(q)) == if q == [] then [""] else []
  {
    if q == [] {
      FindIs([""], HeadingTest(t), 1);
      FindIs([""], IsCategory, 1);
    } else {
      FindIs(q, IsCategory, 0);
    }
  }

  /** A text framed under its heading is what the category then holds. */
  lemma FramedContent(a: Lines, h: string, text: Lines, q: Lines, s: Section)
    requires Lacks(a, HeadingTest(s)) && IsHeading(h, s) && Lacks(text, IsCategory) && Boundary(q)
    ensures Has(a + [h] + Framed(text) + q, s) && BulletsIn(a + [h] + Framed(text) + q, s) == SplitBullets(text)
    ensures Has(a + [h] + Framed(text) + RestText(q), s)
    ensures BulletsIn(a + [h] + Framed(text) + RestText(q), s) == SplitBullets(text)
  {
    FramedBullets(a, h, text, q, s);
    FramedBullets(a, h, text, RestText(q), s);
    RestFacts(q, s);
  }

  lemma FramedBullets(a: Lines, h: string, text: Lines, q: Lines, s: Section)
    requires Lacks(a, HeadingTest(s)) && IsHeading(h, s) && Lacks(text, IsCategory)
    ensures Has(a + [h] + Framed(text) + q, s)
    ensures Upto(q) == [] || Upto(q) == [""] ==> BulletsIn(a + [h] + Framed(text) + q, s) == SplitBullets(text)
  {
    var m := Framed(text);
    assert a + [h] + m + q == a + [h] + (m + q);
    ContentAt(a, h, m + q, s);
    UptoConcat(m, q);
    FramedSplits(text);
    SplitSnoc(m);
    assert m + [] == m;
  }

  ghost predicate AllClean(bullets: seq<Lines>) { AllItems(bullets) && AllLack(bullets, IsCategory) && bullets != [] }

  /** The folded category holds its old bullets with the new ones folded in. */
  lemma RejoinFolds(a: Lines, h: string, x: Lines, q: Lines, s: Section, bullets: seq<Lines>, area: Lines -> string)
    requires Lacks(a, HeadingTest(s)) && IsHeading(h, s) && Lacks(x, IsCategory) && Boundary(q) && AllClean(bullets)
    ensures var after := Rejoin(a + [h], x + q, bullets, area);
      Has(after, s) && BulletsIn(after, s) == Folded(SplitBullets(x), bullets, area)
  {
    RejoinIs(a + [h], x, q, bullets, area);
    TextUnder(x, q, bullets, area, IsCategory);
    FramedContent(a, h, NewText(CategoryText(x, q), bullets, area), q, s);
  }

  /** The new text of a category with the given content. */
  lemma TextUnder(x: Lines, q: Lines, bullets: seq<Lines>, area: Lines -> string, p: string -> bool)
    requires Lacks(x, p) && !p("") && AllItems(bullets) && AllLack(bullets, p) && bullets != []
    ensures var text := NewText(CategoryText(x, q), bullets, area);
      Lacks(text, p) && SplitBullets(text) == Folded(SplitBullets(x), bullets, area)
  {
    var category := CategoryText(x, q);
    CategoryFacts(x, q, p);
    NewTextLacks(category, bullets, area, p);
    NewTextSplits(category, bullets, area);
  }

  lemma CategoryFacts(x: Lines, q: Lines, p: string -> bool)
    requires Lacks(x, p) && !p("")
    ensures Lacks(CategoryText(x, q), p) && SplitBullets(CategoryText(x, q)) == SplitBullets(x)
  {
    Joined3([""], x, if q != [] then [""] else [], p);
    CategorySplits(x, q);
  }

  lemma CategorySplits(x: Lines, q: Lines)
    ensures SplitBullets(CategoryText(x, q)) == SplitBullets(x)
  {
    FramedSplits(x);
    assert [""] + x + [] == [""] + x;
  }

  /** Every other category is as it was. */
  lemma RejoinKeeps(a: Lines, h: string, x: Lines, q: Lines, s: Section, bullets: seq<Lines>, area: Lines -> string,
                    t: Section)
    requires IsHeading(h, s) && Lacks(x, IsCategory) && Boundary(q) && AllClean(bullets) && t != s
    ensures var after := Rejoin(a + [h], x + q, bullets, area); var before := a + [h] + x + q;
      Has(after, t) == Has(before, t) && Content(after, t) == Content(before, t)
  {
    RejoinIs(a + [h], x, q, bullets, area);
    TextUnder(x, q, bullets, area, IsCategory);
    FramedLacks(NewText(CategoryText(x, q), bullets, area), IsCategory);
    ContentSwapped(a, h, x, Framed(NewText(CategoryText(x, q), bullets, area)), q, s, t);
  }

  lemma ContentSwapped(a: Lines, h: string, x: Lines, m: Lines, q: Lines, s: Section, t: Section)
    requires IsHeading(h, s) && Lacks(x, IsCategory) && Lacks(m, IsCategory) && Boundary(q) && t != s
    ensures var after, before := a + [h] + m + RestText(q), a + [h] + x + q;
      Has(after, t) == Has(before, t) && Content(after, t) == Content(before, t)
  {
    OtherHeading(h, s, t);
    RestFacts(q, t);
    ContentAround(a, h, x, q, t);
    ContentAround(a, h, m, RestText(q), t);
  }

  lemma OtherHeading(h: string, s: Section, t: Section)
    requires IsHeading(h, s) && t != s
    ensures !IsHeading(h, t)
  {
    if IsHeading(h, t) { HeadingsDiffer(h, s, t); }
  }

  // ----- a new category -----

  lemma {:induction false} TrimKeepsContent(ls: Lines, t: Section)
    ensures Has(TrimEnd(ls), t) == Has(ls, t)
    ensures Core(Content(TrimEnd(ls), t)) == Core(Content(ls, t))
  {
    if |ls| > 1 && ls[|ls| - 1] == "" {
      var init := ls[..|ls| - 1];
      TrimKeepsContent(init, t);
      assert ls == init + [""];
      SnocKeepsContent(init, t);
    }
  }

  lemma SnocKeepsContent(ls: Lines, t: Section)
    ensures Has(ls + [""], t) == Has(ls, t)
    ensures Core(Content(ls + [""], t)) == Core(Content(ls, t))
  {
    FindIs([""], HeadingTest(t), 1);
    if Has(ls, t) {
      AfterEarlier(ls, [""], HeadingTest(t));
      UptoSnoc(AfterFirst(ls, HeadingTest(t)));
    } else {
      AfterLater(ls, [""], HeadingTest(t));
    }
  }

  lemma UptoSnoc(ls: Lines)
    ensures Core(Upto(ls + [""])) == Core(Upto(ls))
  {
    FindConcat(ls, [""], IsCategory);
    FindIs([""], IsCategory, 1);
    if Find(ls, IsCategory) == |ls| {
      assert (ls + [""])[..|ls| + 1] == ls + [""] && ls[..|ls|] == ls;
      CoreSnoc(ls);
    } else {
      assert (ls + [""])[..Find(ls, IsCategory)] == ls[..Find(ls, IsCategory)];
    }
  }

  /** Insert on a body cut where the new category goes. */
  lemma InsertIs(body: Lines, s: Section, block: Lines) returns (a: Lines, q: Lines)
    requires body != []
    ensures body == a + q && Boundary(q) && (body[0] == "" ==> a != [])
    ensures InsertCategory(body, s, block) == (TrimEnd(a + [""]) + [""]) + [HeadingOf(s)] + Framed(block) + q
  {
    var l := FirstHeading(body, SECTIONS[Rank(s) + 1..]);
    a, q := body[..l], body[l..];
    var head := TrimEnd(a + [""]);
    if l == |body| {
      assert a == body && (a + [""])[..|a|] == a;
      assert head + ["", HeadingOf(s), ""] + block + [""] == (head + [""]) + [HeadingOf(s)] + Framed(block) + q;
    } else {
      assert head + ["", HeadingOf(s), ""] + block + [""] + q == (head + [""]) + [HeadingOf(s)] + Framed(block) + q;
    }
  }

  lemma InsertFolds(body: Lines, s: Section, bullets: seq<Lines>)
    requires body != [] && !Has(body, s) && AllClean(bullets)
    ensures var after := InsertCategory(body, s, JoinBullets(bullets)); Has(after, s) && BulletsIn(after, s) == bullets
  {
    var block := JoinBullets(bullets);
    var a, q := InsertIs(body, s, block);
    HeadingFacts(s);
    JoinLacks(bullets, IsCategory);
    SplitJoined(bullets);
    HeadLacks(body, a, s);
    FramedContent(TrimEnd(a + [""]) + [""], HeadingOf(s), block, q, s);
  }

  lemma PrefixLacks(x: Lines, y: Lines, p: string -> bool)
    requires x <= y && Lacks(y, p)
    ensures Lacks(x, p)
  {
    assert y == x + y[|x|..];
    LacksConcat(x, y[|x|..], p);
  }

  lemma HeadLacks(body: Lines, a: Lines, s: Section)
    requires !Has(body, s) && a <= body
    ensures Lacks(TrimEnd(a + [""]) + [""], HeadingTest(s))
  {
    PrefixLacks(a, body, HeadingTest(s));
    LacksConcat(a, [""], HeadingTest(s));
    PrefixLacks(TrimEnd(a + [""]), a + [""], HeadingTest(s));
    LacksConcat(TrimEnd(a + [""]), [""], HeadingTest(s));
  }

  lemma InsertKeeps(body: Lines, s: Section, bullets: seq<Lines>, t: Section)
    requires body != [] && AllClean(bullets) && t != s
    ensures var after := InsertCategory(body, s, JoinBullets(bullets));
      Has(after, t) == Has(body, t) && Core(Content(after, t)) == Core(Content(body, t))
  {
    var block := JoinBullets(bullets);
    var a, q := InsertIs(body, s, block);
    var head := TrimEnd(a + [""]);
    HeadingFacts(s);
    OtherHeading(HeadingOf(s), s, t);
    JoinLacks(bullets, IsCategory);
    ContentAround(head + [""], HeadingOf(s), Framed(block), q, t);
    ContentSplit(a, q, t);
    SnocKeepsContent(head, t);
    TrimKeepsContent(a + [""], t);
    SnocKeepsContent(a, t);
  }
}
