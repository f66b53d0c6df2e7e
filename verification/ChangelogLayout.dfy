/** The layout of a category under repeated folding: the text before its first
    bullet, and the empty lines around its bullets (scripts/changelog.py). */
module ChangelogLayout {
  import opened Wrappers
  import opened Order
  import opened EntryGrammar
  import opened BulletLists
  import opened ChangelogFold
  import opened ChangelogRelease

  // ----- the lines that hold text -----

  /** The lines of a category before its first bullet. */
  function Lead(ls: Lines): Lines { ls[..Find(ls, IsBullet)] }

  /** The lines that hold text. */
  function Filled(ls: Lines): Lines {
    if ls == [] then []
    else Filled(ls[..|ls| - 1]) + if ls[|ls| - 1] != "" then [ls[|ls| - 1]] else []
  }

  lemma {:induction false} FilledConcat(a: Lines, b: Lines)
    ensures Filled(a + b) == Filled(a) + Filled(b)
  {
    if b == [] {
      assert a + b == a;
    } else {
      assert (a + b)[..|a + b| - 1] == a + b[..|b| - 1];
      FilledConcat(a, b[..|b| - 1]);
    }
  }

  lemma {:induction false} BlankFilled(ls: Lines)
    requires forall k :: 0 <= k < |ls| ==> ls[k] == ""
    ensures Filled(ls) == []
  {
    if ls != [] { BlankFilled(ls[..|ls| - 1]); }
  }

  lemma ContentUnder(a: Lines, h: string, text: Lines, r: Lines, s: Section)
    requires Lacks(a, HeadingTest(s)) && IsHeading(h, s) && Lacks(text, IsCategory)
    ensures Content(a + [h] + Framed(text) + r, s) == Framed(text) + Upto(r)
  {
    assert a + [h] + Framed(text) + r == a + [h] + (Framed(text) + r);
    ContentAt(a, h, Framed(text) + r, s);
    UptoConcat(Framed(text), r);
  }

  /** The text of a category after new bullets are folded into it, and the empty lines that follow. */
  lemma RejoinContent(body: Lines, s: Section, bullets: seq<Lines>, area: Lines -> string)
    returns (q: Lines, more: Lines)
    requires Has(body, s) && GoodBullets(bullets) && bullets != []
    ensures more == [] || more == [""]
    ensures Content(FoldCategory(body, s, bullets, area), s)
      == Framed(NewText(CategoryText(Content(body, s), q), bullets, area)) + more
  {
    var a, h, x;
    a, h, x, q := CutBody(body, s, bullets, area);
    var text := NewText(CategoryText(x, q), bullets, area);
    RejoinIs(a + [h], x, q, bullets, area);
    TextUnder(x, q, bullets, area, IsCategory);
    ContentUnder(a, h, text, RestText(q), s);
    RestFacts(q, s);
    more := Upto(RestText(q));
  }

  lemma InsertContent(body: Lines, s: Section, bullets: seq<Lines>)
    requires body != [] && !Has(body, s) && GoodBullets(bullets) && bullets != []
    ensures Content(InsertCategory(body, s, JoinBullets(bullets)), s) == Framed(JoinBullets(bullets))
  {
    var block := JoinBullets(bullets);
    var a, q := InsertIs(body, s, block);
    HeadingFacts(s);
    JoinLacks(bullets, IsCategory);
    HeadLacks(body, a, s);
    ContentUnder(TrimEnd(a + [""]) + [""], HeadingOf(s), block, q, s);
    RestFacts(q, s);
    assert Framed(block) + [] == Framed(block);
  }

  // ----- the text before the first bullet -----

  /** The text of a category before its first bullet. */
  function LeadIn(body: Lines, t: Section): Lines { Filled(Lead(Content(body, t))) }

  /** The text before the first bullet of a category is kept by a fold exactly when
      it adds nothing or the category had no bullets yet; otherwise all of it is dropped. */
  lemma LeadSurvives(body: Lines, s: Section, bullets: seq<Lines>, area: Lines -> string)
    requires body != [] && GoodBullets(bullets)
    ensures LeadIn(FoldCategory(body, s, bullets, area), s)
      == if bullets != [] && BulletsIn(body, s) != [] then [] else LeadIn(body, s)
  {
    if bullets == [] {
    } else if Has(body, s) {
      var q, more := RejoinContent(body, s, bullets, area);
      TextLead(Content(body, s), q, bullets, area);
      FramedLead(NewText(CategoryText(Content(body, s), q), bullets, area), more);
    } else {
      InsertContent(body, s, bullets);
      InsertedLead(JoinBullets(bullets), bullets);
      assert SplitBullets([]) == [] && Lead([]) == [];
    }
  }

  lemma InsertedLead(block: Lines, bullets: seq<Lines>)
    requires AllItems(bullets) && bullets != [] && block == JoinBullets(bullets)
    ensures Filled(Lead(Framed(block))) == []
  {
    JoinStarts(bullets);
    FramedLead(block, []);
    assert Framed(block) + [] == Framed(block) && Lead(block) == [];
  }

  lemma FramedLead(text: Lines, more: Lines)
    requires Find(text, IsBullet) < |text|
    ensures Filled(Lead(Framed(text) + more)) == Filled(Lead(text))
  {
    var tail := [""] + more;
    FramedMore(text, more);
    LeadBefore(text, tail);
    LeadUnder([""], text + tail);
  }

  lemma FramedMore(text: Lines, more: Lines)
    ensures Framed(text) + more == [""] + (text + ([""] + more))
  {
  }

  lemma LeadBefore(ls: Lines, more: Lines)
    requires Find(ls, IsBullet) < |ls|
    ensures Lead(ls + more) == Lead(ls)
  {
    FindConcat(ls, more, IsBullet);
  }

  /** Empty lines before a text add nothing to its lead. */
  lemma LeadUnder(gap: Lines, ls: Lines)
    requires forall k :: 0 <= k < |gap| ==> gap[k] == ""
    ensures Filled(Lead(gap + ls)) == Filled(Lead(ls))
    ensures (Find(gap + ls, IsBullet) < |gap + ls|) == (Find(ls, IsBullet) < |ls|)
  {
    FindIs(gap, IsBullet, |gap|);
    FindConcat(gap, ls, IsBullet);
    assert Lead(gap + ls) == gap + Lead(ls);
    FilledConcat(gap, Lead(ls));
    BlankFilled(gap);
  }

  lemma TextLead(x: Lines, q: Lines, bullets: seq<Lines>, area: Lines -> string)
    requires AllItems(bullets) && bullets != []
    ensures var text := NewText(CategoryText(x, q), bullets, area);
      && Find(text, IsBullet) < |text|
      && Filled(Lead(text)) == if SplitBullets(x) == [] then Filled(Lead(x)) else []
  {
    var category := CategoryText(x, q);
    CategorySplits(x, q);
    if SplitBullets(x) != [] {
      NewTextJoined(category, bullets, area);
      SplitGivesItems(category);
      PlacedItems(SplitBullets(category), bullets, area);
      JoinStarts(PlaceAll(SplitBullets(category), bullets, area));
    } else {
      NewTextAppended(category, bullets, area);
      AppendedLead(x, q, JoinBullets(bullets), bullets);
    }
  }

  lemma AppendedLead(x: Lines, q: Lines, joined: Lines, bullets: seq<Lines>)
    requires AllItems(bullets) && bullets != [] && joined == JoinBullets(bullets) && SplitBullets(x) == []
    ensures var text := TrimStart(TrimEnd(CategoryText(x, q)) + [""] + joined);
      Find(text, IsBullet) < |text| && Filled(Lead(text)) == Filled(Lead(x))
  {
    var category := CategoryText(x, q);
    var before := TrimEnd(category) + [""];
    CategorySplits(x, q);
    NoBullets(category);
    NoBullets(x);
    JoinStarts(bullets);
    LeadOfAppended(before, joined);
    var gap := TrimmedStart(before + joined);
    LeadUnder(gap, TrimStart(before + joined));
    CategoryFilled(x, q);
    assert Lead(x) == x;
  }

  lemma CategoryFilled(x: Lines, q: Lines)
    ensures Filled(TrimEnd(CategoryText(x, q)) + [""]) == Filled(x)
  {
    var category := CategoryText(x, q);
    FilledConcat(TrimEnd(category), [""]);
    FilledTrimmed(category);
    FilledConcat([""] + x, if q != [] then [""] else []);
    FilledConcat([""], x);
    BlankFilled([""]);
  }

  lemma {:induction false} FilledTrimmed(ls: Lines)
    ensures Filled(TrimEnd(ls)) == Filled(ls)
  {
    if |ls| > 1 && ls[|ls| - 1] == "" {
      FilledTrimmed(ls[..|ls| - 1]);
    }
  }

  lemma LeadOfAppended(before: Lines, joined: Lines)
    requires Lacks(before, IsBullet) && joined != [] && IsBullet(joined[0])
    ensures Find(before + joined, IsBullet) < |before + joined| && Lead(before + joined) == before
  {
    assert Find(joined, IsBullet) == 0;
    FindConcat(before, joined, IsBullet);
  }

  lemma LeadSnoc(ls: Lines)
    ensures Filled(Lead(ls + [""])) == Filled(Lead(ls))
  {
    if Find(ls, IsBullet) < |ls| {
      LeadBefore(ls, [""]);
    } else {
      FindConcat(ls, [""], IsBullet);
      FindIs([""], IsBullet, 1);
      assert Lead(ls + [""]) == ls + [""] && Lead(ls) == ls;
      FilledConcat(ls, [""]);
      BlankFilled([""]);
    }
  }

  lemma {:induction false} LeadCore(ls: Lines)
    ensures Filled(Lead(Core(ls))) == Filled(Lead(ls))
  {
    if ls != [] && ls[|ls| - 1] == "" {
      LeadCore(ls[..|ls| - 1]);
      LeadSnoc(ls[..|ls| - 1]);
      assert ls == ls[..|ls| - 1] + [""];
    }
  }

  lemma SameLead(before: Lines, after: Lines, t: Section)
    requires SameCategory(before, after, t)
    ensures LeadIn(after, t) == LeadIn(before, t)
  {
    LeadCore(Content(after, t));
    LeadCore(Content(before, t));
  }

  // ----- empty lines -----

  /** One empty line after the heading and between any two bullets, and nothing
      else but the bullets and empty lines at the end. */
  ghost predicate Tidy(body: Lines, t: Section) {
    BulletsIn(body, t) != [] && Core(Content(body, t)) == [""] + JoinBullets(BulletsIn(body, t))
  }

  lemma SameTidy(before: Lines, after: Lines, t: Section)
    requires SameCategory(before, after, t)
    ensures Tidy(after, t) <==> Tidy(before, t)
  {
    SameBullets(before, after, t);
  }

  lemma CoreEnds(ls: Lines)
    requires ls != [] && ls[|ls| - 1] != ""
    ensures Core([""] + ls) == [""] + ls && Core(Framed(ls)) == [""] + ls && Core(Framed(ls) + [""]) == [""] + ls
  {
    assert ([""] + ls)[|ls|] != "";
    CoreSnoc([""] + ls);
    CoreSnoc(Framed(ls));
  }

  lemma NewTextEnds(x: Lines, q: Lines, bullets: seq<Lines>, area: Lines -> string)
    requires AllItems(bullets) && bullets != []
    ensures var text := NewText(CategoryText(x, q), bullets, area);
      text != [] && text[0] != "" && text[|text| - 1] != ""
  {
    var category := CategoryText(x, q);
    CategorySplits(x, q);
    if SplitBullets(x) != [] {
      var all := PlaceAll(SplitBullets(category), bullets, area);
      NewTextJoined(category, bullets, area);
      SplitGivesItems(category);
      PlacedItems(SplitBullets(category), bullets, area);
      JoinStarts(all);
      JoinEnds(all);
    } else {
      NewTextAppended(category, bullets, area);
      JoinEnds(bullets);
      TrimStartSnoc(TrimEnd(category) + [""] + JoinBullets(bullets));
      TrimStarts(TrimEnd(category) + [""] + JoinBullets(bullets));
    }
  }

  lemma {:induction false} TrimStarts(ls: Lines)
    requires ls != [] && ls[|ls| - 1] != ""
    ensures TrimStart(ls) != [] && TrimStart(ls)[0] != ""
  {
    if |ls| > 1 && ls[0] == "" { TrimStarts(ls[1..]); }
  }

  /** A text without empty lines at its start that has no text before its first bullet starts with it. */
  lemma LeadOfText(text: Lines)
    requires text != [] && text[0] != "" && Filled(Lead(text)) == []
    ensures IsBullet(text[0])
  {
    if !IsBullet(text[0]) {
      var lead := Lead(text);
      assert lead == [text[0]] + lead[1..];
      FilledConcat([text[0]], lead[1..]);
    }
  }

  /** The new text is the joined bullets and nothing else exactly when there were
      bullets, or nothing at all. */
  lemma TextTidy(x: Lines, q: Lines, bullets: seq<Lines>, area: Lines -> string)
    requires AllItems(bullets) && bullets != []
    ensures NewText(CategoryText(x, q), bullets, area) == JoinBullets(Folded(SplitBullets(x), bullets, area))
      <==> SplitBullets(x) != [] || Filled(Lead(x)) == []
  {
    CategorySplits(x, q);
    if SplitBullets(x) != [] {
      NewTextJoined(CategoryText(x, q), bullets, area);
    } else {
      FirstTextTidy(x, q, bullets, area);
    }
  }

  lemma FirstTextTidy(x: Lines, q: Lines, bullets: seq<Lines>, area: Lines -> string)
    requires AllItems(bullets) && bullets != [] && SplitBullets(x) == []
    ensures NewText(CategoryText(x, q), bullets, area) == JoinBullets(bullets) <==> Filled(Lead(x)) == []
  {
    var category := CategoryText(x, q);
    TextLead(x, q, bullets, area);
    JoinStarts(bullets);
    if Filled(Lead(x)) == [] {
      NewTextEnds(x, q, bullets, area);
      LeadOfText(NewText(category, bullets, area));
      CategorySplits(x, q);
      NewTextAppended(category, bullets, area);
      NoBullets(category);
      StartsThere(TrimEnd(category) + [""], JoinBullets(bullets));
    }
  }

  lemma StartsThere(before: Lines, joined: Lines)
    requires Lacks(before, IsBullet) && joined != [] && IsBullet(joined[0])
    requires var text := TrimStart(before + joined); text != [] && IsBullet(text[0])
    ensures TrimStart(before + joined) == joined
  {
    var all := before + joined;
    var gap := TrimmedStart(all);
    LeadOfAppended(before, joined);
    LeadOfAppended(gap, TrimStart(all));
    assert all == gap + TrimStart(all) && |gap| == |before|;
    assert all[|before|..] == joined && all[|gap|..] == TrimStart(all);
  }

  /** A category whose content is a framed text is tidy exactly when the text is its bullets joined. */
  lemma FramedTidy(body: Lines, t: Section, text: Lines)
    requires Content(body, t) == Framed(text) || Content(body, t) == Framed(text) + [""]
    requires text != [] && text[|text| - 1] != "" && BulletsIn(body, t) != []
    ensures Tidy(body, t) <==> text == JoinBullets(BulletsIn(body, t))
  {
    CoreEnds(text);
    CutHead(text, JoinBullets(BulletsIn(body, t)));
  }

  lemma NoMore(ls: Lines, more: Lines)
    requires more == [] || more == [""]
    ensures ls + more == ls || ls + more == ls + [""]
  {
    if more == [] { assert ls + more == ls; }
  }

  lemma RejoinTidies(body: Lines, s: Section, bullets: seq<Lines>, area: Lines -> string)
    requires Has(body, s) && GoodBullets(bullets) && bullets != []
    requires BulletsIn(FoldCategory(body, s, bullets, area), s) == Folded(BulletsIn(body, s), bullets, area) != []
    ensures Tidy(FoldCategory(body, s, bullets, area), s) <==> BulletsIn(body, s) != [] || LeadIn(body, s) == []
  {
    var q, more := RejoinContent(body, s, bullets, area);
    var text := NewText(CategoryText(Content(body, s), q), bullets, area);
    NewTextEnds(Content(body, s), q, bullets, area);
    NoMore(Framed(text), more);
    FramedTidy(FoldCategory(body, s, bullets, area), s, text);
    TextTidy(Content(body, s), q, bullets, area);
  }

  lemma InsertTidies(body: Lines, s: Section, bullets: seq<Lines>)
    requires body != [] && !Has(body, s) && GoodBullets(bullets) && bullets != []
    ensures Tidy(InsertCategory(body, s, JoinBullets(bullets)), s)
  {
    InsertFolds(body, s, bullets);
    InsertContent(body, s, bullets);
    BlockTidy(InsertCategory(body, s, JoinBullets(bullets)), s, JoinBullets(bullets), bullets);
  }

  lemma BlockTidy(body: Lines, s: Section, block: Lines, bullets: seq<Lines>)
    requires AllItems(bullets) && bullets != [] && block == JoinBullets(bullets)
    requires Content(body, s) == Framed(block) && BulletsIn(body, s) == bullets
    ensures Tidy(body, s)
  {
    BlockEnds(block, bullets);
    FramedTidy(body, s, block);
  }

  lemma BlockEnds(block: Lines, bullets: seq<Lines>)
    requires AllItems(bullets) && bullets != [] && block == JoinBullets(bullets)
    ensures block != [] && block[|block| - 1] != ""
  {
    JoinEnds(bullets);
  }

  /** New bullets leave a category tidy exactly when it had bullets, or no text. */
  lemma FoldTidies(body: Lines, s: Section, bullets: seq<Lines>, area: Lines -> string)
    requires body != [] && GoodBullets(bullets) && bullets != []
    ensures Tidy(FoldCategory(body, s, bullets, area), s) <==> BulletsIn(body, s) != [] || LeadIn(body, s) == []
  {
    if Has(body, s) {
      CategoryFolded(body, s, bullets, area);
      FoldedNotEmpty(BulletsIn(body, s), bullets, area);
      RejoinTidies(body, s, bullets, area);
    } else {
      InsertTidies(body, s, bullets);
      assert Lead([]) == [];
    }
  }

  lemma FoldedNotEmpty(old_: seq<Lines>, more: seq<Lines>, area: Lines -> string)
    requires more != []
    ensures Folded(old_, more, area) != []
  {
    var at := FoldedIsAdditive(old_, more, area);
    assert more[0] in multiset(Folded(old_, more, area));
  }

  lemma CutHead(a: Lines, b: Lines)
    ensures [""] + a == [""] + b <==> a == b
  {
    assert ([""] + a)[1..] == a && ([""] + b)[1..] == b;
  }

  // ----- any number of folds -----

  /** What a whole fold does to the layout of a category: new bullets drop the text
      before old ones and leave the category tidy if there were any, or no text; a
      category that gets none is as it was. */
  lemma FoldLayout(body: Lines, picks: Picks, area: Lines -> string, followed: bool, t: Section)
    requires IsBody(body, followed) && GoodPicks(picks)
    ensures var after := FoldBody(body, |SECTIONS|, picks, area);
      && LeadIn(after, t) == (if picks(t) != [] && BulletsIn(body, t) != [] then [] else LeadIn(body, t))
      && (Tidy(after, t) <==>
          if picks(t) == [] then Tidy(body, t) else BulletsIn(body, t) != [] || LeadIn(body, t) == [])
  {
    var mid := FoldedOnce(body, picks, area, followed, t);
    var after := FoldCategory(mid, t, picks(t), area);
    SameBullets(body, mid, t);
    SameLead(body, mid, t);
    SameTidy(body, mid, t);
    LeadSurvives(mid, t, picks(t), area);
    if picks(t) != [] { FoldTidies(mid, t, picks(t), area); }
    SameLead(after, FoldBody(body, |SECTIONS|, picks, area), t);
    SameTidy(after, FoldBody(body, |SECTIONS|, picks, area), t);
  }

  /** A category of the release, as far as its layout goes: whether it has bullets,
      the text before them, and whether it is tidy. */
  datatype Layout = Layout(some: bool, lead: Lines, tidy: bool)

  ghost function LayoutOf(doc: Lines, version: string, t: Section): Layout {
    var body := SectionBody(doc, version);
    Layout(BulletsIn(body, t) != [], LeadIn(body, t), Tidy(body, t))
  }

  ghost function LayoutsOf(docs: seq<Lines>, version: string, t: Section): (ls: seq<Layout>)
    ensures |ls| == |docs| && forall i {:trigger ls[i]} :: 0 <= i < |docs| ==> ls[i] == LayoutOf(docs[i], version, t)
  {
    seq(|docs|, i requires 0 <= i < |docs| => LayoutOf(docs[i], version, t))
  }

  /** One round, with or without new bullets. */
  predicate NextLayout(v: Layout, w: Layout, adds: bool) {
    && w.some == (v.some || adds)
    && w.lead == (if adds && v.some then [] else v.lead)
    && w.tidy == (if adds then v.some || v.lead == [] else v.tidy)
  }

  lemma RoundLayout(doc: Lines, now: Lines, version: string, picks: Picks, area: Lines -> string, t: Section)
    requires GoodPicks(picks) && Fold(doc, version, picks, area) == Some(now)
    ensures NextLayout(LayoutOf(doc, version, t), LayoutOf(now, version, t), picks(t) != [])
  {
    FoldInPlace(doc, version, picks, area);
    FoldLayout(SectionBody(doc, version), picks, area, Outside(doc, version).1 != [], t);
    BodyFolded(SectionBody(doc, version), picks, area, Outside(doc, version).1 != [], t);
    if picks(t) != [] {
      FoldedNotEmpty(BulletsOf(doc, version, t), picks(t), area);
    } else {
      assert Folded(BulletsOf(doc, version, t), [], area) == BulletsOf(doc, version, t);
    }
  }

  /** Each layout comes from the one before it; `adds` says which rounds have new bullets. */
  ghost predicate Layouts(ls: seq<Layout>, adds: seq<bool>) {
    && |ls| == |adds| + 1
    && forall i {:trigger adds[i]} :: 0 <= i < |adds| ==> NextLayout(ls[i], ls[i + 1], adds[i])
  }

  ghost predicate AddsToSome(ls: seq<Layout>, adds: seq<bool>, i: nat)
    requires |ls| == |adds| + 1 && i < |adds|
  {
    adds[i] && ls[i].some
  }

  lemma {:induction false} LeadStays(ls: seq<Layout>, adds: seq<bool>, n: nat)
    requires Layouts(ls, adds) && n <= |adds|
    ensures ls[n].lead == if exists i {:trigger AddsToSome(ls, adds, i)} :: 0 <= i < n && AddsToSome(ls, adds, i)
      then [] else ls[0].lead
  {
    if n > 0 {
      LeadStays(ls, adds, n - 1);
      assert NextLayout(ls[n - 1], ls[n], adds[n - 1]);
      assert adds[n - 1] && ls[n - 1].some <==> AddsToSome(ls, adds, n - 1);
    }
  }

  lemma {:induction false} TidyStays(ls: seq<Layout>, adds: seq<bool>, i: nat, n: nat)
    requires Layouts(ls, adds) && i <= n <= |adds| && ls[i].tidy && ls[i].some
    ensures ls[n].tidy && ls[n].some
    decreases n - i
  {
    if i < n {
      TidyStays(ls, adds, i, n - 1);
      assert NextLayout(ls[n - 1], ls[n], adds[n - 1]);
    }
  }

  lemma TidyFrom(ls: seq<Layout>, adds: seq<bool>, i: nat, n: nat)
    requires Layouts(ls, adds) && i < n <= |adds| && adds[i] && (ls[i].some || ls[i].lead == [])
    ensures ls[n].tidy
  {
    assert NextLayout(ls[i], ls[i + 1], adds[i]);
    TidyStays(ls, adds, i + 1, n);
  }

  /** Which rounds have new bullets for the category. */
  function AddsFor(rounds: seq<Picks>, t: Section): (adds: seq<bool>)
    ensures |adds| == |rounds| && forall i {:trigger adds[i]} :: 0 <= i < |rounds| ==> adds[i] == (rounds[i](t) != [])
  {
    seq(|rounds|, i requires 0 <= i < |rounds| => rounds[i](t) != [])
  }

  lemma RoundsLayout(docs: seq<Lines>, version: string, rounds: seq<Picks>, area: Lines -> string, t: Section)
    requires Rounds(docs, version, rounds, area)
    ensures Layouts(LayoutsOf(docs, version, t), AddsFor(rounds, t))
  {
    var ls, adds := LayoutsOf(docs, version, t), AddsFor(rounds, t);
    forall i | 0 <= i < |adds| ensures NextLayout(ls[i], ls[i + 1], adds[i]) {
      assert Step(docs, version, rounds, area, i);
      RoundLayout(docs[i], docs[i + 1], version, rounds[i], area, t);
    }
  }

  /** Over any number of rounds the text before the first bullet of a category is
      dropped by the first that adds to bullets already there, and kept until then. */
  lemma LeadAlong(docs: seq<Lines>, version: string, rounds: seq<Picks>, area: Lines -> string, t: Section, n: nat)
    requires Rounds(docs, version, rounds, area) && n <= |rounds|
    ensures var ls, adds := LayoutsOf(docs, version, t), AddsFor(rounds, t);
      ls[n].lead == if exists i {:trigger AddsToSome(ls, adds, i)} :: 0 <= i < n && AddsToSome(ls, adds, i)
        then [] else ls[0].lead
  {
    RoundsLayout(docs, version, rounds, area, t);
    LeadStays(LayoutsOf(docs, version, t), AddsFor(rounds, t), n);
  }

  /** Empty lines do not pile up: from the first round that adds to a category with
      bullets, or with no text, it is tidy after every number of further rounds. */
  lemma FoldsStayTidy(docs: seq<Lines>, version: string, rounds: seq<Picks>, area: Lines -> string, t: Section,
                      i: nat, n: nat)
    requires Rounds(docs, version, rounds, area) && i < n <= |rounds|
    requires var v := LayoutsOf(docs, version, t)[i]; AddsFor(rounds, t)[i] && (v.some || v.lead == [])
    ensures LayoutsOf(docs, version, t)[n].tidy
  {
    RoundsLayout(docs, version, rounds, area, t);
    TidyFrom(LayoutsOf(docs, version, t), AddsFor(rounds, t), i, n);
  }
}
