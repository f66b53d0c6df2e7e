/** Folding into a release section again and again: what a fold does to the
    bullets, to the other categories and to the rest of the file
    (`section_bounds`, `fold_entries` and `render_bullet` in
    scripts/changelog.py). */
module ChangelogRelease {
  import opened Wrappers
  import opened Order
  import opened EntryGrammar
  import opened BulletLists
  import opened ChangelogFold

  /** The new bullets of each category, in the order they are added. */
  type Picks = Section -> seq<Lines>

  /** Bullets that are one list item each and hold no heading line. */
  ghost predicate GoodBullets(bs: seq<Lines>) {
    AllItems(bs) && AllLack(bs, IsCategory) && AllLack(bs, IsRelease)
  }

  ghost predicate GoodPicks(picks: Picks) { forall s :: GoodBullets(picks(s)) }

  // ----- one category -----

  /** What a fold leaves alone in a category: its text up to empty lines at its end. */
  ghost predicate SameCategory(before: Lines, after: Lines, t: Section) {
    Has(after, t) == Has(before, t) && Core(Content(after, t)) == Core(Content(before, t))
  }

  lemma SameBullets(before: Lines, after: Lines, t: Section)
    requires SameCategory(before, after, t)
    ensures BulletsIn(after, t) == BulletsIn(before, t)
  {
    SplitCore(Content(after, t));
    SplitCore(Content(before, t));
  }

  lemma CutAround(ls: Lines, p: string -> bool) returns (a: Lines, h: string, r: Lines)
    requires Find(ls, p) < |ls|
    ensures ls == a + [h] + r && Lacks(a, p) && p(h) && |a| == Find(ls, p) && AfterFirst(ls, p) == r
  {
    var c := Find(ls, p);
    a, h, r := ls[..c], ls[c], ls[c + 1..];
  }

  lemma CutPoints(a: Lines, h: string, r: Lines)
    ensures (a + [h] + r)[..|a| + 1] == a + [h] && (a + [h] + r)[|a| + 1..] == r
  {
  }

  /** A body that holds the heading, cut around the category, and what folding makes of it. */
  lemma CutBody(body: Lines, s: Section, bullets: seq<Lines>, area: Lines -> string)
    returns (a: Lines, h: string, x: Lines, q: Lines)
    requires Has(body, s) && bullets != []
    ensures body == a + [h] + x + q && Lacks(a, HeadingTest(s)) && IsHeading(h, s)
    ensures Lacks(x, IsCategory) && Boundary(q) && Content(body, s) == x
    ensures FoldCategory(body, s, bullets, area) == Rejoin(a + [h], x + q, bullets, area)
  {
    var r;
    a, h, r := CutAround(body, HeadingTest(s));
    x, q := CutBefore(r, IsCategory);
    CutPoints(a, h, r);
    Regrouped(a, h, x, q);
  }

  lemma Regrouped(a: Lines, h: string, x: Lines, q: Lines)
    ensures a + [h] + (x + q) == a + [h] + x + q
  {
  }

  /** Folding into a category folds into its bullets. */
  lemma CategoryFolded(body: Lines, s: Section, bullets: seq<Lines>, area: Lines -> string)
    requires body != [] && GoodBullets(bullets)
    ensures BulletsIn(FoldCategory(body, s, bullets, area), s) == Folded(BulletsIn(body, s), bullets, area)
  {
    if bullets == [] {
    } else if Has(body, s) {
      var a, h, x, q := CutBody(body, s, bullets, area);
      RejoinFolds(a, h, x, q, s, bullets, area);
    } else {
      InsertFolds(body, s, bullets);
      assert SplitBullets([]) == [];
    }
  }

  /** Folding into a category keeps the text of every other. */
  lemma OthersKept(body: Lines, s: Section, bullets: seq<Lines>, area: Lines -> string, t: Section)
    requires body != [] && GoodBullets(bullets) && t != s
    ensures SameCategory(body, FoldCategory(body, s, bullets, area), t)
  {
    if bullets == [] {
    } else if Has(body, s) {
      var a, h, x, q := CutBody(body, s, bullets, area);
      RejoinKeeps(a, h, x, q, s, bullets, area, t);
    } else {
      InsertKeeps(body, s, bullets, t);
    }
  }

  // ----- the whole body -----

  /** The loop of fold_entries over the first `k` categories in order. */
  function FoldBody(body: Lines, k: nat, picks: Picks, area: Lines -> string): (after: Lines)
    requires k <= |SECTIONS|
    ensures body != [] ==> after != []
  {
    if k == 0 then body
    else FoldCategory(FoldBody(body, k - 1, picks, area), SECTIONS[k - 1], picks(SECTIONS[k - 1]), area)
  }

  // ----- the release section in the file -----

  /** A `## ` line. */
  predicate IsRelease(line: string) { |line| >= 3 && line[0] == '#' && line[1] == '#' && line[2] == ' ' }

  /** A body as section_bounds cuts it: it starts at the end of a line, holds no
      release heading and, if a release follows, ends at the start of one. */
  ghost predicate IsBody(body: Lines, followed: bool) {
    && body != [] && body[0] == "" && (followed ==> |body| > 1 && body[|body| - 1] == "")
    && Lacks(body, IsRelease)
  }

  lemma InsertStaysBody(body: Lines, s: Section, bullets: seq<Lines>, followed: bool)
    requires IsBody(body, followed) && GoodBullets(bullets)
    ensures IsBody(InsertCategory(body, s, JoinBullets(bullets)), followed)
  {
    var block := JoinBullets(bullets);
    var a, q := InsertIs(body, s, block);
    var head := TrimEnd(a + [""]);
    JoinLacks(bullets, IsRelease);
    FramedLacks(block, IsRelease);
    HeadingIsNoRelease(s);
    LacksConcat(a, q, IsRelease);
    LacksConcat(a, [""], IsRelease);
    BodyOf(head + [""] + [HeadingOf(s)], Framed(block), q, followed);
  }

  /** A new body has the first line of the old one and what follows it, if anything does. */
  lemma BodyOf(upto: Lines, m: Lines, q: Lines, followed: bool)
    requires upto != [] && upto[0] == "" && m != [] && m[|m| - 1] == ""
    requires Lacks(upto, IsRelease) && Lacks(m, IsRelease) && Lacks(q, IsRelease)
    requires followed && q != [] ==> q[|q| - 1] == ""
    ensures IsBody(upto + m + q, followed)
  {
    Joined3(upto, m, q, IsRelease);
    var after := upto + m + q;
    assert after[|after| - 1] == if q != [] then q[|q| - 1] else m[|m| - 1];
  }

  lemma HeadingIsNoRelease(s: Section)
    ensures !IsRelease(HeadingOf(s))
  {
    HeadingFacts(s);
  }

  lemma TextStaysInside(x: Lines, q: Lines, bullets: seq<Lines>, area: Lines -> string)
    requires Lacks(x, IsRelease) && GoodBullets(bullets) && bullets != []
    ensures Lacks(Framed(NewText(CategoryText(x, q), bullets, area)), IsRelease)
  {
    TextUnder(x, q, bullets, area, IsRelease);
    FramedLacks(NewText(CategoryText(x, q), bullets, area), IsRelease);
  }

  lemma RejoinStaysBody(a: Lines, h: string, x: Lines, q: Lines, bullets: seq<Lines>, area: Lines -> string,
                        followed: bool)
    requires IsBody(a + [h] + x + q, followed) && h != "" && GoodBullets(bullets) && bullets != []
    requires Lacks(x, IsCategory) && Boundary(q)
    ensures IsBody(Rejoin(a + [h], x + q, bullets, area), followed)
  {
    RejoinIs(a + [h], x, q, bullets, area);
    Joined3(a + [h], x, q, IsRelease);
    TextStaysInside(x, q, bullets, area);
    SwapStaysBody(a + [h], x, Framed(NewText(CategoryText(x, q), bullets, area)), q, followed);
  }

  lemma SwapStaysBody(upto: Lines, x: Lines, m: Lines, q: Lines, followed: bool)
    requires IsBody(upto + x + q, followed) && upto != []
    requires Lacks(upto, IsRelease) && Lacks(m, IsRelease) && Lacks(q, IsRelease) && m != [] && m[|m| - 1] == ""
    ensures IsBody(upto + m + RestText(q), followed)
  {
    var body := upto + x + q;
    assert body[0] == upto[0];
    assert q != [] ==> q[|q| - 1] == body[|body| - 1];
    BodyOf(upto, m, RestText(q), followed);
  }

  lemma CategoryStaysBody(body: Lines, s: Section, bullets: seq<Lines>, area: Lines -> string, followed: bool)
    requires IsBody(body, followed) && GoodBullets(bullets)
    ensures IsBody(FoldCategory(body, s, bullets, area), followed)
  {
    if bullets == [] {
    } else if Has(body, s) {
      var a, h, x, q := CutBody(body, s, bullets, area);
      RejoinStaysBody(a, h, x, q, bullets, area, followed);
    } else {
      InsertStaysBody(body, s, bullets, followed);
    }
  }

  // ----- every category in turn -----

  /** The body before and after each category has been folded into. */
  ghost predicate Stage(bodies: seq<Lines>, picks: Picks, area: Lines -> string, k: nat)
    requires k < |SECTIONS| < |bodies|
  {
    bodies[k + 1] == FoldCategory(bodies[k], SECTIONS[k], picks(SECTIONS[k]), area)
  }

  ghost predicate Stages(bodies: seq<Lines>, picks: Picks, area: Lines -> string) {
    && |bodies| == |SECTIONS| + 1
    && forall k {:trigger Stage(bodies, picks, area, k)} :: 0 <= k < |SECTIONS| ==> Stage(bodies, picks, area, k)
  }

  lemma FoldStages(body: Lines, picks: Picks, area: Lines -> string) returns (bodies: seq<Lines>)
    ensures Stages(bodies, picks, area)
    ensures bodies[0] == body && bodies[|SECTIONS|] == FoldBody(body, |SECTIONS|, picks, area)
  {
    bodies := BodiesOf(body, picks, area);
    forall k | 0 <= k < |SECTIONS| ensures Stage(bodies, picks, area, k) {
      FoldNext(body, k, picks, area);
    }
  }

  ghost function BodiesOf(body: Lines, picks: Picks, area: Lines -> string): (bodies: seq<Lines>)
    ensures |bodies| == |SECTIONS| + 1
    ensures forall k {:trigger bodies[k]} :: 0 <= k <= |SECTIONS| ==> bodies[k] == FoldBody(body, k, picks, area)
  {
    seq(|SECTIONS| + 1, k requires 0 <= k <= |SECTIONS| => FoldBody(body, k, picks, area))
  }

  lemma FoldNext(body: Lines, k: nat, picks: Picks, area: Lines -> string)
    requires k < |SECTIONS|
    ensures FoldBody(body, k + 1, picks, area)
      == FoldCategory(FoldBody(body, k, picks, area), SECTIONS[k], picks(SECTIONS[k]), area)
  {
  }

  lemma StageStaysBody(bodies: seq<Lines>, picks: Picks, area: Lines -> string, k: nat, followed: bool)
    requires Stages(bodies, picks, area) && k < |SECTIONS| && IsBody(bodies[k], followed) && GoodPicks(picks)
    ensures IsBody(bodies[k + 1], followed)
  {
    assert Stage(bodies, picks, area, k);
    CategoryStaysBody(bodies[k], SECTIONS[k], picks(SECTIONS[k]), area, followed);
  }

  lemma {:induction false} StagesStayBody(bodies: seq<Lines>, picks: Picks, area: Lines -> string, k: nat,
                                          followed: bool)
    requires Stages(bodies, picks, area) && k <= |SECTIONS| && IsBody(bodies[0], followed) && GoodPicks(picks)
    ensures IsBody(bodies[k], followed)
  {
    if k > 0 {
      StagesStayBody(bodies, picks, area, k - 1, followed);
      StageStaysBody(bodies, picks, area, k - 1, followed);
    }
  }

  lemma RankUnique(k: nat)
    requires k < |SECTIONS|
    ensures Rank(SECTIONS[k]) == k
  {
  }

  lemma StageKeeps(bodies: seq<Lines>, picks: Picks, area: Lines -> string, k: nat, t: Section)
    requires Stages(bodies, picks, area) && k < |SECTIONS| && bodies[k] != [] && GoodPicks(picks) && Rank(t) != k
    ensures SameCategory(bodies[k], bodies[k + 1], t)
  {
    var s := SECTIONS[k];
    RankUnique(k);
    assert Stage(bodies, picks, area, k);
    OthersKept(bodies[k], s, picks(s), area, t);
  }

  /** A category is as it was as long as no stage folds into it. */
  lemma {:induction false} StagesKeep(bodies: seq<Lines>, picks: Picks, area: Lines -> string, j: nat, k: nat,
                                      followed: bool, t: Section)
    requires Stages(bodies, picks, area) && j <= k <= |SECTIONS| && IsBody(bodies[0], followed) && GoodPicks(picks)
    requires Rank(t) < j || k <= Rank(t)
    ensures SameCategory(bodies[j], bodies[k], t)
    decreases k - j
  {
    if j < k {
      StagesKeep(bodies, picks, area, j, k - 1, followed, t);
      StagesStayBody(bodies, picks, area, k - 1, followed);
      StageKeeps(bodies, picks, area, k - 1, t);
    }
  }

  lemma StageFolds(bodies: seq<Lines>, picks: Picks, area: Lines -> string, followed: bool, t: Section)
    requires Stages(bodies, picks, area) && IsBody(bodies[0], followed) && GoodPicks(picks)
    ensures bodies[Rank(t)] != [] && SameCategory(bodies[0], bodies[Rank(t)], t)
    ensures SameCategory(FoldCategory(bodies[Rank(t)], t, picks(t), area), bodies[|SECTIONS|], t)
  {
    var k := Rank(t);
    assert Stage(bodies, picks, area, k);
    StagesStayBody(bodies, picks, area, k, followed);
    StagesKeep(bodies, picks, area, 0, k, followed, t);
    StagesKeep(bodies, picks, area, k + 1, |SECTIONS|, followed, t);
  }

  /** The whole fold does to a category what folding into it alone does. */
  lemma FoldedOnce(body: Lines, picks: Picks, area: Lines -> string, followed: bool, t: Section) returns (mid: Lines)
    requires IsBody(body, followed) && GoodPicks(picks)
    ensures mid != [] && SameCategory(body, mid, t)
    ensures SameCategory(FoldCategory(mid, t, picks(t), area), FoldBody(body, |SECTIONS|, picks, area), t)
  {
    var bodies := FoldStages(body, picks, area);
    StageFolds(bodies, picks, area, followed, t);
    mid := bodies[Rank(t)];
  }

  lemma FoldStaysBody(body: Lines, picks: Picks, area: Lines -> string, followed: bool)
    requires IsBody(body, followed) && GoodPicks(picks)
    ensures IsBody(FoldBody(body, |SECTIONS|, picks, area), followed)
  {
    var bodies := FoldStages(body, picks, area);
    StagesStayBody(bodies, picks, area, |SECTIONS|, followed);
  }

  /** After the fold every category holds its old bullets with the new ones folded in. */
  lemma BodyFolded(body: Lines, picks: Picks, area: Lines -> string, followed: bool, t: Section)
    requires IsBody(body, followed) && GoodPicks(picks)
    ensures BulletsIn(FoldBody(body, |SECTIONS|, picks, area), t) == Folded(BulletsIn(body, t), picks(t), area)
  {
    var mid := FoldedOnce(body, picks, area, followed, t);
    var after := FoldCategory(mid, t, picks(t), area);
    SameBullets(body, mid, t);
    CategoryFolded(mid, t, picks(t), area);
    SameBullets(after, FoldBody(body, |SECTIONS|, picks, area), t);
  }

  // ----- the file -----

  /** The section heading section_bounds looks for. */
  function ReleaseTest(version: string): string -> bool { (line: string) => StartsRelease(line, "[" + version + "]") }

  predicate StartsRelease(line: string, tag: string) {
    IsRelease(line) && |line| >= 3 + |tag| && line[3..3 + |tag|] == tag
  }

  /** First line after the section that starts at `h`. */
  function SectionEnd(doc: Lines, h: nat): (f: nat)
    requires h < |doc|
    ensures h < f <= |doc|
  {
    h + 1 + Find(doc[h + 1..], IsRelease)
  }

  /** The text between the two bounds. */
  function Body(doc: Lines, h: nat): Lines
    requires h < |doc|
  {
    var f := SectionEnd(doc, h);
    [""] + doc[h + 1..f] + (if f < |doc| then [""] else [])
  }

  /** The text with another body between the bounds. */
  function Splice(doc: Lines, h: nat, body: Lines): Lines
    requires h < |doc| && body != []
  {
    var f := SectionEnd(doc, h);
    Concat(Concat(doc[..h + 1], body), if f < |doc| then doc[f..] else [""])
  }

  /** `fold_entries`; `None` is its ValueError. */
  function Fold(doc: Lines, version: string, picks: Picks, area: Lines -> string): Option<Lines> {
    var h := Find(doc, ReleaseTest(version));
    if h == |doc| then None
    else Some(Splice(doc, h, FoldBody(Body(doc, h), |SECTIONS|, picks, area)))
  }

  /** A file cut around the release section: its heading line, the lines of the
      section and the rest, which starts with the next release or is empty. */
  ghost predicate Cut(doc: Lines, a: Lines, h: string, mid: Lines, rest: Lines, version: string) {
    && doc == a + [h] + mid + rest
    && Lacks(a, ReleaseTest(version)) && StartsRelease(h, "[" + version + "]")
    && Lacks(mid, IsRelease) && (rest == [] || IsRelease(rest[0]))
  }

  lemma CutFile(doc: Lines, version: string) returns (a: Lines, h: string, mid: Lines, rest: Lines)
    requires Find(doc, ReleaseTest(version)) < |doc|
    ensures Cut(doc, a, h, mid, rest, version)
  {
    var r;
    a, h, r := CutAround(doc, ReleaseTest(version));
    mid, rest := CutBefore(r, IsRelease);
    Regrouped(a, h, mid, rest);
  }

  function BodyOfCut(mid: Lines, rest: Lines): Lines { [""] + mid + (if rest != [] then [""] else []) }

  /** The cut is where the bounds are. */
  lemma CutBounds(doc: Lines, a: Lines, h: string, mid: Lines, rest: Lines, version: string)
    requires Cut(doc, a, h, mid, rest, version)
    ensures Find(doc, ReleaseTest(version)) == |a| < |doc| && SectionEnd(doc, |a|) == |a| + 1 + |mid|
    ensures Body(doc, |a|) == BodyOfCut(mid, rest) && IsBody(Body(doc, |a|), rest != [])
  {
    var r := mid + rest;
    assert doc == a + [h] + r;
    assert doc[..|a|] == a && doc[|a| + 1..] == r;
    FindIs(doc, ReleaseTest(version), |a|);
    FindConcat(mid, rest, IsRelease);
    assert Find(rest, IsRelease) == 0;
    assert doc[|a| + 1..|a| + 1 + |mid|] == mid;
    Joined3([""], mid, if rest != [] then [""] else [], IsRelease);
  }

  lemma BodyInside(body: Lines, rest: Lines) returns (mid: Lines)
    requires IsBody(body, rest != [])
    ensures body == BodyOfCut(mid, rest) && Lacks(mid, IsRelease)
  {
    mid := if rest != [] then body[1..|body| - 1] else body[1..];
    assert body == BodyOfCut(mid, rest);
    Joined3([""], mid, if rest != [] then [""] else [], IsRelease);
  }

  lemma ConcatNothing(ls: Lines)
    requires ls != []
    ensures Concat(ls, [""]) == ls
  {
    assert ls[|ls| - 1] + "" == ls[|ls| - 1];
  }

  /** Splicing a body in changes the lines of the section only, and the spliced
      file has that body when the section is looked up again. */
  lemma SplicedFile(doc: Lines, a: Lines, h: string, mid: Lines, rest: Lines, version: string, body: Lines)
    returns (now: Lines)
    requires Cut(doc, a, h, mid, rest, version) && IsBody(body, rest != [])
    ensures Cut(Splice(doc, |a|, body), a, h, now, rest, version) && BodyOfCut(now, rest) == body
  {
    CutBounds(doc, a, h, mid, rest, version);
    now := BodyInside(body, rest);
    var f := |a| + 1 + |mid|;
    assert doc[..|a| + 1] == a + [h] && doc[f..] == rest;
    assert h + "" == h;
    assert Concat(a + [h], body) == a + [h] + body[1..];
    if rest != [] {
      assert body[1..] == now + [""];
      assert "" + rest[0] == rest[0];
      assert Concat(a + [h] + (now + [""]), rest) == a + [h] + now + rest;
    } else {
      assert body[1..] == now;
      ConcatNothing(a + [h] + now);
    }
  }

  // ----- one fold -----

  ghost predicate HasSection(doc: Lines, version: string) { Find(doc, ReleaseTest(version)) < |doc| }

  /** The body of the release section. */
  function SectionBody(doc: Lines, version: string): Lines {
    var h := Find(doc, ReleaseTest(version));
    if h < |doc| then Body(doc, h) else []
  }

  /** The bullets of a category of the release. */
  function BulletsOf(doc: Lines, version: string, t: Section): seq<Lines> { BulletsIn(SectionBody(doc, version), t) }

  /** The lines before and after the release section, its heading line included. */
  ghost function Outside(doc: Lines, version: string): (Lines, Lines) {
    var h := Find(doc, ReleaseTest(version));
    if h < |doc| then (doc[..h + 1], doc[SectionEnd(doc, h)..]) else (doc, [])
  }

  lemma CutView(doc: Lines, a: Lines, h: string, mid: Lines, rest: Lines, version: string)
    requires Cut(doc, a, h, mid, rest, version)
    ensures HasSection(doc, version) && Outside(doc, version) == (a + [h], rest)
    ensures SectionBody(doc, version) == BodyOfCut(mid, rest) && IsBody(SectionBody(doc, version), rest != [])
  {
    CutBounds(doc, a, h, mid, rest, version);
    assert doc[..|a| + 1] == a + [h] && doc[|a| + 1 + |mid|..] == rest;
  }

  /** A fold fails exactly when the release has no section. Otherwise nothing
      outside the section changes, and the section is found again in the result,
      with the folded body. */
  lemma FoldInPlace(doc: Lines, version: string, picks: Picks, area: Lines -> string)
    requires GoodPicks(picks)
    ensures Fold(doc, version, picks, area).Some? <==> HasSection(doc, version)
    ensures HasSection(doc, version) ==>
      var now := Fold(doc, version, picks, area).value;
      && IsBody(SectionBody(doc, version), Outside(doc, version).1 != [])
      && HasSection(now, version) && Outside(now, version) == Outside(doc, version)
      && SectionBody(now, version) == FoldBody(SectionBody(doc, version), |SECTIONS|, picks, area)
  {
    if HasSection(doc, version) {
      var a, h, mid, rest := CutFile(doc, version);
      CutBounds(doc, a, h, mid, rest, version);
      CutView(doc, a, h, mid, rest, version);
      FoldStaysBody(Body(doc, |a|), picks, area, rest != []);
      var after := FoldBody(Body(doc, |a|), |SECTIONS|, picks, area);
      var inside := SplicedFile(doc, a, h, mid, rest, version, after);
      CutView(Splice(doc, |a|, after), a, h, inside, rest, version);
    }
  }

  /** Each category's bullets have the new ones folded in. */
  lemma FoldIsAdditive(doc: Lines, version: string, picks: Picks, area: Lines -> string, t: Section)
    requires GoodPicks(picks)
    ensures Fold(doc, version, picks, area).Some? <==> HasSection(doc, version)
    ensures HasSection(doc, version) ==>
      var now := Fold(doc, version, picks, area).value;
      && HasSection(now, version) && Outside(now, version) == Outside(doc, version)
      && BulletsOf(now, version, t) == Folded(BulletsOf(doc, version, t), picks(t), area)
  {
    FoldInPlace(doc, version, picks, area);
    if HasSection(doc, version) {
      BodyFolded(SectionBody(doc, version), picks, area, Outside(doc, version).1 != [], t);
    }
  }

  // ----- any number of folds -----

  /** The file before and after each round of folding. */
  ghost predicate Step(docs: seq<Lines>, version: string, rounds: seq<Picks>, area: Lines -> string, i: nat)
    requires |docs| == |rounds| + 1 && i < |rounds|
  {
    GoodPicks(rounds[i]) && Fold(docs[i], version, rounds[i], area) == Some(docs[i + 1])
  }

  ghost predicate Rounds(docs: seq<Lines>, version: string, rounds: seq<Picks>, area: Lines -> string) {
    && |docs| == |rounds| + 1
    && forall i {:trigger Step(docs, version, rounds, area, i)} :: 0 <= i < |rounds| ==>
      Step(docs, version, rounds, area, i)
  }

  /** The first `n` of the lists, put together. */
  function Together(lists: seq<seq<Lines>>, n: nat): seq<Lines>
    requires n <= |lists|
  {
    if n == 0 then [] else Together(lists, n - 1) + lists[n - 1]
  }

  /** What the rounds add to a category. */
  function PicksFor(rounds: seq<Picks>, t: Section): (lists: seq<seq<Lines>>)
    ensures |lists| == |rounds|
    ensures forall k {:trigger lists[k]} :: 0 <= k < |rounds| ==> lists[k] == rounds[k](t)
  {
    seq(|rounds|, k requires 0 <= k < |rounds| => rounds[k](t))
  }

  /** An area whose bullets stood together stands together. */
  ghost predicate StayTogether(old_: seq<Lines>, now: seq<Lines>, area: Lines -> string) {
    forall a {:trigger StandTogether(now, area, a)} ::
      a != "" && StandTogether(old_, area, a) ==> StandTogether(now, area, a)
  }

  lemma FoldedIsAdditive(old_: seq<Lines>, more: seq<Lines>, area: Lines -> string) returns (at: seq<nat>)
    ensures Inserted(old_, Folded(old_, more, area), area, at)
    ensures multiset(Folded(old_, more, area)) == multiset(old_) + multiset(more)
    ensures old_ != [] ==> Folded(old_, more, area) != [] && StayTogether(old_, Folded(old_, more, area), area)
  {
    if old_ == [] {
      at := [];
    } else {
      at := PlacedIsAdditive(old_, more, area);
      forall a | a != "" && StandTogether(old_, area, a) ensures StandTogether(Folded(old_, more, area), area, a) {
        PlacedStaysTogether(old_, more, area, a);
      }
    }
  }

  /** What any number of folds does to a category: the old bullets are a subsequence,
      the new ones are what was added, blocks of one area stay blocks and, where there
      were bullets, an area that stood together stands together. */
  ghost predicate Grown(old_: seq<Lines>, now: seq<Lines>, added: seq<Lines>, area: Lines -> string, at: seq<nat>) {
    && Inserted(old_, now, area, at) && multiset(now) == multiset(old_) + multiset(added)
    && (old_ != [] ==> now != [] && StayTogether(old_, now, area))
  }

  lemma GrownOnce(old_: seq<Lines>, mid: seq<Lines>, added: seq<Lines>, more: seq<Lines>, area: Lines -> string,
                  at: seq<nat>)
    returns (on: seq<nat>)
    requires Grown(old_, mid, added, area, at)
    ensures Grown(old_, Folded(mid, more, area), added + more, area, on)
  {
    var to := FoldedIsAdditive(mid, more, area);
    on := InsertedTransitive(old_, mid, Folded(mid, more, area), area, at, to);
    if old_ != [] {
      TogetherOn(old_, mid, Folded(mid, more, area), area);
    }
  }

  lemma TogetherOn(old_: seq<Lines>, mid: seq<Lines>, now: seq<Lines>, area: Lines -> string)
    requires StayTogether(old_, mid, area) && StayTogether(mid, now, area)
    ensures StayTogether(old_, now, area)
  {
    forall a | a != "" && StandTogether(old_, area, a) ensures StandTogether(now, area, a) {
      assert StandTogether(mid, area, a);
    }
  }

  lemma GrownNot(old_: seq<Lines>, area: Lines -> string) returns (at: seq<nat>)
    ensures Grown(old_, old_, [], area, at)
  {
    at := seq(|old_|, k => k);
  }

  lemma {:induction false} GrownAlong(lists: seq<seq<Lines>>, added: seq<seq<Lines>>, area: Lines -> string, n: nat)
    returns (at: seq<nat>)
    requires |lists| == |added| + 1 && n <= |added|
    requires forall i {:trigger added[i]} :: 0 <= i < |added| ==> lists[i + 1] == Folded(lists[i], added[i], area)
    ensures Grown(lists[0], lists[n], Together(added, n), area, at)
  {
    if n == 0 {
      at := GrownNot(lists[0], area);
    } else {
      at := GrownAlong(lists, added, area, n - 1);
      at := GrownOnce(lists[0], lists[n - 1], Together(added, n - 1), added[n - 1], area, at);
    }
  }

  lemma RoundFolds(docs: seq<Lines>, version: string, rounds: seq<Picks>, area: Lines -> string, i: nat, t: Section)
    requires Rounds(docs, version, rounds, area) && i < |rounds|
    ensures BulletsOf(docs[i + 1], version, t) == Folded(BulletsOf(docs[i], version, t), rounds[i](t), area)
  {
    assert Step(docs, version, rounds, area, i);
    FoldIsAdditive(docs[i], version, rounds[i], area, t);
  }

  lemma RoundKeeps(docs: seq<Lines>, version: string, rounds: seq<Picks>, area: Lines -> string, i: nat)
    requires Rounds(docs, version, rounds, area) && i < |rounds|
    ensures HasSection(docs[i + 1], version)
    ensures Outside(docs[i + 1], version) == Outside(docs[i], version)
  {
    assert Step(docs, version, rounds, area, i);
    FoldIsAdditive(docs[i], version, rounds[i], area, Added);
  }

  lemma {:induction false} OutsideAlong(docs: seq<Lines>, version: string, rounds: seq<Picks>, area: Lines -> string,
                                        n: nat)
    requires Rounds(docs, version, rounds, area) && HasSection(docs[0], version) && n <= |rounds|
    ensures HasSection(docs[n], version) && Outside(docs[n], version) == Outside(docs[0], version)
  {
    if n > 0 {
      OutsideAlong(docs, version, rounds, area, n - 1);
      RoundKeeps(docs, version, rounds, area, n - 1);
    }
  }

  /** Folding unattended, however often, is additive: in every category the old
      bullets stand unchanged and in their old order, exactly the new ones have
      been added, every block of one area is a block still, and each area that stood
      together still does; the section is still there, and nothing outside it has
      changed. */
  lemma RepeatedFoldsAreAdditive(
    docs: seq<Lines>, version: string, rounds: seq<Picks>, area: Lines -> string, t: Section, n: nat)
    returns (at: seq<nat>)
    requires Rounds(docs, version, rounds, area) && HasSection(docs[0], version) && n <= |rounds|
    ensures HasSection(docs[n], version) && Outside(docs[n], version) == Outside(docs[0], version)
    ensures Grown(BulletsOf(docs[0], version, t), BulletsOf(docs[n], version, t), Together(PicksFor(rounds, t), n),
        area, at)
  {
    var lists := BulletsAlong(docs, version, t);
    forall i | 0 <= i < |rounds| ensures lists[i + 1] == Folded(lists[i], PicksFor(rounds, t)[i], area) {
      FoldedAlong(docs, version, rounds, area, t, lists, i);
    }
    OutsideAlong(docs, version, rounds, area, n);
    at := GrownAlong(lists, PicksFor(rounds, t), area, n);
  }

  ghost function BulletsAlong(docs: seq<Lines>, version: string, t: Section): (lists: seq<seq<Lines>>)
    ensures |lists| == |docs|
    ensures forall i {:trigger lists[i]} :: 0 <= i < |docs| ==> lists[i] == BulletsOf(docs[i], version, t)
  {
    seq(|docs|, i requires 0 <= i < |docs| => BulletsOf(docs[i], version, t))
  }

  lemma FoldedAlong(docs: seq<Lines>, version: string, rounds: seq<Picks>, area: Lines -> string, t: Section,
                    lists: seq<seq<Lines>>, i: nat)
    requires Rounds(docs, version, rounds, area) && i < |rounds| && lists == BulletsAlong(docs, version, t)
    ensures lists[i + 1] == Folded(lists[i], PicksFor(rounds, t)[i], area)
  {
    RoundFolds(docs, version, rounds, area, i, t);
  }
}
