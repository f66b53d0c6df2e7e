/** Folding parsed entries: which bullets are added, in which order, and the
    steps of `fold_entries` itself (scripts/changelog.py). */
module ChangelogFolding {
  import opened Wrappers
  import opened Order
  import opened EntryGrammar
  import opened ChangelogParser
  import opened ChangelogSound
  import opened BulletLists
  import opened ChangelogFold
  import opened ChangelogRelease
  import opened ChangelogBullets

  /** An entry with the fragment file it came from. */
  datatype Sourced = Sourced(entry: Entry, source: string)

  // ----- bullets of entries -----

  /** `render_bullet`. */
  function RenderBullet(e: Entry): Lines {
    ["- " + SummaryLine(e)] + (WriteNotes(e.detail) + IfSome(MigrationOf(e)))
  }

  /** The bullet of an entry shows it. */
  lemma RenderedShows(e: Entry)
    ensures Shows(RenderBullet(e), e)
  {
    var b, notes, migration := RenderBullet(e), WriteNotes(e.detail), IfSome(MigrationOf(e));
    assert b[0] == "- " + SummaryLine(e);
    forall k | 0 <= k < |e.detail| ensures b[1 + k] == "  " + e.detail[k] {
      assert b[1 + k] == notes[k];
    }
    HeadWritten(e);
  }

  lemma HeadWritten(e: Entry)
    ensures HeadShows("- " + SummaryLine(e), e)
  {
  }

  /** Read back from its bullet, a well-formed entry has its flag, areas, prose,
      notes and migration note, exactly unless its prose passes for a flag. */
  lemma RenderedReadBack(e: Entry)
    requires WellFormed(e)
    ensures ReadBullet(RenderBullet(e)) == SaidBy(e) <==> !LooksFlagged(e)
  {
    RenderedShows(e);
    BulletReadBack(RenderBullet(e), e);
  }

  predicate Indented(line: string) { |line| >= 2 && line[0] == ' ' }

  lemma TailIndented(e: Entry)
    ensures var tail := WriteNotes(e.detail) + IfSome(MigrationOf(e));
      forall k {:trigger tail[k]} :: 0 <= k < |tail| ==> Indented(tail[k])
  {
    var notes, migration := WriteNotes(e.detail), IfSome(MigrationOf(e));
    assert forall k :: 0 <= k < |notes| ==> Indented(notes[k]);
    assert forall k :: 0 <= k < |migration| ==> Indented(migration[k]);
  }

  /** Every entry renders as one list item that holds no heading line. */
  lemma RenderedIsGood(e: Entry)
    ensures IsItem(RenderBullet(e)) && Lacks(RenderBullet(e), IsCategory) && Lacks(RenderBullet(e), IsRelease)
  {
    TailIndented(e);
    DashAndIndents("- " + SummaryLine(e), WriteNotes(e.detail) + IfSome(MigrationOf(e)));
  }

  lemma DashAndIndents(first: string, tail: Lines)
    requires IsBullet(first) && forall k {:trigger tail[k]} :: 0 <= k < |tail| ==> Indented(tail[k])
    ensures var b := [first] + tail; IsItem(b) && Lacks(b, IsCategory) && Lacks(b, IsRelease)
  {
    var b := [first] + tail;
    forall k | 0 <= k < |b| ensures b[k] != "" && !IsCategory(b[k]) && !IsRelease(b[k]) && (k > 0 ==> !IsBullet(b[k])) {
      if k > 0 { assert b[k] == tail[k - 1]; }
    }
  }

  // ----- assembly order -----

  function AreaKey(e: Entry): string { if e.areas != [] then e.areas[0] else "~" }

  /** `entry_sort_key`: breaking first, then area, file and line. */
  predicate KeyLe(x: Sourced, y: Sourced) {
    if x.entry.breaking != y.entry.breaking then x.entry.breaking
    else if AreaKey(x.entry) != AreaKey(y.entry) then Less(AreaKey(x.entry), AreaKey(y.entry))
    else if x.source != y.source then Less(x.source, y.source)
    else x.entry.line <= y.entry.line
  }

  lemma KeyLeTransitive(x: Sourced, y: Sourced, z: Sourced)
    requires KeyLe(x, y) && KeyLe(y, z)
    ensures KeyLe(x, z)
  {
    var a, b, c := AreaKey(x.entry), AreaKey(y.entry), AreaKey(z.entry);
    if Less(a, b) { LessAsymmetric(a, b); }
    if Less(a, b) && Less(b, c) { LessTransitive(a, b, c); LessAsymmetric(a, c); }
    if Less(x.source, y.source) { LessAsymmetric(x.source, y.source); }
    if Less(x.source, y.source) && Less(y.source, z.source) {
      LessTransitive(x.source, y.source, z.source);
      LessAsymmetric(x.source, z.source);
    }
  }

  lemma KeyLeIsTotalPreorder()
    ensures TotalPreorder(KeyLe)
  {
    forall x, y ensures KeyLe(x, y) || KeyLe(y, x) {
      LessTotal(AreaKey(x.entry), AreaKey(y.entry));
      LessTotal(x.source, y.source);
    }
    forall x, y, z | KeyLe(x, y) && KeyLe(y, z) ensures KeyLe(x, z) {
      KeyLeTransitive(x, y, z);
    }
  }

  function Rendered(xs: seq<Sourced>): (bs: seq<Lines>)
    ensures |bs| == |xs|
    ensures forall k {:trigger bs[k]} :: 0 <= k < |xs| ==> bs[k] == RenderBullet(xs[k].entry)
  {
    seq(|xs|, k requires 0 <= k < |xs| => RenderBullet(xs[k].entry))
  }

  /** The entries of a category, in the order given. */
  function Of(entries: seq<Sourced>, s: Section): seq<Sourced> {
    if entries == [] then []
    else
      var last := entries[|entries| - 1];
      Of(entries[..|entries| - 1], s) + if last.entry.section == s then [last] else []
  }

  lemma RenderedConcat(xs: seq<Sourced>, ys: seq<Sourced>)
    ensures Rendered(xs + ys) == Rendered(xs) + Rendered(ys)
  {
  }

  /** Entries in another order render as the same bullets in another order. */
  lemma {:induction false} RenderedPermutes(xs: seq<Sourced>, ys: seq<Sourced>)
    requires multiset(xs) == multiset(ys)
    ensures multiset(Rendered(xs)) == multiset(Rendered(ys))
    decreases |xs|
  {
    SameMembers(xs, ys);
    if xs != [] {
      var x := xs[0];
      assert x in xs;
      var k :| 0 <= k < |ys| && ys[k] == x;
      var p, q := ys[..k], ys[k + 1..];
      assert xs == [x] + xs[1..] && ys == p + ([x] + q);
      WithoutOne(x, xs[1..], p, q);
      RenderedPermutes(xs[1..], p + q);
      RenderedMoves(x, xs[1..], p, q);
    }
  }

  lemma WithoutOne(x: Sourced, xs: seq<Sourced>, p: seq<Sourced>, q: seq<Sourced>)
    requires multiset([x] + xs) == multiset(p + ([x] + q))
    ensures multiset(xs) == multiset(p + q)
  {
    assert multiset([x] + xs) == multiset{x} + multiset(xs);
    assert multiset(p + ([x] + q)) == multiset{x} + multiset(p + q);
    assert multiset(xs) == multiset([x] + xs) - multiset{x};
    assert multiset(p + q) == multiset(p + ([x] + q)) - multiset{x};
  }

  lemma RenderedMoves(x: Sourced, xs: seq<Sourced>, p: seq<Sourced>, q: seq<Sourced>)
    requires multiset(Rendered(xs)) == multiset(Rendered(p + q))
    ensures multiset(Rendered([x] + xs)) == multiset(Rendered(p + ([x] + q)))
  {
    RenderedConcat([x], xs);
    RenderedConcat(p, [x] + q);
    RenderedConcat([x], q);
    RenderedConcat(p, q);
  }

  /** The bullets are those of the category's entries, rendered in assembly order. */
  ghost predicate InOrder(bullets: seq<Lines>, entries: seq<Sourced>, s: Section) {
    exists xs :: SortedBy(KeyLe, xs) && multiset(xs) == multiset(Of(entries, s)) && bullets == Rendered(xs)
  }

  lemma OrderedBullets(bullets: seq<Lines>, entries: seq<Sourced>, s: Section)
    requires InOrder(bullets, entries, s)
    ensures multiset(bullets) == multiset(Rendered(Of(entries, s))) && GoodBullets(bullets)
  {
    var xs :| SortedBy(KeyLe, xs) && multiset(xs) == multiset(Of(entries, s)) && bullets == Rendered(xs);
    RenderedPermutes(xs, Of(entries, s));
    AllRenderedGood(xs);
  }

  /** The bullets show the category's entries, one each, in assembly order. */
  ghost predicate ShownInOrder(bullets: seq<Lines>, entries: seq<Sourced>, s: Section, xs: seq<Sourced>) {
    && SortedBy(KeyLe, xs) && multiset(xs) == multiset(Of(entries, s)) && |bullets| == |xs|
    && forall k {:trigger xs[k]} {:trigger bullets[k]} :: 0 <= k < |xs| ==> Shows(bullets[k], xs[k].entry)
  }

  lemma BulletsShow(bullets: seq<Lines>, entries: seq<Sourced>, s: Section) returns (xs: seq<Sourced>)
    requires InOrder(bullets, entries, s)
    ensures ShownInOrder(bullets, entries, s, xs)
  {
    xs :| SortedBy(KeyLe, xs) && multiset(xs) == multiset(Of(entries, s)) && bullets == Rendered(xs);
    forall k | 0 <= k < |xs| ensures Shows(bullets[k], xs[k].entry) { RenderedShows(xs[k].entry); }
  }

  lemma {:induction false} OfMembers(entries: seq<Sourced>, s: Section, x: Sourced)
    ensures x in Of(entries, s) <==> x in entries && x.entry.section == s
  {
    if entries != [] {
      var init, last := entries[..|entries| - 1], entries[|entries| - 1];
      assert entries == init + [last];
      OfMembers(init, s, x);
    }
  }

  /** Some of the bullets shows the entry. */
  ghost predicate StandsIn(bullets: seq<Lines>, e: Entry) { exists b :: b in bullets && Shows(b, e) }

  lemma PickedStands(bullets: seq<Lines>, entries: seq<Sourced>, x: Sourced)
    requires InOrder(bullets, entries, x.entry.section) && x in entries
    ensures StandsIn(bullets, x.entry)
  {
    var xs := BulletsShow(bullets, entries, x.entry.section);
    OfMembers(entries, x.entry.section, x);
    assert x in multiset(xs);
    var k :| 0 <= k < |xs| && xs[k] == x;
    assert bullets[k] in bullets && Shows(bullets[k], xs[k].entry);
  }

  /** A bullet that is folded in stands in the section. */
  lemma FoldedStands(doc: Lines, version: string, picks: Picks, area: Lines -> string, e: Entry)
    requires GoodPicks(picks) && HasSection(doc, version) && StandsIn(picks(e.section), e)
    ensures StandsIn(BulletsOf(Fold(doc, version, picks, area).value, version, e.section), e)
  {
    var old_, more := BulletsOf(doc, version, e.section), picks(e.section);
    var b :| b in more && Shows(b, e);
    FoldIsAdditive(doc, version, picks, area, e.section);
    var at := FoldedIsAdditive(old_, more, area);
    assert b in multiset(more);
    assert b in multiset(Folded(old_, more, area));
  }

  /** Every entry stands under its category: flag, areas, prose, notes and migration note. */
  ghost predicate AllStand(doc: Lines, version: string, entries: seq<Sourced>) {
    forall x :: x in entries ==> StandsIn(BulletsOf(doc, version, x.entry.section), x.entry)
  }

  lemma EntriesStand(doc: Lines, version: string, picks: Picks, area: Lines -> string, entries: seq<Sourced>)
    requires GoodPicks(picks) && HasSection(doc, version) && forall s :: InOrder(picks(s), entries, s)
    ensures AllStand(Fold(doc, version, picks, area).value, version, entries)
  {
    forall x | x in entries
      ensures StandsIn(BulletsOf(Fold(doc, version, picks, area).value, version, x.entry.section), x.entry)
    {
      PickedStands(picks(x.entry.section), entries, x);
      FoldedStands(doc, version, picks, area, x.entry);
    }
  }

  /** What the order is for: breaking entries lead, and entries of one area that
      are alike in this stand together. */
  lemma BreakingLeads(xs: seq<Sourced>, i: nat, j: nat)
    requires SortedBy(KeyLe, xs) && i < j < |xs|
    ensures xs[j].entry.breaking ==> xs[i].entry.breaking
    ensures xs[i].entry.breaking == xs[j].entry.breaking && AreaKey(xs[i].entry) == AreaKey(xs[j].entry) ==>
      forall k :: i < k < j ==> AreaKey(xs[k].entry) == AreaKey(xs[i].entry)
  {
    assert KeyLe(xs[i], xs[j]);
    if xs[i].entry.breaking == xs[j].entry.breaking && AreaKey(xs[i].entry) == AreaKey(xs[j].entry) {
      forall k | i < k < j ensures AreaKey(xs[k].entry) == AreaKey(xs[i].entry) {
        AreaBetween(xs[i], xs[k], xs[j]);
      }
    }
  }

  lemma AreaBetween(x: Sourced, y: Sourced, z: Sourced)
    requires KeyLe(x, y) && KeyLe(y, z)
    requires x.entry.breaking == z.entry.breaking && AreaKey(x.entry) == AreaKey(z.entry)
    ensures AreaKey(y.entry) == AreaKey(x.entry)
  {
    if Less(AreaKey(x.entry), AreaKey(y.entry)) {
      LessAsymmetric(AreaKey(x.entry), AreaKey(y.entry));
    }
  }

  /** The picked entries of one category, sorted and rendered. */
  method PickBullets(entries: seq<Sourced>, s: Section) returns (bullets: seq<Lines>)
    ensures InOrder(bullets, entries, s)
  {
    var picked := [];
    for i := 0 to |entries|
      invariant picked == Of(entries[..i], s)
    {
      assert entries[..i + 1][..i] == entries[..i];
      if entries[i].entry.section == s {
        picked := picked + [entries[i]];
      }
    }
    assert entries[..|entries|] == entries;
    KeyLeIsTotalPreorder();
    var sorted := Sort(picked, KeyLe);
    bullets := Rendered(sorted);
  }

  lemma AllRenderedGood(xs: seq<Sourced>)
    ensures GoodBullets(Rendered(xs))
  {
    forall k | 0 <= k < |xs|
      ensures IsItem(Rendered(xs)[k]) && Lacks(Rendered(xs)[k], IsCategory) && Lacks(Rendered(xs)[k], IsRelease)
    {
      RenderedIsGood(xs[k].entry);
    }
  }

  // ----- the fold -----

  /** `place_in_category`. */
  method PlaceInCategory(category: Lines, bullets: seq<Lines>, area: Lines -> string) returns (placed: Lines)
    ensures placed == Place(category, bullets, area)
  {
    var existing := SplitIntoBullets(category);
    if |existing| == 0 {
      return TrimEnd(category) + [""] + JoinBullets(bullets) + [""];
    }
    var all := PlaceBullets(existing, bullets, area);
    placed := JoinBullets(all) + [""];
  }

  /** `insert_category`. */
  method InsertNewCategory(body: Lines, s: Section, block: Lines) returns (after: Lines)
    ensures after == InsertCategory(body, s, block)
  {
    var later := SECTIONS[Rank(s) + 1..];
    for i := 0 to |later|
      invariant FirstHeading(body, later) == FirstHeading(body, later[i..])
    {
      var heading := Find(body, HeadingTest(later[i]));
      if heading < |body| {
        return TrimEnd(body[..heading] + [""]) + ["", HeadingOf(s), ""] + block + [""] + body[heading..];
      }
      assert later[i..][1..] == later[i + 1..];
    }
    after := TrimEnd(body) + ["", HeadingOf(s), ""] + block + [""];
  }

  method FoldIntoCategory(body: Lines, s: Section, bullets: seq<Lines>, area: Lines -> string) returns (after: Lines)
    ensures after == FoldCategory(body, s, bullets, area)
  {
    if |bullets| == 0 {
      return body;
    }
    var heading := Find(body, HeadingTest(s));
    if heading == |body| {
      after := InsertNewCategory(body, s, JoinBullets(bullets));
      return;
    }
    after := FoldAtHeading(body, heading, bullets, area);
  }

  method FoldAtHeading(body: Lines, heading: nat, bullets: seq<Lines>, area: Lines -> string) returns (after: Lines)
    requires heading < |body|
    ensures after == FoldAt(body, heading, bullets, area)
  {
    after := RejoinCategory(body[..heading + 1], body[heading + 1..], bullets, area);
  }

  method RejoinCategory(upto: Lines, rest: Lines, bullets: seq<Lines>, area: Lines -> string) returns (after: Lines)
    ensures after == Rejoin(upto, rest, bullets, area)
  {
    var following := Find(rest, IsCategory);
    var category := PlaceInCategory(CategoryText(rest[..following], rest[following..]), bullets, area);
    after := upto + Framed(TrimEnd(TrimStart(category))) + TrimStart(RestText(rest[following..]));
  }

  /** `fold_entries`: exactly the bullets of the given entries are folded in, those
      of each category in assembly order, and every entry stands in the result. */
  method FoldEntries(doc: Lines, version: string, entries: seq<Sourced>, area: Lines -> string)
    returns (folded: Option<Lines>, picks: Picks)
    ensures GoodPicks(picks) && forall s :: InOrder(picks(s), entries, s)
    ensures folded == Fold(doc, version, picks, area)
    ensures folded.Some? <==> HasSection(doc, version)
    ensures folded.Some? ==> AllStand(folded.value, version, entries)
  {
    var chosen := PickAll(entries);
    picks := (s: Section) => if s in chosen then chosen[s] else [];
    forall s ensures GoodBullets(picks(s)) {
      OrderedBullets(picks(s), entries, s);
    }
    var start := Find(doc, ReleaseTest(version));
    if start == |doc| {
      return None, picks;
    }
    var body := FoldIntoBody(Body(doc, start), picks, area);
    folded := Some(Splice(doc, start, body));
    EntriesStand(doc, version, picks, area, entries);
  }

  method FoldIntoBody(body: Lines, picks: Picks, area: Lines -> string) returns (after: Lines)
    ensures after == FoldBody(body, |SECTIONS|, picks, area)
  {
    after := body;
    for k := 0 to |SECTIONS|
      invariant after == FoldBody(body, k, picks, area)
    {
      after := FoldIntoCategory(after, SECTIONS[k], picks(SECTIONS[k]), area);
    }
  }

  method PickAll(entries: seq<Sourced>) returns (chosen: map<Section, seq<Lines>>)
    ensures forall s :: s in chosen && InOrder(chosen[s], entries, s)
  {
    chosen := map[];
    for k := 0 to |SECTIONS|
      invariant forall s :: Rank(s) < k ==> s in chosen && InOrder(chosen[s], entries, s)
    {
      var bullets := PickBullets(entries, SECTIONS[k]);
      RankUnique(k);
      chosen := chosen[SECTIONS[k] := bullets];
    }
  }
}
