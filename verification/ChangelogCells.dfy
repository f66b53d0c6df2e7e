/** A release section as its opening text and its categories, and what folding
    leaves of them: every category that is not folded into, known or not, stays
    where it was (scripts/changelog.py). */
module ChangelogCells {
  import opened Wrappers
  import opened Order
  import opened EntryGrammar
  import opened BulletLists
  import opened ChangelogFold
  import opened ChangelogRelease
  import opened ChangelogLayout

  // ----- cells -----

  /** The categories of a text that starts with one, heading line first, each
      without the empty lines at its end. */
  function Tail(q: Lines): seq<Lines> {
    if q == [] then []
    else
      var n := 1 + Find(q[1..], IsCategory);
      [Core(q[..n])] + Tail(q[n..])
  }

  /** The opening text of a section, then its categories. */
  function Cells(ls: Lines): seq<Lines> { [Core(Upto(ls))] + Tail(ls[Find(ls, IsCategory)..]) }

  lemma TailHead(h: string, x: Lines, q: Lines)
    requires IsCategory(h) && Lacks(x, IsCategory) && Boundary(q)
    ensures Tail([h] + x + q) == [Core([h] + x)] + Tail(q)
  {
    var all := [h] + x + q;
    assert all[1..] == x + q;
    FindConcat(x, q, IsCategory);
    assert Find(q, IsCategory) == 0;
    assert all[..1 + |x|] == [h] + x && all[1 + |x|..] == q;
  }

  lemma {:induction false} TailConcat(a: Lines, q: Lines)
    requires Boundary(a) && Boundary(q)
    ensures Tail(a + q) == Tail(a) + Tail(q)
    decreases |a|
  {
    if a == [] {
      assert a + q == q;
    } else {
      var x, rest := CutBefore(a[1..], IsCategory);
      assert a == [a[0]] + x + rest;
      TailConcat(rest, q);
      TailMore(a[0], x, rest, q);
    }
  }

  lemma TailMore(h: string, x: Lines, rest: Lines, q: Lines)
    requires IsCategory(h) && Lacks(x, IsCategory) && Boundary(rest) && Boundary(q)
    requires Tail(rest + q) == Tail(rest) + Tail(q)
    ensures Tail([h] + x + rest + q) == Tail([h] + x + rest) + Tail(q)
  {
    Regroup(h, x, rest, q);
    TailHead(h, x, rest);
    TailHead(h, x, rest + q);
    Associate([Core([h] + x)], Tail(rest), Tail(q));
  }

  lemma Regroup(h: string, x: Lines, rest: Lines, q: Lines)
    ensures [h] + x + rest + q == [h] + x + (rest + q)
  {
  }

  lemma Associate<T>(a: seq<T>, b: seq<T>, c: seq<T>)
    ensures a + b + c == a + (b + c)
  {
  }

  lemma CellsOf(x: Lines, q: Lines)
    requires Lacks(x, IsCategory) && Boundary(q)
    ensures Cells(x + q) == [Core(x)] + Tail(q)
  {
    FindConcat(x, q, IsCategory);
    assert Find(q, IsCategory) == 0;
    assert (x + q)[..|x|] == x && (x + q)[|x|..] == q;
  }

  lemma CellsConcat(a: Lines, q: Lines)
    requires Boundary(q)
    ensures Cells(a + q) == Cells(a) + Tail(q)
  {
    var x, rest := CutBefore(a, IsCategory);
    Associate(x, rest, q);
    CellsOf(x, rest);
    CellsOf(x, rest + q);
    TailConcat(rest, q);
    Associate([Core(x)], Tail(rest), Tail(q));
  }

  /** A section cut around one of its categories. */
  lemma CellsAround(a: Lines, h: string, x: Lines, q: Lines)
    requires IsCategory(h) && Lacks(x, IsCategory) && Boundary(q)
    ensures Cells(a + [h] + x + q) == Cells(a) + [Core([h] + x)] + Tail(q)
  {
    Around(a, h, x, q);
    TailHead(h, x, q);
    CellsConcat(a, [h] + x + q);
    Associate(Cells(a), [Core([h] + x)], Tail(q));
  }

  lemma Around(a: Lines, h: string, x: Lines, q: Lines)
    ensures a + [h] + x + q == a + ([h] + x + q) && ([h] + x + q)[0] == h
  {
  }

  // ----- empty lines at the end -----

  lemma {:induction false} TailSnoc(q: Lines)
    requires q != [] && IsCategory(q[0])
    ensures Tail(q + [""]) == Tail(q)
    decreases |q|
  {
    var x, rest := CutBefore(q[1..], IsCategory);
    assert q == [q[0]] + x + rest;
    if rest == [] {
      LastCellSnoc(q[0], x);
      assert q == [q[0]] + x;
    } else {
      TailSnoc(rest);
      Regroup(q[0], x, rest, [""]);
      TailHead(q[0], x, rest);
      TailHead(q[0], x, rest + [""]);
    }
  }

  lemma LastCellSnoc(h: string, x: Lines)
    requires IsCategory(h) && Lacks(x, IsCategory)
    ensures Tail([h] + x + [""]) == Tail([h] + x)
  {
    var cell := [h] + x;
    assert cell + [] == cell && [h] + (x + [""]) + [] == cell + [""] && [h] + (x + [""]) == cell + [""];
    LacksConcat(x, [""], IsCategory);
    TailHead(h, x, []);
    TailHead(h, x + [""], []);
    CoreSnoc(cell);
  }

  lemma CellsSnoc(a: Lines)
    ensures Cells(a + [""]) == Cells(a)
  {
    var x, rest := CutBefore(a, IsCategory);
    CellsOf(x, rest);
    if rest == [] {
      assert a + [""] == x + [""] + [] && x + [] == x;
      LacksConcat(x, [""], IsCategory);
      CellsOf(x + [""], []);
      CoreSnoc(x);
    } else {
      assert a + [""] == x + (rest + [""]);
      CellsOf(x, rest + [""]);
      TailSnoc(rest);
    }
  }

  lemma {:induction false} CellsTrim(a: Lines)
    ensures Cells(TrimEnd(a)) == Cells(a)
  {
    if |a| > 1 && a[|a| - 1] == "" {
      var init := a[..|a| - 1];
      assert a == init + [""];
      CellsTrim(init);
      CellsSnoc(init);
    }
  }

  // ----- which cell is which -----

  predicate Titled(cell: Lines, s: Section) { cell != [] && IsHeading(cell[0], s) }

  /** Cell `i` is the category `s` as category_heading finds it: the first of that title. */
  ghost predicate IsFirst(cells: seq<Lines>, i: nat, s: Section) {
    0 < i < |cells| && Titled(cells[i], s) && forall j {:trigger cells[j]} :: 0 < j < i ==> !Titled(cells[j], s)
  }

  /** Cell `i` is one that folding may write to. */
  ghost predicate Owned(cells: seq<Lines>, i: nat) { exists s :: IsFirst(cells, i, s) }

  /** Every cell but the opening text starts with its heading, a line of the section. */
  ghost predicate Headed(cells: seq<Lines>, from: nat, ls: Lines) {
    forall k {:trigger cells[k]} :: from <= k < |cells| ==>
      cells[k] != [] && IsCategory(cells[k][0]) && cells[k][0] in ls
  }

  lemma {:induction false} CoreStarts(ls: Lines)
    requires ls != [] && ls[0] != ""
    ensures Core(ls) != [] && Core(ls)[0] == ls[0]
  {
    if ls[|ls| - 1] == "" { CoreStarts(ls[..|ls| - 1]); }
  }

  lemma {:induction false} TailHeaded(q: Lines)
    requires Boundary(q)
    ensures Headed(Tail(q), 0, q)
    decreases |q|
  {
    if q != [] {
      var x, rest := CutBefore(q[1..], IsCategory);
      assert q == [q[0]] + x + rest;
      TailHeaded(rest);
      HeadedMore(q[0], x, rest);
    }
  }

  lemma HeadedMore(h: string, x: Lines, rest: Lines)
    requires IsCategory(h) && Lacks(x, IsCategory) && Boundary(rest) && Headed(Tail(rest), 0, rest)
    ensures Headed(Tail([h] + x + rest), 0, [h] + x + rest)
  {
    TailHead(h, x, rest);
    CoreStarts([h] + x);
    HeadedUnder(Core([h] + x), Tail(rest), rest, [h] + x + rest);
  }

  lemma HeadedUnder(cell: Lines, cells: seq<Lines>, rest: Lines, all: Lines)
    requires Headed(cells, 0, rest) && cell != [] && IsCategory(cell[0]) && cell[0] in all
    requires forall l :: l in rest ==> l in all
    ensures Headed([cell] + cells, 0, all)
  {
  }

  lemma CellsHeaded(ls: Lines)
    ensures Headed(Cells(ls), 1, ls)
  {
    var x, rest := CutBefore(ls, IsCategory);
    CellsOf(x, rest);
    TailHeaded(rest);
    assert forall l :: l in rest ==> l in ls;
  }

  lemma NoneTitled(ls: Lines, s: Section, k: nat)
    requires Lacks(ls, HeadingTest(s)) && 0 < k < |Cells(ls)|
    ensures !Titled(Cells(ls)[k], s)
  {
    CellsHeaded(ls);
    var h := Cells(ls)[k][0];
    var j :| 0 <= j < |ls| && ls[j] == h;
    assert !HeadingTest(s)(ls[j]);
  }

  // ----- what is kept -----

  /** `now` holds the cells in their old order, the opening text first. Those that
      folding does not write to are the same, the others keep their heading line,
      and what is new is a category of a title that was not there. */
  ghost predicate Kept(cells: seq<Lines>, now: seq<Lines>, at: seq<nat>) {
    && |at| == |cells| && (cells != [] ==> at[0] == 0)
    && (forall i, j {:trigger at[i], at[j]} :: 0 <= i < j < |at| ==> at[i] < at[j])
    && (forall i {:trigger CellKept(cells, now, at, i)} :: 0 <= i < |at| ==> CellKept(cells, now, at, i))
    && (forall j {:trigger Owned(now, j)} :: 0 <= j < |now| && j !in at ==> Owned(now, j))
  }

  ghost predicate CellKept(cells: seq<Lines>, now: seq<Lines>, at: seq<nat>, i: nat)
    requires i < |at| == |cells|
  {
    && at[i] < |now| && (Owned(now, at[i]) <==> Owned(cells, i))
    && (i > 0 ==> cells[i] != [] && now[at[i]] != [] && now[at[i]][0] == cells[i][0])
    && (!Owned(cells, i) ==> now[at[i]] == cells[i])
  }

  lemma KeptSelf(cells: seq<Lines>) returns (at: seq<nat>)
    requires forall k {:trigger cells[k]} :: 0 < k < |cells| ==> cells[k] != []
    ensures Kept(cells, cells, at)
  {
    at := seq(|cells|, i => i);
    forall i | 0 <= i < |at| ensures CellKept(cells, cells, at, i) {
      assert at[i] == i;
    }
    forall j | 0 <= j < |cells| ensures j in at {
      assert at[j] == j;
    }
  }

  lemma KeptTransitive(xs: seq<Lines>, ys: seq<Lines>, zs: seq<Lines>, at: seq<nat>, to: seq<nat>)
    returns (on: seq<nat>)
    requires xs != [] && Kept(xs, ys, at) && Kept(ys, zs, to)
    ensures Kept(xs, zs, on)
  {
    assert CellKept(xs, ys, at, 0);
    forall i | 0 <= i < |at| ensures at[i] < |to| { assert CellKept(xs, ys, at, i); }
    on := seq(|at|, i requires 0 <= i < |at| => to[at[i]]);
    forall i | 0 <= i < |on| ensures CellKept(xs, zs, on, i) {
      assert CellKept(xs, ys, at, i) && CellKept(ys, zs, to, at[i]);
      if i > 0 { assert at[0] < at[i]; }
    }
    forall j | 0 <= j < |zs| && j !in on ensures Owned(zs, j) {
      if j in to {
        var m :| 0 <= m < |to| && to[m] == j;
        assert CellKept(ys, zs, to, m);
        if m in at { Through(at, to, on, m); }
      }
    }
  }

  lemma Through(at: seq<nat>, to: seq<nat>, on: seq<nat>, m: nat)
    requires |on| == |at| && forall i {:trigger at[i]} :: 0 <= i < |at| ==> at[i] < |to| && on[i] == to[at[i]]
    requires m in at
    ensures m < |to| && to[m] in on
  {
    var i :| 0 <= i < |at| && at[i] == m;
    assert on[i] == to[m];
  }

  // ----- one category written to -----

  lemma SameOwned(cells: seq<Lines>, now: seq<Lines>, i: nat)
    requires |now| == |cells|
    requires forall j {:trigger cells[j]} {:trigger now[j]} :: 0 < j < |cells| ==>
      cells[j] != [] && now[j] != [] && now[j][0] == cells[j][0]
    ensures Owned(now, i) <==> Owned(cells, i)
  {
    forall s ensures IsFirst(now, i, s) <==> IsFirst(cells, i, s) {
      assert forall j :: 0 < j < |cells| ==> Titled(now[j], s) == Titled(cells[j], s);
    }
  }

  lemma Replaced(cells: seq<Lines>, k: nat, s: Section, cell: Lines) returns (at: seq<nat>)
    requires IsFirst(cells, k, s) && cell != [] && cell[0] == cells[k][0]
    requires forall j {:trigger cells[j]} :: 0 < j < |cells| ==> cells[j] != []
    ensures Kept(cells, cells[k := cell], at)
  {
    var now := cells[k := cell];
    at := seq(|cells|, i => i);
    forall i | 0 <= i < |at| ensures CellKept(cells, now, at, i) {
      SameOwned(cells, now, i);
      assert at[i] == i;
    }
    forall j | 0 <= j < |now| ensures j in at {
      assert at[j] == j;
    }
  }

  lemma Added(cells: seq<Lines>, p: nat, s: Section, cell: Lines) returns (at: seq<nat>)
    requires 0 < p <= |cells| && Titled(cell, s)
    requires forall j {:trigger cells[j]} :: 0 < j < |cells| ==> cells[j] != [] && !Titled(cells[j], s)
    ensures Kept(cells, cells[..p] + [cell] + cells[p..], at)
  {
    var now := cells[..p] + [cell] + cells[p..];
    at := seq(|cells|, i => if i < p then i else i + 1);
    forall i | 0 <= i < |at| ensures CellKept(cells, now, at, i) {
      OwnedShifts(cells, now, p, s, cell, i, at[i]);
    }
    forall j | 0 <= j < |now| ensures j in at || Owned(now, j) {
      if j < p { assert at[j] == j; } else if j > p { assert at[j - 1] == j; } else { assert IsFirst(now, p, s); }
    }
  }

  lemma OwnedShifts(cells: seq<Lines>, now: seq<Lines>, p: nat, s: Section, cell: Lines, i: nat, i': nat)
    requires 0 < p <= |cells| && now == cells[..p] + [cell] + cells[p..] && Titled(cell, s)
    requires i < |cells| && i' == if i < p then i else i + 1
    requires forall j {:trigger cells[j]} :: 0 < j < |cells| ==> !Titled(cells[j], s)
    ensures Owned(now, i') <==> Owned(cells, i)
  {
    assert now[i'] == cells[i];
    forall t ensures IsFirst(now, i', t) <==> IsFirst(cells, i, t) {
      if t != s {
        OtherHeading(cell[0], s, t);
        FirstShifts(cells, now, p, cell, i, t);
      }
    }
  }

  lemma FirstShifts(cells: seq<Lines>, now: seq<Lines>, p: nat, cell: Lines, i: nat, t: Section)
    requires 0 < p <= |cells| && now == cells[..p] + [cell] + cells[p..] && !Titled(cell, t) && i < |cells|
    ensures IsFirst(now, if i < p then i else i + 1, t) <==> IsFirst(cells, i, t)
  {
    var i' := if i < p then i else i + 1;
    assert now[i'] == cells[i];
    if IsFirst(cells, i, t) {
      forall j | 0 < j < i' ensures !Titled(now[j], t) {
        if j < p { assert now[j] == cells[j]; } else if j > p { assert now[j] == cells[j - 1]; }
      }
    }
    if IsFirst(now, i', t) {
      forall j | 0 < j < i ensures !Titled(cells[j], t) {
        assert cells[j] == now[if j < p then j else j + 1];
      }
    }
  }

  // ----- one category folded into -----

  lemma CoreUnder(h: string, text: Lines)
    requires text != [] && text[|text| - 1] != ""
    ensures Core([h] + Framed(text)) == [h, ""] + text && Core([h] + (Framed(text) + [""])) == [h, ""] + text
  {
    var all := [h, ""] + text;
    assert all[|all| - 1] != "";
    assert [h] + Framed(text) == all + [""] && [h] + (Framed(text) + [""]) == all + [""] + [""];
    CoreSnoc(all);
    CoreSnoc(all + [""]);
  }

  /** The cells around a rewritten category. */
  lemma SwapCells(a: Lines, h: string, x: Lines, text: Lines, q: Lines)
    requires IsCategory(h) && Lacks(x, IsCategory) && Lacks(text, IsCategory) && Boundary(q)
    requires text != [] && text[|text| - 1] != ""
    ensures Cells(a + [h] + x + q) == Cells(a) + [Core([h] + x)] + Tail(q)
    ensures Cells(a + [h] + Framed(text) + RestText(q)) == Cells(a) + [[h, ""] + text] + Tail(q)
  {
    CellsAround(a, h, x, q);
    CoreUnder(h, text);
    FramedLacks(text, IsCategory);
    if q == [] {
      LacksConcat(Framed(text), [""], IsCategory);
      CellsAround(a, h, Framed(text) + [""], []);
      assert a + [h] + (Framed(text) + [""]) + [] == a + [h] + Framed(text) + [""];
    } else {
      CellsAround(a, h, Framed(text), q);
    }
  }

  lemma FirstAfter(a: Lines, s: Section, cell: Lines, rest: seq<Lines>)
    requires Lacks(a, HeadingTest(s)) && Titled(cell, s)
    ensures IsFirst(Cells(a) + [cell] + rest, |Cells(a)|, s)
  {
    var cells := Cells(a) + [cell] + rest;
    forall j | 0 < j < |Cells(a)| ensures !Titled(cells[j], s) {
      NoneTitled(a, s, j);
    }
  }

  lemma AllHeaded(ls: Lines, k: nat)
    requires 0 < k < |Cells(ls)|
    ensures Cells(ls)[k] != []
  {
    CellsHeaded(ls);
  }

  lemma Swapped(front: seq<Lines>, cell: Lines, cell': Lines, rest: seq<Lines>, s: Section) returns (at: seq<nat>)
    requires IsFirst(front + [cell] + rest, |front|, s) && cell' != [] && cell'[0] == cell[0]
    requires forall k {:trigger (front + [cell] + rest)[k]} :: 0 < k < |front + [cell] + rest| ==>
      (front + [cell] + rest)[k] != []
    ensures Kept(front + [cell] + rest, front + [cell'] + rest, at)
  {
    at := Replaced(front + [cell] + rest, |front|, s, cell');
    assert (front + [cell] + rest)[|front| := cell'] == front + [cell'] + rest;
  }

  /** The cells of a body and of what folding into one of its categories makes of it. */
  lemma RejoinCells(body: Lines, s: Section, bullets: seq<Lines>, area: Lines -> string)
    returns (front: seq<Lines>, cell: Lines, cell': Lines, rest: seq<Lines>)
    requires Has(body, s) && GoodBullets(bullets) && bullets != []
    ensures Cells(body) == front + [cell] + rest && IsFirst(front + [cell] + rest, |front|, s)
    ensures Cells(FoldCategory(body, s, bullets, area)) == front + [cell'] + rest
    ensures cell' != [] && cell'[0] == cell[0]
  {
    var a, h, x, q := CutBody(body, s, bullets, area);
    var text := NewText(CategoryText(x, q), bullets, area);
    RejoinIs(a + [h], x, q, bullets, area);
    TextUnder(x, q, bullets, area, IsCategory);
    NewTextEnds(x, q, bullets, area);
    SwapCells(a, h, x, text, q);
    CoreStarts([h] + x);
    front, cell, cell', rest := Cells(a), Core([h] + x), [h, ""] + text, Tail(q);
    FirstAfter(a, s, cell, rest);
  }

  lemma RejoinKeepsCells(body: Lines, s: Section, bullets: seq<Lines>, area: Lines -> string) returns (at: seq<nat>)
    requires Has(body, s) && GoodBullets(bullets) && bullets != []
    ensures Kept(Cells(body), Cells(FoldCategory(body, s, bullets, area)), at)
  {
    var front, cell, cell', rest := RejoinCells(body, s, bullets, area);
    forall k | 0 < k < |Cells(body)| ensures Cells(body)[k] != [] { AllHeaded(body, k); }
    at := Swapped(front, cell, cell', rest, s);
  }

  lemma InsertCells(body: Lines, s: Section, bullets: seq<Lines>) returns (p: nat)
    requires body != [] && !Has(body, s) && GoodBullets(bullets) && bullets != []
    ensures 0 < p <= |Cells(body)|
    ensures Cells(InsertCategory(body, s, JoinBullets(bullets)))
      == Cells(body)[..p] + [[HeadingOf(s), ""] + JoinBullets(bullets)] + Cells(body)[p..]
  {
    var block, h := JoinBullets(bullets), HeadingOf(s);
    var a, q := InsertIs(body, s, block);
    HeadingFacts(s);
    JoinLacks(bullets, IsCategory);
    JoinEnds(bullets);
    FramedLacks(block, IsCategory);
    CoreUnder(h, block);
    CellsAround(TrimEnd(a + [""]) + [""], h, Framed(block), q);
    CellsSnoc(TrimEnd(a + [""]));
    CellsTrim(a + [""]);
    CellsSnoc(a);
    CellsConcat(a, q);
    p := |Cells(a)|;
    assert Cells(body)[..p] == Cells(a) && Cells(body)[p..] == Tail(q);
  }

  lemma InsertKeepsCells(body: Lines, s: Section, bullets: seq<Lines>) returns (at: seq<nat>)
    requires body != [] && !Has(body, s) && GoodBullets(bullets) && bullets != []
    ensures Kept(Cells(body), Cells(InsertCategory(body, s, JoinBullets(bullets))), at)
  {
    var p := InsertCells(body, s, bullets);
    HeadingFacts(s);
    forall k | 0 < k < |Cells(body)| ensures Cells(body)[k] != [] && !Titled(Cells(body)[k], s) {
      AllHeaded(body, k);
      NoneTitled(body, s, k);
    }
    at := Added(Cells(body), p, s, [HeadingOf(s), ""] + JoinBullets(bullets));
  }

  lemma FoldKeepsCells(body: Lines, s: Section, bullets: seq<Lines>, area: Lines -> string) returns (at: seq<nat>)
    requires body != [] && GoodBullets(bullets)
    ensures Kept(Cells(body), Cells(FoldCategory(body, s, bullets, area)), at)
  {
    if bullets == [] {
      forall k | 0 < k < |Cells(body)| ensures Cells(body)[k] != [] { AllHeaded(body, k); }
      at := KeptSelf(Cells(body));
    } else if Has(body, s) {
      at := RejoinKeepsCells(body, s, bullets, area);
    } else {
      at := InsertKeepsCells(body, s, bullets);
    }
  }

  // ----- any number of folds -----

  lemma {:induction false} StagesKeepCells(bodies: seq<Lines>, picks: Picks, area: Lines -> string, k: nat,
                                           followed: bool)
    returns (at: seq<nat>)
    requires Stages(bodies, picks, area) && k <= |SECTIONS| && IsBody(bodies[0], followed) && GoodPicks(picks)
    ensures Kept(Cells(bodies[0]), Cells(bodies[k]), at)
  {
    if k == 0 {
      at := FoldKeepsCells(bodies[0], EntryGrammar.Added, [], area);
    } else {
      var s := SECTIONS[k - 1];
      at := StagesKeepCells(bodies, picks, area, k - 1, followed);
      StagesStayBody(bodies, picks, area, k - 1, followed);
      assert Stage(bodies, picks, area, k - 1);
      var to := FoldKeepsCells(bodies[k - 1], s, picks(s), area);
      at := KeptTransitive(Cells(bodies[0]), Cells(bodies[k - 1]), Cells(bodies[k]), at, to);
    }
  }

  lemma BodyKeepsCells(body: Lines, picks: Picks, area: Lines -> string, followed: bool) returns (at: seq<nat>)
    requires IsBody(body, followed) && GoodPicks(picks)
    ensures Kept(Cells(body), Cells(FoldBody(body, |SECTIONS|, picks, area)), at)
  {
    var bodies := FoldStages(body, picks, area);
    at := StagesKeepCells(bodies, picks, area, |SECTIONS|, followed);
  }

  /** The opening text and the categories of the release. */
  function CellsIn(doc: Lines, version: string): seq<Lines> { Cells(SectionBody(doc, version)) }

  ghost function CellsAlong(docs: seq<Lines>, version: string): (lists: seq<seq<Lines>>)
    ensures |lists| == |docs|
    ensures forall i {:trigger lists[i]} :: 0 <= i < |docs| ==> lists[i] == CellsIn(docs[i], version)
  {
    seq(|docs|, i requires 0 <= i < |docs| => CellsIn(docs[i], version))
  }

  ghost predicate NextKept(lists: seq<seq<Lines>>, i: nat)
    requires i + 1 < |lists|
  {
    exists at {:trigger Kept(lists[i], lists[i + 1], at)} :: Kept(lists[i], lists[i + 1], at)
  }

  lemma {:induction false} KeptAlong(lists: seq<seq<Lines>>, n: nat) returns (at: seq<nat>)
    requires n < |lists| && lists[0] != []
    requires forall k {:trigger lists[0][k]} :: 0 < k < |lists[0]| ==> lists[0][k] != []
    requires forall i {:trigger NextKept(lists, i)} :: 0 <= i < |lists| - 1 ==> NextKept(lists, i)
    ensures Kept(lists[0], lists[n], at)
  {
    if n == 0 {
      at := KeptSelf(lists[0]);
    } else {
      at := KeptAlong(lists, n - 1);
      assert NextKept(lists, n - 1);
      var to :| Kept(lists[n - 1], lists[n - 1 + 1], to);
      at := KeptTransitive(lists[0], lists[n - 1], lists[n], at, to);
    }
  }

  /** Folding, however often, writes to the six categories only: the opening text,
      categories of any other title and later ones of the same title stand
      unchanged, all in their old order, and nothing is added but categories that
      were not there. */
  lemma RepeatedFoldsKeepCells(docs: seq<Lines>, version: string, rounds: seq<Picks>, area: Lines -> string, n: nat)
    returns (at: seq<nat>)
    requires Rounds(docs, version, rounds, area) && n <= |rounds|
    ensures Kept(CellsIn(docs[0], version), CellsIn(docs[n], version), at)
  {
    var lists := CellsAlong(docs, version);
    forall i | 0 <= i < |lists| - 1 ensures NextKept(lists, i) {
      var to := RoundKeepsCells(docs, version, rounds, area, i);
      assert Kept(lists[i], lists[i + 1], to);
    }
    forall k | 0 < k < |lists[0]| ensures lists[0][k] != [] { AllHeaded(SectionBody(docs[0], version), k); }
    at := KeptAlong(lists, n);
  }

  lemma RoundKeepsCells(docs: seq<Lines>, version: string, rounds: seq<Picks>, area: Lines -> string, i: nat)
    returns (at: seq<nat>)
    requires Rounds(docs, version, rounds, area) && i < |rounds|
    ensures Kept(CellsIn(docs[i], version), CellsIn(docs[i + 1], version), at)
  {
    assert Step(docs, version, rounds, area, i);
    FoldInPlace(docs[i], version, rounds[i], area);
    at := BodyKeepsCells(SectionBody(docs[i], version), rounds[i], area, Outside(docs[i], version).1 != []);
  }

  // ----- nothing else is in a category -----

  /** The cell of a category is its heading line and its content. */
  lemma CellHolds(body: Lines, s: Section) returns (k: nat, h: string)
    requires Has(body, s)
    ensures IsFirst(Cells(body), k, s) && IsHeading(h, s) && Cells(body)[k] == Core([h] + Content(body, s))
  {
    var a, r, x, q;
    a, h, r := CutAround(body, HeadingTest(s));
    x, q := CutBefore(r, IsCategory);
    Regrouped(a, h, x, q);
    CellsAround(a, h, x, q);
    CoreStarts([h] + x);
    FirstAfter(a, s, Core([h] + x), Tail(q));
    k := |Cells(a)|;
  }

  function FilledAll(bs: seq<Lines>): Lines {
    if bs == [] then [] else Filled(bs[0]) + FilledAll(bs[1..])
  }

  lemma {:induction false} ChunksFilled(ls: Lines)
    ensures FilledAll(Chunks(ls)) == Filled(ls)
    decreases |ls|
  {
    if ls != [] {
      var n := BulletLength(ls);
      ChunksFilled(ls[n..]);
      ChunksUnfold(ls, n);
      FilledTrimmed(ls[..n]);
      FilledConcat(ls[..n], ls[n..]);
      assert ls == ls[..n] + ls[n..];
    }
  }

  /** The text of a category is what stands before its first bullet, and its bullets. */
  lemma LeadAndBullets(body: Lines, t: Section)
    ensures Filled(Content(body, t)) == LeadIn(body, t) + FilledAll(BulletsIn(body, t))
  {
    var x := Content(body, t);
    var c := Find(x, IsBullet);
    assert x == x[..c] + x[c..];
    FilledConcat(x[..c], x[c..]);
    ChunksFilled(x[c..]);
  }
}
