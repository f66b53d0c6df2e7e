/** Texts as lists of lines, and the bullets of a changelog category
    (scripts/changelog.py). A text is held as what it splits into at line
    feeds, so the empty text is one empty line, putting "\n" between two texts
    appends their lists, and putting "\n\n" between them leaves an empty line. */
module BulletLists {
  import opened Order

  type Lines = seq<string>

  // ----- texts -----

  /** The lines of one text followed directly by another. */
  function Concat(a: Lines, b: Lines): Lines
    requires a != [] && b != []
  {
    a[..|a| - 1] + [a[|a| - 1] + b[0]] + b[1..]
  }

  /** `str.rstrip("\n")`. */
  function TrimEnd(ls: Lines): (r: Lines)
    ensures r <= ls && (ls != [] ==> r != [])
  {
    if |ls| > 1 && ls[|ls| - 1] == "" then TrimEnd(ls[..|ls| - 1]) else ls
  }

  /** `str.lstrip("\n")`. */
  function TrimStart(ls: Lines): (r: Lines)
    ensures |r| <= |ls| && (ls != [] ==> r != [])
  {
    if |ls| > 1 && ls[0] == "" then TrimStart(ls[1..]) else ls
  }

  lemma TrimEndKeeps(ls: Lines)
    requires ls != [] && ls[|ls| - 1] != ""
    ensures TrimEnd(ls) == ls && TrimEnd(ls + [""]) == ls
  {
    assert (ls + [""])[..|ls|] == ls;
  }

  /** The text without the empty lines at its end. */
  function Core(ls: Lines): (r: Lines)
    ensures r <= ls
  {
    if ls != [] && ls[|ls| - 1] == "" then Core(ls[..|ls| - 1]) else ls
  }

  lemma CoreSnoc(ls: Lines)
    ensures Core(ls + [""]) == Core(ls)
  {
    assert (ls + [""])[..|ls|] == ls;
  }

  // ----- searching -----

  /** Position of the first line with the property, or the length. */
  function Find(ls: Lines, p: string -> bool): (k: nat)
    ensures k <= |ls|
    ensures forall j {:trigger p(ls[j])} :: 0 <= j < k ==> !p(ls[j])
    ensures k < |ls| ==> p(ls[k])
  {
    if ls == [] || p(ls[0]) then 0
    else
      var k := Find(ls[1..], p);
      assert forall j :: 1 <= j < k + 1 ==> ls[j] == ls[1..][j - 1];
      k + 1
  }

  ghost predicate Lacks(ls: Lines, p: string -> bool) { forall j {:trigger p(ls[j])} :: 0 <= j < |ls| ==> !p(ls[j]) }

  lemma LacksConcat(a: Lines, b: Lines, p: string -> bool)
    ensures Lacks(a + b, p) <==> Lacks(a, p) && Lacks(b, p)
  {
    if Lacks(a + b, p) {
      assert forall j :: 0 <= j < |a| ==> a[j] == (a + b)[j];
      assert forall j :: 0 <= j < |b| ==> b[j] == (a + b)[|a| + j];
    }
  }

  /** A text cut before the first line with the property. */
  lemma CutBefore(ls: Lines, p: string -> bool) returns (x: Lines, q: Lines)
    ensures ls == x + q && Lacks(x, p) && (q == [] || p(q[0])) && |x| == Find(ls, p)
    ensures x == ls[..Find(ls, p)] && q == ls[Find(ls, p)..]
  {
    x, q := ls[..Find(ls, p)], ls[Find(ls, p)..];
  }

  lemma FindIs(ls: Lines, p: string -> bool, k: nat)
    requires k <= |ls| && Lacks(ls[..k], p) && (k < |ls| ==> p(ls[k]))
    ensures Find(ls, p) == k
  {
    assert forall j :: 0 <= j < k ==> ls[..k][j] == ls[j];
  }

  lemma FindConcat(a: Lines, b: Lines, p: string -> bool)
    ensures Find(a + b, p) == if Find(a, p) < |a| then Find(a, p) else |a| + Find(b, p)
  {
    var k := if Find(a, p) < |a| then Find(a, p) else |a| + Find(b, p);
    assert forall j :: 0 <= j < k ==> (a + b)[..k][j] == if j < |a| then a[j] else b[j - |a|];
    FindIs(a + b, p, k);
  }

  // ----- bullets -----

  predicate IsBullet(line: string) { |line| >= 2 && line[0] == '-' && line[1] == ' ' }

  /** Length of the bullet a text starts with: up to the next one. */
  function BulletLength(ls: Lines): (n: nat)
    requires ls != []
    ensures 0 < n <= |ls|
  {
    1 + Find(ls[1..], IsBullet)
  }

  /** The bullets of a text that starts with one. */
  function Chunks(ls: Lines): seq<Lines> {
    if ls == [] then []
    else
      var n := BulletLength(ls);
      [TrimEnd(ls[..n])] + Chunks(ls[n..])
  }

  /** `split_bullets`. */
  function SplitBullets(ls: Lines): seq<Lines> { Chunks(ls[Find(ls, IsBullet)..]) }

  /** A bullet as it stands between two others: one dash line, ended by text. */
  predicate IsItem(b: Lines) {
    b != [] && IsBullet(b[0]) && (forall k :: 1 <= k < |b| ==> !IsBullet(b[k])) && b[|b| - 1] != ""
  }

  ghost predicate AllItems(bs: seq<Lines>) { forall k {:trigger bs[k]} :: 0 <= k < |bs| ==> IsItem(bs[k]) }

  /** `"\n\n".join(bullets)`. */
  function JoinBullets(bs: seq<Lines>): Lines {
    if bs == [] then [] else if |bs| == 1 then bs[0] else bs[0] + [""] + JoinBullets(bs[1..])
  }

  lemma {:induction false} ChunksAreItems(ls: Lines)
    requires ls != [] ==> IsBullet(ls[0])
    ensures AllItems(Chunks(ls))
    decreases |ls|
  {
    if ls != [] {
      var n := BulletLength(ls);
      ChunkIsItem(ls, n);
      ChunksAreItems(ls[n..]);
    }
  }

  lemma ChunkIsItem(ls: Lines, n: nat)
    requires ls != [] && IsBullet(ls[0]) && n == BulletLength(ls)
    ensures IsItem(TrimEnd(ls[..n]))
  {
    TrimEndEnds(ls[..n]);
    var b := TrimEnd(ls[..n]);
    assert forall k :: 1 <= k < |b| ==> b[k] == ls[1..][k - 1];
  }

  lemma {:induction false} TrimEndEnds(ls: Lines)
    requires ls != [] && ls[0] != ""
    ensures TrimEnd(ls) != [] && TrimEnd(ls)[0] == ls[0] && TrimEnd(ls)[|TrimEnd(ls)| - 1] != ""
  {
    if |ls| > 1 && ls[|ls| - 1] == "" {
      TrimEndEnds(ls[..|ls| - 1]);
    }
  }

  /** Every bullet split off is one: it starts with its own dash line and no other. */
  lemma SplitGivesItems(ls: Lines)
    ensures AllItems(SplitBullets(ls))
  {
    ChunksAreItems(ls[Find(ls, IsBullet)..]);
  }

  lemma JoinStarts(bs: seq<Lines>)
    requires AllItems(bs) && bs != []
    ensures JoinBullets(bs) != [] && IsBullet(JoinBullets(bs)[0])
  {
    assert IsItem(bs[0]);
  }

  lemma {:induction false} JoinEnds(bs: seq<Lines>)
    requires AllItems(bs) && bs != []
    ensures JoinBullets(bs) != [] && JoinBullets(bs)[|JoinBullets(bs)| - 1] != ""
  {
    assert IsItem(bs[0]);
    if |bs| > 1 {
      JoinEnds(bs[1..]);
    }
  }

  /** Splitting the joined bullets recovers the list. */
  lemma {:induction false} SplitJoined(bs: seq<Lines>)
    requires AllItems(bs)
    ensures SplitBullets(JoinBullets(bs)) == bs
  {
    if bs != [] {
      var ls := JoinBullets(bs);
      JoinStarts(bs);
      FindIs(ls, IsBullet, 0);
      assert ls[0..] == ls;
      ChunksJoined(bs);
    }
  }

  lemma {:induction false} ChunksJoined(bs: seq<Lines>)
    requires AllItems(bs) && bs != []
    ensures Chunks(JoinBullets(bs)) == bs
  {
    assert IsItem(bs[0]);
    if |bs| == 1 {
      LoneChunk(bs[0]);
    } else {
      JoinStarts(bs[1..]);
      ChunksJoined(bs[1..]);
      FirstChunk(bs[0], JoinBullets(bs[1..]));
      JoinUnfolds(bs);
      assert bs == [bs[0]] + bs[1..];
    }
  }

  lemma JoinUnfolds(bs: seq<Lines>)
    requires |bs| > 1
    ensures JoinBullets(bs) == bs[0] + [""] + JoinBullets(bs[1..])
  {
  }

  lemma LoneChunk(b: Lines)
    requires IsItem(b)
    ensures Chunks(b) == [b]
  {
    TrimEndKeeps(b);
    assert forall k :: 0 <= k < |b[1..]| ==> b[1..][k] == b[k + 1];
    FindIs(b[1..], IsBullet, |b| - 1);
    assert b[..|b|] == b && b[|b|..] == [];
  }

  lemma FirstChunk(b: Lines, rest: Lines)
    requires IsItem(b) && rest != [] && IsBullet(rest[0])
    ensures Chunks(b + [""] + rest) == [b] + Chunks(rest)
  {
    var ls := b + [""] + rest;
    TrimEndKeeps(b);
    assert ls[1..][|b|] == rest[0];
    assert forall k :: 0 <= k < |b| ==> ls[1..][..|b|][k] == if k < |b| - 1 then b[k + 1] else "";
    FindIs(ls[1..], IsBullet, |b|);
    assert ls[..|b| + 1] == b + [""] && ls[|b| + 1..] == rest;
  }

  /** Lines before the first bullet are not part of any. */
  lemma SplitSkips(before: Lines, ls: Lines)
    requires Lacks(before, IsBullet)
    ensures SplitBullets(before + ls) == SplitBullets(ls)
  {
    FindConcat(before, ls, IsBullet);
    assert (before + ls)[|before| + Find(ls, IsBullet)..] == ls[Find(ls, IsBullet)..];
  }

  /** Empty lines at the end are not part of the last bullet. */
  lemma {:induction false} ChunksSnoc(ls: Lines)
    requires ls != []
    ensures Chunks(ls + [""]) == Chunks(ls)
    decreases |ls|
  {
    var n := BulletLength(ls);
    if n == |ls| {
      LastSnoc(ls);
    } else {
      LengthSnoc(ls);
      assert (ls + [""])[..n] == ls[..n] && (ls + [""])[n..] == ls[n..] + [""];
      ChunksSnoc(ls[n..]);
    }
  }

  lemma LengthSnoc(ls: Lines)
    requires ls != []
    ensures BulletLength(ls + [""]) == if BulletLength(ls) < |ls| then BulletLength(ls) else |ls| + 1
  {
    assert (ls + [""])[1..] == ls[1..] + [""];
    FindConcat(ls[1..], [""], IsBullet);
    FindIs([""], IsBullet, 1);
  }

  lemma LastSnoc(ls: Lines)
    requires ls != [] && BulletLength(ls) == |ls|
    ensures Chunks(ls + [""]) == Chunks(ls)
  {
    LengthSnoc(ls);
    WholeChunk(ls);
    WholeChunk(ls + [""]);
    assert (ls + [""])[..|ls|] == ls;
  }

  lemma WholeChunk(ls: Lines)
    requires ls != [] && BulletLength(ls) == |ls|
    ensures Chunks(ls) == [TrimEnd(ls)]
  {
    assert ls[..|ls|] == ls && ls[|ls|..] == [];
  }

  lemma SplitSnoc(ls: Lines)
    ensures SplitBullets(ls + [""]) == SplitBullets(ls)
  {
    var k := Find(ls, IsBullet);
    FindConcat(ls, [""], IsBullet);
    if k < |ls| {
      assert (ls + [""])[k..] == ls[k..] + [""];
      ChunksSnoc(ls[k..]);
    } else {
      FindIs([""], IsBullet, 1);
      assert (ls + [""])[|ls| + 1..] == [] && ls[k..] == [];
    }
  }

  lemma {:induction false} SplitCore(ls: Lines)
    ensures SplitBullets(Core(ls)) == SplitBullets(ls)
  {
    if ls != [] && ls[|ls| - 1] == "" {
      var init := ls[..|ls| - 1];
      SplitCore(init);
      assert ls == init + [""];
      SplitSnoc(init);
    }
  }

  lemma ChunkAt(ls: Lines, i: nat, end: nat)
    requires i < end <= |ls| && Lacks(ls[i + 1..end], IsBullet) && (end < |ls| ==> IsBullet(ls[end]))
    ensures Chunks(ls[i..]) == [TrimEnd(ls[i..end])] + Chunks(ls[end..])
  {
    var from := ls[i..];
    assert from[1..][..end - i - 1] == ls[i + 1..end];
    FindIs(from[1..], IsBullet, end - i - 1);
    assert from[..end - i] == ls[i..end] && from[end - i..] == ls[end..];
    ChunksUnfold(from, end - i);
  }

  lemma ChunksUnfold(ls: Lines, n: nat)
    requires ls != [] && n == BulletLength(ls)
    ensures Chunks(ls) == [TrimEnd(ls[..n])] + Chunks(ls[n..])
  {
  }

  /** The bullets, found from the end of the text backwards. */
  method SplitIntoBullets(ls: Lines) returns (bullets: seq<Lines>)
    ensures bullets == SplitBullets(ls)
  {
    var end := |ls|;
    bullets := [];
    for i := |ls| downto 0
      invariant i <= end <= |ls| && (end < |ls| ==> IsBullet(ls[end]))
      invariant Lacks(ls[i..end], IsBullet)
      invariant bullets == Chunks(ls[end..])
    {
      if IsBullet(ls[i]) {
        ChunkAt(ls, i, end);
        bullets := [TrimEnd(ls[i..end])] + bullets;
        end := i;
      } else {
        assert ls[i..end] == [ls[i]] + ls[i + 1..end];
      }
    }
    assert ls[..end] == ls[0..end];
    FindIs(ls, IsBullet, end);
  }

  // ----- placing new bullets -----

  /** Position of the last bullet about the area, or -1. */
  function LastOf(bs: seq<Lines>, area: Lines -> string, a: string): (k: int)
    ensures -1 <= k < |bs|
    ensures k >= 0 ==> area(bs[k]) == a
    ensures forall j :: k < j < |bs| ==> area(bs[j]) != a
  {
    if bs == [] then -1
    else if area(bs[|bs| - 1]) == a then |bs| - 1
    else LastOf(bs[..|bs| - 1], area, a)
  }

  /** Where a new bullet goes: after the last of its area, or at the end. */
  function PlaceFor(bs: seq<Lines>, b: Lines, area: Lines -> string): (i: nat)
    ensures i <= |bs|
  {
    if area(b) != "" && LastOf(bs, area, area(b)) >= 0 then LastOf(bs, area, area(b)) + 1 else |bs|
  }

  function PlaceOne(bs: seq<Lines>, b: Lines, area: Lines -> string): seq<Lines> {
    var i := PlaceFor(bs, b, area);
    bs[..i] + [b] + bs[i..]
  }

  function PlaceAll(bs: seq<Lines>, more: seq<Lines>, area: Lines -> string): seq<Lines> {
    if more == [] then bs
    else PlaceOne(PlaceAll(bs, more[..|more| - 1], area), more[|more| - 1], area)
  }

  /** The insertion loop of place_in_category. */
  method PlaceBullets(existing: seq<Lines>, bullets: seq<Lines>, area: Lines -> string) returns (placed: seq<Lines>)
    ensures placed == PlaceAll(existing, bullets, area)
  {
    placed := existing;
    for i := 0 to |bullets|
      invariant placed == PlaceAll(existing, bullets[..i], area)
    {
      assert bullets[..i + 1][..i] == bullets[..i];
      var bullet := bullets[i];
      var index := |placed|;
      if area(bullet) != "" {
        var last := LastOf(placed, area, area(bullet));
        if last >= 0 {
          index := last + 1;
        }
      }
      placed := placed[..index] + [bullet] + placed[index..];
    }
    assert bullets[..|bullets|] == bullets;
  }

  /** The bullets from `i` to `k` are all about the area. */
  ghost predicate Block(bs: seq<Lines>, area: Lines -> string, a: string, i: int, k: int) {
    0 <= i <= k < |bs| && forall j {:trigger bs[j]} :: i <= j <= k ==> area(bs[j]) == a
  }

  /** Every block of one area is a block still, with whatever was put into it. */
  ghost predicate BlocksKept(bs: seq<Lines>, now: seq<Lines>, area: Lines -> string, at: seq<nat>)
    requires |at| == |bs|
  {
    forall a, i, k {:trigger Block(bs, area, a, i, k)} ::
      a != "" && Block(bs, area, a, i, k) ==> Block(now, area, a, at[i], at[k])
  }

  /** `now` is `bs` with bullets inserted, none of them breaking a block of one area. */
  ghost predicate Inserted(bs: seq<Lines>, now: seq<Lines>, area: Lines -> string, at: seq<nat>) {
    Subsequence(bs, now, at) && BlocksKept(bs, now, area, at)
  }

  lemma OneInserted(bs: seq<Lines>, b: Lines, area: Lines -> string) returns (at: seq<nat>)
    ensures Inserted(bs, PlaceOne(bs, b, area), area, at)
    ensures multiset(PlaceOne(bs, b, area)) == multiset(bs) + multiset{b}
  {
    var p := PlaceFor(bs, b, area);
    at := seq(|bs|, k => if k < p then k else k + 1);
    assert bs == bs[..p] + bs[p..];
    forall a, i, k | a != "" && Block(bs, area, a, i, k) ensures Block(PlaceOne(bs, b, area), area, a, at[i], at[k]) {
      BlockTakesIn(bs, b, area, a, i, k);
    }
  }

  /** A bullet put inside a block is about its area. */
  lemma BlockTakesIn(bs: seq<Lines>, b: Lines, area: Lines -> string, a: string, i: int, k: int)
    requires a != "" && Block(bs, area, a, i, k)
    ensures var p := PlaceFor(bs, b, area);
      Block(PlaceOne(bs, b, area), area, a, if i < p then i else i + 1, if k < p then k else k + 1)
  {
    var p, now := PlaceFor(bs, b, area), PlaceOne(bs, b, area);
    var from, to := if i < p then i else i + 1, if k < p then k else k + 1;
    if i < p <= k {
      assert area(bs[p - 1]) == a;
    }
    forall j | from <= j <= to ensures area(now[j]) == a {
      if j < p { assert now[j] == bs[j]; } else if j > p { assert now[j] == bs[j - 1]; }
    }
  }

  lemma SubsequenceTransitive<T>(xs: seq<T>, ys: seq<T>, zs: seq<T>, at: seq<nat>, to: seq<nat>) returns (on: seq<nat>)
    requires Subsequence(xs, ys, at) && Subsequence(ys, zs, to)
    ensures Subsequence(xs, zs, on) && forall k :: 0 <= k < |at| ==> on[k] == to[at[k]]
  {
    on := seq(|at|, k requires 0 <= k < |at| => assert at[k] < |to|; to[at[k]]);
  }

  lemma InsertedTransitive(xs: seq<Lines>, ys: seq<Lines>, zs: seq<Lines>, area: Lines -> string, at: seq<nat>,
                           to: seq<nat>)
    returns (on: seq<nat>)
    requires Inserted(xs, ys, area, at) && Inserted(ys, zs, area, to)
    ensures Inserted(xs, zs, area, on)
  {
    on := SubsequenceTransitive(xs, ys, zs, at, to);
    forall a, i, k | a != "" && Block(xs, area, a, i, k) ensures Block(zs, area, a, on[i], on[k]) {
      assert Block(ys, area, a, at[i], at[k]);
    }
  }

  /** Placement is additive: the old bullets stand in the new list in their old
      order, every block of one area is a block still, and what was added is exactly
      the new ones. */
  lemma {:induction false} PlacedIsAdditive(bs: seq<Lines>, more: seq<Lines>, area: Lines -> string)
    returns (at: seq<nat>)
    ensures Inserted(bs, PlaceAll(bs, more, area), area, at)
    ensures multiset(PlaceAll(bs, more, area)) == multiset(bs) + multiset(more)
  {
    if more == [] {
      at := seq(|bs|, k => k);
    } else {
      var init, b := more[..|more| - 1], more[|more| - 1];
      var before := PlaceAll(bs, init, area);
      assert more == init + [b];
      at := PlacedIsAdditive(bs, init, area);
      var to := OneInserted(before, b, area);
      at := InsertedTransitive(bs, before, PlaceAll(bs, more, area), area, at, to);
    }
  }

  lemma {:induction false} PlacedItems(bs: seq<Lines>, more: seq<Lines>, area: Lines -> string)
    requires AllItems(bs) && AllItems(more)
    ensures AllItems(PlaceAll(bs, more, area)) && |PlaceAll(bs, more, area)| == |bs| + |more|
  {
    if more != [] {
      var init, b := more[..|more| - 1], more[|more| - 1];
      PlacedItems(bs, init, area);
      InsertedItems(PlaceAll(bs, init, area), b, PlaceFor(PlaceAll(bs, init, area), b, area));
    }
  }

  lemma InsertedItems(bs: seq<Lines>, b: Lines, i: nat)
    requires AllItems(bs) && IsItem(b) && i <= |bs|
    ensures AllItems(bs[..i] + [b] + bs[i..])
  {
  }

  // ----- grouping by area -----

  /** All bullets about the area stand together. */
  ghost predicate StandTogether(bs: seq<Lines>, area: Lines -> string, a: string) {
    forall i, j, k :: 0 <= i < j < k < |bs| && area(bs[i]) == a && area(bs[k]) == a ==> area(bs[j]) == a
  }

  /** Those of every area do. */
  ghost predicate Grouped(bs: seq<Lines>, area: Lines -> string) {
    forall a {:trigger StandTogether(bs, area, a)} :: a != "" ==> StandTogether(bs, area, a)
  }

  /** A new bullet is never placed between bullets of one area, unless after its own. */
  lemma NothingBroken(bs: seq<Lines>, b: Lines, area: Lines -> string, a: string, i: nat, k: nat)
    requires StandTogether(bs, area, a) && i < PlaceFor(bs, b, area) <= k < |bs|
    ensures area(bs[i]) != a || area(bs[k]) != a
  {
    var p := PlaceFor(bs, b, area);
    assert area(bs[p - 1]) == area(b);
    assert area(bs[k]) != area(b);
  }

  /** A bullet between the new one and an earlier one of its area has that area. */
  lemma BeforePlaced(bs: seq<Lines>, b: Lines, area: Lines -> string, i: nat, j: nat)
    requires StandTogether(bs, area, area(b)) && i < j < PlaceFor(bs, b, area) && area(bs[i]) == area(b) != ""
    ensures area(bs[j]) == area(b)
  {
    var p := PlaceFor(bs, b, area);
    assert area(bs[p - 1]) == area(b);
  }

  lemma OneStaysTogether(bs: seq<Lines>, b: Lines, area: Lines -> string, a: string)
    requires a != "" && StandTogether(bs, area, a)
    ensures StandTogether(PlaceOne(bs, b, area), area, a)
  {
    var p := PlaceFor(bs, b, area);
    var after := PlaceOne(bs, b, area);
    forall i, j, k | 0 <= i < j < k < |after| && area(after[i]) == a && area(after[k]) == a
      ensures area(after[j]) == a
    {
      if j == p {
        NothingBroken(bs, b, area, a, i, k - 1);
      } else if k == p {
        BeforePlaced(bs, b, area, i, j);
      } else if i != p {
        var i', j', k' := Shifted(i, p), Shifted(j, p), Shifted(k, p);
        assert after[i] == bs[i'] && after[j] == bs[j'] && after[k] == bs[k'];
      }
    }
  }

  function Shifted(x: nat, p: nat): nat
    requires x != p
  {
    if x < p then x else x - 1
  }

  /** If the bullets of an area stood together, they do with the new ones too,
      however other areas are scattered. */
  lemma {:induction false} PlacedStaysTogether(bs: seq<Lines>, more: seq<Lines>, area: Lines -> string, a: string)
    requires a != "" && StandTogether(bs, area, a)
    ensures StandTogether(PlaceAll(bs, more, area), area, a)
  {
    if more != [] {
      PlacedStaysTogether(bs, more[..|more| - 1], area, a);
      OneStaysTogether(PlaceAll(bs, more[..|more| - 1], area), more[|more| - 1], area, a);
    }
  }

  /** So a grouped list stays grouped. */
  lemma PlacedStaysGrouped(bs: seq<Lines>, more: seq<Lines>, area: Lines -> string)
    requires Grouped(bs, area)
    ensures Grouped(PlaceAll(bs, more, area), area)
  {
    forall a | a != "" ensures StandTogether(PlaceAll(bs, more, area), area, a) {
      PlacedStaysTogether(bs, more, area, a);
    }
  }
}
