/** Byte-wise string order, sorting and run detection: the parts of Go's `sort`
    and `strings` packages that the index compiler relies on. */
module Order {

  // ----- string order -----

  /** Lexicographic order on strings, by character value. */
  predicate Less(a: string, b: string) {
    |b| > 0 && (|a| == 0 || a[0] < b[0] || (a[0] == b[0] && Less(a[1..], b[1..])))
  }

  predicate LessEq(a: string, b: string) {
    a == b || Less(a, b)
  }

  lemma LessTransitive(a: string, b: string, c: string)
    requires Less(a, b) && Less(b, c)
    ensures Less(a, c)
  {
    if |a| > 0 && a[0] == b[0] == c[0] {
      LessTransitive(a[1..], b[1..], c[1..]);
    }
  }

  lemma {:induction false} LessIrreflexive(a: string)
    ensures !Less(a, a)
  {
    if |a| > 0 {
      LessIrreflexive(a[1..]);
    }
  }

  lemma {:induction false} LessTotal(a: string, b: string)
    ensures a == b || Less(a, b) || Less(b, a)
  {
    if |a| > 0 && |b| > 0 && a[0] == b[0] {
      LessTotal(a[1..], b[1..]);
      assert a == [a[0]] + a[1..] && b == [b[0]] + b[1..];
    }
  }

  lemma LessAsymmetric(a: string, b: string)
    requires Less(a, b)
    ensures !Less(b, a) && a != b
  {
    LessIrreflexive(a);
    if Less(b, a) {
      LessTransitive(a, b, a);
    }
  }

  // ----- sorting -----

  ghost predicate TotalPreorder<T(!new)>(le: (T, T) -> bool) {
    && (forall x, y :: le(x, y) || le(y, x))
    && (forall x, y, z :: le(x, y) && le(y, z) ==> le(x, z))
  }

  ghost predicate SortedBy<T>(le: (T, T) -> bool, xs: seq<T>) {
    forall i, j :: 0 <= i < j < |xs| ==> le(xs[i], xs[j])
  }

  /** `sort.Slice`: some sorted permutation. Nothing is promised about the
      relative order of elements that compare equal. */
  method Sort<T(!new)>(xs: seq<T>, le: (T, T) -> bool) returns (ys: seq<T>)
    requires TotalPreorder(le)
    ensures SortedBy(le, ys)
    ensures multiset(ys) == multiset(xs)
  {
    ys := [];
    for i := 0 to |xs|
      invariant SortedBy(le, ys)
      invariant multiset(ys) == multiset(xs[..i])
    {
      assert xs[..i + 1] == xs[..i] + [xs[i]];
      ys := Insert(ys, xs[i], le);
    }
    assert xs[..|xs|] == xs;
  }

  method Insert<T(!new)>(ys: seq<T>, x: T, le: (T, T) -> bool) returns (zs: seq<T>)
    requires TotalPreorder(le) && SortedBy(le, ys)
    ensures SortedBy(le, zs)
    ensures multiset(zs) == multiset(ys) + multiset{x}
  {
    var k := |ys|;
    while k > 0 && !le(ys[k - 1], x)
      invariant 0 <= k <= |ys|
      invariant forall j :: k <= j < |ys| ==> le(x, ys[j])
    {
      k := k - 1;
    }
    zs := ys[..k] + [x] + ys[k..];
    assert ys == ys[..k] + ys[k..];
    if k > 0 { BelowToo(ys, x, k, le); }
    InsertSorted(ys, x, k, le);
  }

  lemma BelowToo<T(!new)>(ys: seq<T>, x: T, k: nat, le: (T, T) -> bool)
    requires TotalPreorder(le) && SortedBy(le, ys) && 0 < k <= |ys| && le(ys[k - 1], x)
    ensures forall j :: 0 <= j < k ==> le(ys[j], x)
  {
    assert forall j :: 0 <= j < k - 1 ==> le(ys[j], ys[k - 1]);
  }

  lemma InsertSorted<T(!new)>(ys: seq<T>, x: T, k: nat, le: (T, T) -> bool)
    requires k <= |ys| && SortedBy(le, ys)
    requires forall j :: 0 <= j < k ==> le(ys[j], x)
    requires forall j :: k <= j < |ys| ==> le(x, ys[j])
    ensures SortedBy(le, ys[..k] + [x] + ys[k..])
  {
  }

  /** A permutation has the same members. */
  lemma SameMembers<T>(xs: seq<T>, ys: seq<T>)
    requires multiset(xs) == multiset(ys)
    ensures forall x :: x in xs <==> x in ys
    ensures |xs| == |ys|
  {
    assert |multiset(xs)| == |xs|;
    forall x ensures x in xs <==> x in ys {
      assert x in xs <==> x in multiset(xs);
      assert x in ys <==> x in multiset(ys);
    }
  }

  // ----- sets of strings as strictly increasing lists -----

  ghost predicate Increasing(xs: seq<string>) {
    forall i, j :: 0 <= i < j < |xs| ==> Less(xs[i], xs[j])
  }

  lemma LessEqIsTotalPreorder()
    ensures TotalPreorder(LessEq)
  {
    forall x: string, y: string ensures LessEq(x, y) || LessEq(y, x) {
      LessTotal(x, y);
    }
    forall x: string, y: string, z: string | LessEq(x, y) && LessEq(y, z) ensures LessEq(x, z) {
      if Less(x, y) && Less(y, z) {
        LessTransitive(x, y, z);
      }
    }
  }

  /** The keys of a Go map, in the order `sort.Strings` leaves them. */
  method SortedKeys(keys: set<string>) returns (xs: seq<string>)
    ensures Increasing(xs)
    ensures forall x :: x in xs <==> x in keys
  {
    var rest, listed := keys, [];
    while rest != {}
      invariant rest <= keys
      invariant forall x :: x in listed <==> x in keys - rest
      invariant forall i, j :: 0 <= i < j < |listed| ==> listed[i] != listed[j]
    {
      var x :| x in rest;
      assert keys - (rest - {x}) == (keys - rest) + {x};
      rest, listed := rest - {x}, listed + [x];
    }
    LessEqIsTotalPreorder();
    xs := Sort(listed, LessEq);
    SameMembers(xs, listed);
    DistinctPermutation(listed, xs);
  }

  lemma DistinctPermutation<T>(xs: seq<T>, ys: seq<T>)
    requires multiset(xs) == multiset(ys)
    requires forall i, j :: 0 <= i < j < |xs| ==> xs[i] != xs[j]
    ensures forall i, j :: 0 <= i < j < |ys| ==> ys[i] != ys[j]
  {
    forall i, j | 0 <= i < j < |ys| ensures ys[i] != ys[j] {
      if ys[i] == ys[j] {
        assert ys == ys[..i] + [ys[i]] + ys[i + 1..j] + [ys[j]] + ys[j + 1..];
        assert multiset(ys)[ys[i]] >= 2;
        AtMostOnce(xs, ys[i]);
      }
    }
  }

  lemma {:induction false} AtMostOnce<T>(xs: seq<T>, x: T)
    requires forall i, j :: 0 <= i < j < |xs| ==> xs[i] != xs[j]
    ensures multiset(xs)[x] <= 1
  {
    if |xs| > 0 {
      var init := xs[..|xs| - 1];
      assert xs == init + [xs[|xs| - 1]];
      AtMostOnce(init, x);
      if x == xs[|xs| - 1] {
        assert x !in init;
        assert multiset(init)[x] == 0;
      }
    }
  }

  lemma SomeMember<T>(xs: seq<T>) returns (x: T)
    requires xs != []
    ensures x in xs
  {
    x := xs[0];
  }

  /** A strictly increasing list is determined by its members. */
  lemma {:induction false} IncreasingUnique(xs: seq<string>, ys: seq<string>)
    requires Increasing(xs) && Increasing(ys)
    requires forall x :: x in xs <==> x in ys
    ensures xs == ys
  {
    if xs == [] {
      if ys != [] { var y := SomeMember(ys); }
    } else {
      assert xs[0] in ys && ys != [];
      assert ys[0] in xs;
      var i :| 0 <= i < |ys| && ys[i] == xs[0];
      var j :| 0 <= j < |xs| && xs[j] == ys[0];
      LessIrreflexive(xs[0]);
      if i > 0 && j > 0 {
        LessAsymmetric(xs[0], ys[0]);
      }
      assert xs[0] == ys[0];
      forall x ensures x in xs[1..] <==> x in ys[1..] {
        if x in xs[1..] {
          LessIrreflexive(xs[0]);
          assert x != xs[0] && x in ys;
        }
        if x in ys[1..] {
          LessIrreflexive(ys[0]);
          assert x != ys[0] && x in xs;
        }
      }
      IncreasingUnique(xs[1..], ys[1..]);
      assert xs == [xs[0]] + xs[1..] && ys == [ys[0]] + ys[1..];
    }
  }

  lemma {:induction false} LeastExists(s: set<string>) returns (m: string)
    requires s != {}
    ensures m in s && forall y :: y in s ==> LessEq(m, y)
    decreases |s|
  {
    var x :| x in s;
    m := x;
    if s != {x} {
      assert s == (s - {x}) + {x};
      m := LeastExists(s - {x});
      LessTotal(x, m);
      if Less(x, m) {
        forall y | y in s ensures LessEq(x, y) {
          if y != x && y != m {
            assert y in s - {x};
            LessTransitive(x, m, y);
          }
        }
        m := x;
      }
    }
  }

  ghost function Least(s: set<string>): (m: string)
    requires s != {}
    ensures m in s && forall y :: y in s ==> LessEq(m, y)
  {
    assert exists m :: m in s && forall y :: y in s ==> LessEq(m, y) by { var m := LeastExists(s); }
    var m :| m in s && forall y :: y in s ==> LessEq(m, y);
    m
  }

  /** The members of a set in increasing order. */
  ghost function SortedList(s: set<string>): (xs: seq<string>)
    ensures Increasing(xs)
    ensures forall x :: x in xs <==> x in s
  {
    if s == {} then []
    else
      var m := Least(s);
      var rest := SortedList(s - {m});
      assert forall k :: 0 <= k < |rest| ==> rest[k] in s - {m};
      [m] + rest
  }

  /** `sort.Strings` followed by `slices.Compact`: the distinct values in order. */
  method SortCompact(values: seq<string>) returns (xs: seq<string>)
    ensures xs == SortedList(set v | v in values)
  {
    LessEqIsTotalPreorder();
    var sorted := Sort(values, LessEq);
    SameMembers(sorted, values);
    xs := [];
    for i := 0 to |sorted|
      invariant Increasing(xs)
      invariant forall x :: x in xs <==> x in sorted[..i]
      invariant i == 0 ==> xs == []
      invariant i > 0 ==> |xs| > 0 && xs[|xs| - 1] == sorted[i - 1]
    {
      if |xs| == 0 || xs[|xs| - 1] != sorted[i] {
        forall k | 0 <= k < |xs| ensures Less(xs[k], sorted[i]) {
          assert i > 0 && LessEq(sorted[i - 1], sorted[i]);
          if k < |xs| - 1 { LessTransitive(xs[k], xs[|xs| - 1], sorted[i]); }
        }
        xs := xs + [sorted[i]];
      }
      assert sorted[..i + 1] == sorted[..i] + [sorted[i]];
    }
    assert sorted[..|sorted|] == sorted;
    IncreasingUnique(xs, SortedList(set v | v in values));
  }

  // ----- runs of equal keys -----

  /** The inner cursor of every index writer: the end of the run at `start`. */
  method RunEnd<T>(xs: seq<T>, start: nat, same: (T, T) -> bool) returns (end: nat)
    requires start < |xs|
    ensures start < end <= |xs|
    ensures forall k :: start < k < end ==> same(xs[start], xs[k])
    ensures end < |xs| ==> !same(xs[start], xs[end])
  {
    end := start + 1;
    while end < |xs| && same(xs[start], xs[end])
      invariant start < end <= |xs|
      invariant forall k :: start < k < end ==> same(xs[start], xs[k])
    {
      end := end + 1;
    }
  }

  // ----- subsequences -----

  /** `xs` are elements of `ys`, in the order they have there. */
  ghost predicate Subsequence<T>(xs: seq<T>, ys: seq<T>, at: seq<nat>) {
    && |at| == |xs|
    && (forall i :: 0 <= i < |xs| ==> at[i] < |ys| && xs[i] == ys[at[i]])
    && (forall i, j :: 0 <= i < j < |xs| ==> at[i] < at[j])
  }
}
