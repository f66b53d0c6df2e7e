/** Versions, their sort key, and section 11 of Semantic Versioning 2.0.0
    (scripts/release-channel-tags.py). */
module SemVer {
  import opened Order
  import opened Wrappers

  /** A version; no prerelease identifiers means a stable release. */
  datatype Version = Version(major: nat, minor: nat, patch: nat, prerelease: seq<string>)

  predicate Stable(v: Version) { v.prerelease == [] }

  predicate IsDigit(c: char) { '0' <= c <= '9' }

  /** `str.isdigit` on the identifiers the version pattern admits. */
  predicate AllDigits(s: string) { |s| > 0 && forall k :: 0 <= k < |s| ==> IsDigit(s[k]) }

  /** `int(identifier)`. */
  function ParseInt(s: string): nat
    requires forall k :: 0 <= k < |s| ==> IsDigit(s[k])
  {
    if s == [] then 0
    else
      assert IsDigit(s[|s| - 1]);
      10 * ParseInt(s[..|s| - 1]) + (s[|s| - 1] as int - '0' as int)
  }

  // ----- Python values and their comparison -----

  datatype PyVal = Int(n: int) | Str(s: string) | Tuple(items: seq<PyVal>)

  /** `a >= b`; None is the TypeError Python raises for unlike types. */
  function PyGe(a: PyVal, b: PyVal): Option<bool>
    decreases a, 1
  {
    match a
    case Int(n) => if b.Int? then Some(n >= b.n) else None
    case Str(s) => if b.Str? then Some(!Less(s, b.s)) else None
    case Tuple(items) => if b.Tuple? then PyGeItems(items, b.items) else None
  }

  /** Tuples compare at the first pair of unequal items, then by length. */
  function PyGeItems(xs: seq<PyVal>, ys: seq<PyVal>): Option<bool>
    decreases xs, 0
  {
    if xs == [] || ys == [] then Some(|xs| >= |ys|)
    else if xs[0] == ys[0] then PyGeItems(xs[1..], ys[1..])
    else PyGe(xs[0], ys[0])
  }

  // ----- the sort key -----

  function IdentifierKey(id: string): PyVal {
    if AllDigits(id) then Tuple([Int(0), Int(ParseInt(id)), Str("")]) else Tuple([Int(1), Int(0), Str(id)])
  }

  function IdentifierKeys(ids: seq<string>): (keys: seq<PyVal>)
    ensures |keys| == |ids|
  {
    if ids == [] then [] else [IdentifierKey(ids[0])] + IdentifierKeys(ids[1..])
  }

  /** `Version.precedence`. */
  function Key(v: Version): PyVal {
    Tuple([Int(v.major), Int(v.minor), Int(v.patch), Int(if Stable(v) then 1 else 0),
           Tuple(IdentifierKeys(v.prerelease))])
  }

  /** `Version.precedence`, with its loop over the identifiers. */
  method Precedence(v: Version) returns (key: PyVal)
    ensures key == Key(v)
  {
    if Stable(v) {
      return Tuple([Int(v.major), Int(v.minor), Int(v.patch), Int(1), Tuple([])]);
    }
    var parts: seq<PyVal> := [];
    for i := 0 to |v.prerelease|
      invariant IdentifierKeys(v.prerelease) == parts + IdentifierKeys(v.prerelease[i..])
    {
      var id := v.prerelease[i];
      assert v.prerelease[i..][1..] == v.prerelease[i + 1..];
      if AllDigits(id) {
        parts := parts + [Tuple([Int(0), Int(ParseInt(id)), Str("")])];
      } else {
        parts := parts + [Tuple([Int(1), Int(0), Str(id)])];
      }
    }
    assert parts + IdentifierKeys(v.prerelease[|v.prerelease|..]) == parts;
    key := Tuple([Int(v.major), Int(v.minor), Int(v.patch), Int(0), Tuple(parts)]);
  }

  // ----- section 11 of Semantic Versioning 2.0.0 -----

  /** 11.4.1 to 11.4.3: numeric identifiers by value, others by ASCII order,
      numeric ones below the others. */
  predicate IdentifierPrecedes(x: string, y: string) {
    if AllDigits(x) && AllDigits(y) then ParseInt(x) < ParseInt(y)
    else if AllDigits(x) then true
    else if AllDigits(y) then false
    else Less(x, y)
  }

  /** 11.4 and 11.4.4: the first difference decides, then the longer list is higher. */
  predicate PrereleasePrecedes(xs: seq<string>, ys: seq<string>) {
    ys != [] &&
    (xs == [] || IdentifierPrecedes(xs[0], ys[0])
     || (!IdentifierPrecedes(ys[0], xs[0]) && PrereleasePrecedes(xs[1..], ys[1..])))
  }

  /** 11.2 and 11.3: major, minor, patch; then a prerelease is below its release. */
  predicate Precedes(a: Version, b: Version) {
    if a.major != b.major then a.major < b.major
    else if a.minor != b.minor then a.minor < b.minor
    else if a.patch != b.patch then a.patch < b.patch
    else if Stable(a) || Stable(b) then !Stable(a) && Stable(b)
    else PrereleasePrecedes(a.prerelease, b.prerelease)
  }

  lemma IdentifierKeyAgrees(x: string, y: string)
    ensures IdentifierKey(x) == IdentifierKey(y) <==> !IdentifierPrecedes(x, y) && !IdentifierPrecedes(y, x)
    ensures PyGe(IdentifierKey(x), IdentifierKey(y)) == Some(!IdentifierPrecedes(x, y))
  {
    LessTotal(x, y);
    LessIrreflexive(x);
    var kx, ky := IdentifierKey(x), IdentifierKey(y);
    if Less(x, y) { LessAsymmetric(x, y); }
    if Less(y, x) { LessAsymmetric(y, x); }
    assert kx.items[1..][1..] == [kx.items[2]] && ky.items[1..][1..] == [ky.items[2]];
    assert PyGeItems(kx.items, ky.items) == PyGe(kx, ky);
    TripleGe(kx.items, ky.items);
  }

  lemma TripleGe(xs: seq<PyVal>, ys: seq<PyVal>)
    requires |xs| == |ys| == 3
    ensures PyGeItems(xs, ys) ==
      if xs[0] != ys[0] then PyGe(xs[0], ys[0])
      else if xs[1] != ys[1] then PyGe(xs[1], ys[1])
      else if xs[2] != ys[2] then PyGe(xs[2], ys[2])
      else Some(true)
  {
    assert xs[1..][0] == xs[1] && ys[1..][0] == ys[1];
    assert xs[1..][1..] == xs[2..] && ys[1..][1..] == ys[2..];
    assert xs[2..][0] == xs[2] && ys[2..][0] == ys[2];
    assert xs[2..][1..] == [] && ys[2..][1..] == [];
    assert PyGeItems(xs[2..], ys[2..])
      == if xs[2] == ys[2] then PyGeItems(xs[2..][1..], ys[2..][1..]) else PyGe(xs[2], ys[2]);
  }

  lemma {:induction false} IdentifierKeysAgree(xs: seq<string>, ys: seq<string>)
    ensures PyGeItems(IdentifierKeys(xs), IdentifierKeys(ys)) == Some(!PrereleasePrecedes(xs, ys))
    ensures IdentifierKeys(xs) == IdentifierKeys(ys) ==> !PrereleasePrecedes(xs, ys)
  {
    if xs != [] && ys != [] {
      IdentifierKeyAgrees(xs[0], ys[0]);
      IdentifierKeyAgrees(ys[0], xs[0]);
      IdentifierKeysAgree(xs[1..], ys[1..]);
      var kx, ky := IdentifierKeys(xs), IdentifierKeys(ys);
      assert kx[1..] == IdentifierKeys(xs[1..]) && ky[1..] == IdentifierKeys(ys[1..]);
    }
  }

  /** The Python key orders versions exactly as the standard does, and comparing
      two keys never raises. */
  lemma KeyIsPrecedence(a: Version, b: Version)
    ensures PyGe(Key(a), Key(b)) == Some(!Precedes(a, b))
  {
    var ka, kb := Key(a).items, Key(b).items;
    IdentifierKeysAgree(a.prerelease, b.prerelease);
    FiveGe(ka, kb);
  }

  lemma FiveGe(xs: seq<PyVal>, ys: seq<PyVal>)
    requires |xs| == |ys| == 5
    ensures PyGeItems(xs, ys) ==
      if xs[0] != ys[0] then PyGe(xs[0], ys[0])
      else if xs[1] != ys[1] then PyGe(xs[1], ys[1])
      else if xs[2] != ys[2] then PyGe(xs[2], ys[2])
      else if xs[3] != ys[3] then PyGe(xs[3], ys[3])
      else if xs[4] != ys[4] then PyGe(xs[4], ys[4])
      else Some(true)
  {
    assert xs[1..][0] == xs[1] && ys[1..][0] == ys[1];
    assert xs[1..][1..] == xs[2..] && ys[1..][1..] == ys[2..];
    TripleGe(xs[2..], ys[2..]);
  }

  // ----- a total preorder -----

  predicate AtLeast(a: Version, b: Version) { !Precedes(a, b) }

  lemma IdentifierOrder(x: string, y: string, z: string)
    ensures !IdentifierPrecedes(x, x)
    ensures IdentifierPrecedes(x, y) ==> !IdentifierPrecedes(y, x)
    ensures !IdentifierPrecedes(x, y) && !IdentifierPrecedes(y, z) ==> !IdentifierPrecedes(x, z)
  {
    LessIrreflexive(x);
    if Less(x, y) { LessAsymmetric(x, y); }
    LessTotal(x, y);
    LessTotal(y, z);
    if Less(z, y) && Less(y, x) { LessTransitive(z, y, x); LessAsymmetric(z, x); }
    if Less(y, x) && Less(x, y) { LessAsymmetric(x, y); }
    if Less(z, y) && Less(y, z) { LessAsymmetric(z, y); }
    if Less(y, x) { LessAsymmetric(y, x); }
    if Less(z, y) { LessAsymmetric(z, y); }
  }

  lemma {:induction false} PrereleaseOrder(xs: seq<string>, ys: seq<string>, zs: seq<string>)
    ensures PrereleasePrecedes(xs, ys) ==> !PrereleasePrecedes(ys, xs)
    ensures !PrereleasePrecedes(xs, ys) && !PrereleasePrecedes(ys, zs) ==> !PrereleasePrecedes(xs, zs)
    decreases |xs| + |ys| + |zs|
  {
    if xs != [] && ys != [] {
      IdentifierOrder(xs[0], ys[0], if zs == [] then "" else zs[0]);
      IdentifierOrder(ys[0], xs[0], "");
      PrereleaseOrder(xs[1..], ys[1..], if zs == [] then [] else zs[1..]);
      if zs != [] {
        IdentifierOrder(zs[0], ys[0], xs[0]);
        IdentifierOrder(zs[0], xs[0], ys[0]);
        IdentifierOrder(ys[0], zs[0], xs[0]);
        IdentifierOrder(xs[0], zs[0], ys[0]);
        IdentifierOrder(ys[0], xs[0], zs[0]);
      }
    }
  }

  /** Precedence is a total preorder. */
  lemma AtLeastIsTotalPreorder(a: Version, b: Version, c: Version)
    ensures AtLeast(a, a)
    ensures AtLeast(a, b) || AtLeast(b, a)
    ensures AtLeast(a, b) && AtLeast(b, c) ==> AtLeast(a, c)
  {
    PrereleaseOrder(a.prerelease, a.prerelease, a.prerelease);
    PrereleaseOrder(a.prerelease, b.prerelease, c.prerelease);
  }
}
