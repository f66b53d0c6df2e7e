/** String helpers shared by the models: splitting, joining and searching. */
module Text {

  /** Position of the first `c` in `s`, or -1 (`strings.IndexByte`). */
  function IndexOf(s: string, c: char): (i: int)
    ensures -1 <= i < |s|
    ensures i >= 0 ==> s[i] == c && c !in s[..i]
    ensures i < 0 ==> c !in s
  {
    if s == [] then -1
    else if s[0] == c then 0
    else
      var r := IndexOf(s[1..], c);
      assert s == [s[0]] + s[1..];
      assert r >= 0 ==> s[..r + 1] == [s[0]] + s[1..][..r];
      if r < 0 then -1 else r + 1
  }

  lemma {:induction false} IndexPast(head: string, tail: string, c: char)
    requires c !in head
    ensures IndexOf(head + [c] + tail, c) == |head|
  {
    if head != [] {
      assert (head + [c] + tail)[1..] == head[1..] + [c] + tail;
      IndexPast(head[1..], tail, c);
    }
  }

  /** `strings.Split(s, sep)` for a one-character separator. */
  function Split(s: string, sep: char): (parts: seq<string>)
    ensures |parts| >= 1
    ensures forall k :: 0 <= k < |parts| ==> sep !in parts[k]
  {
    if s == [] then [[]]
    else if s[0] == sep then [[]] + Split(s[1..], sep)
    else
      var rest := Split(s[1..], sep);
      [[s[0]] + rest[0]] + rest[1..]
  }

  /** `strings.Join(parts, sep)`. */
  function Join(parts: seq<string>, sep: string): string {
    if parts == [] then ""
    else if |parts| == 1 then parts[0]
    else parts[0] + sep + Join(parts[1..], sep)
  }

  lemma {:induction false} JoinSplit(s: string, sep: char)
    ensures Join(Split(s, sep), [sep]) == s
  {
    if s != [] {
      JoinSplit(s[1..], sep);
      var rest := Split(s[1..], sep);
      if s[0] == sep {
        assert Split(s, sep)[1..] == rest;
      } else {
        var parts := Split(s, sep);
        assert parts[0] == [s[0]] + rest[0] && parts[1..] == rest[1..];
      }
      assert s == [s[0]] + s[1..];
    }
  }

  /** Splitting at the first separator peels off the first part. */
  lemma {:induction false} SplitPrefix(head: string, tail: string, sep: char)
    requires sep !in head
    ensures Split(head, sep) == [head]
    ensures Split(head + [sep] + tail, sep) == [head] + Split(tail, sep)
  {
    var s := head + [sep] + tail;
    if head == [] {
      assert s[1..] == tail;
    } else {
      assert head == [head[0]] + head[1..];
      SplitPrefix(head[1..], tail, sep);
      assert s[1..] == head[1..] + [sep] + tail;
    }
  }

  lemma {:induction false} SplitJoin(parts: seq<string>, sep: char)
    requires |parts| >= 1
    requires forall k :: 0 <= k < |parts| ==> sep !in parts[k]
    ensures Split(Join(parts, [sep]), sep) == parts
  {
    if |parts| == 1 {
      SplitPrefix(parts[0], [], sep);
    } else {
      SplitJoin(parts[1..], sep);
      SplitPrefix(parts[0], Join(parts[1..], [sep]), sep);
      assert parts == [parts[0]] + parts[1..];
    }
  }

  /** A separator at the end adds an empty part. */
  lemma {:induction false} SplitTrailing(head: string, sep: char)
    ensures Split(head + [sep], sep) == Split(head, sep) + [""]
  {
    if head == [] {
      assert [sep][1..] == [];
    } else {
      assert (head + [sep])[1..] == head[1..] + [sep];
      SplitTrailing(head[1..], sep);
    }
  }

  /** The parts hold no character that the text does not. */
  lemma {:induction false} SplitLacks(s: string, sep: char, c: char)
    requires c !in s
    ensures forall k {:trigger Split(s, sep)[k]} :: 0 <= k < |Split(s, sep)| ==> c !in Split(s, sep)[k]
  {
    if s != [] { SplitLacks(s[1..], sep, c); }
  }

  /** A text that does not start or end with the separator has no empty first or last part. */
  lemma {:induction false} SplitEnds(s: string, sep: char)
    requires s != []
    ensures s[0] != sep ==> Split(s, sep)[0] != []
    ensures s[|s| - 1] != sep ==> Split(s, sep)[|Split(s, sep)| - 1] != []
  {
    if |s| > 1 { SplitEnds(s[1..], sep); }
  }

  /** The parts of a text that lacks `c`. */
  lemma SplitParts(s: string, sep: char, c: char) returns (parts: seq<string>)
    requires s != [] && c !in s
    ensures parts != [] && Join(parts, [sep]) == s
    ensures forall k {:trigger parts[k]} :: 0 <= k < |parts| ==> sep !in parts[k] && c !in parts[k]
    ensures s[0] != sep ==> parts[0] != []
    ensures s[|s| - 1] != sep ==> parts[|parts| - 1] != []
  {
    parts := Split(s, sep);
    JoinSplit(s, sep);
    SplitLacks(s, sep, c);
    SplitEnds(s, sep);
  }
}
