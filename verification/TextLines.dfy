/** Python's notion of white space and lines, as scripts/changelog.py uses it
    through `str.strip`, `str.isspace` and `str.splitlines`. */
module TextLines {

  /** `str.isspace` of one character. */
  predicate IsSpace(c: char) {
    var n := c as int;
    || 9 <= n <= 13 || 0x1c <= n <= 0x20 || n == 0x85 || n == 0xa0 || n == 0x1680
    || 0x2000 <= n <= 0x200a || n == 0x2028 || n == 0x2029 || n == 0x202f || n == 0x205f || n == 0x3000
  }

  /** A character `str.splitlines` ends a line at. */
  predicate IsBreak(c: char) {
    var n := c as int;
    10 <= n <= 13 || 0x1c <= n <= 0x1e || n == 0x85 || n == 0x2028 || n == 0x2029
  }

  predicate OneLine(s: string) { forall k :: 0 <= k < |s| ==> !IsBreak(s[k]) }

  predicate Blank(s: string) { forall k :: 0 <= k < |s| ==> IsSpace(s[k]) }

  // ----- stripping -----

  function StripLeft(s: string): (t: string)
    ensures |t| <= |s|
    ensures t != "" ==> !IsSpace(t[0])
  {
    if s != "" && IsSpace(s[0]) then StripLeft(s[1..]) else s
  }

  function StripRight(s: string): (t: string)
    ensures |t| <= |s|
    ensures t != "" ==> !IsSpace(t[|t| - 1])
  {
    if s != "" && IsSpace(s[|s| - 1]) then StripRight(s[..|s| - 1]) else s
  }

  /** What stripping cut off was white space. */
  lemma {:induction false} LeftCut(s: string) returns (gap: string)
    ensures s == gap + StripLeft(s) && Blank(gap)
  {
    if s != "" && IsSpace(s[0]) {
      var rest := LeftCut(s[1..]);
      assert s == [s[0]] + s[1..];
      assert s == [s[0]] + rest + StripLeft(s[1..]);
      gap := [s[0]] + rest;
    } else {
      gap := "";
    }
  }

  lemma {:induction false} RightCut(s: string) returns (gap: string)
    ensures s == StripRight(s) + gap && Blank(gap)
  {
    if s != "" && IsSpace(s[|s| - 1]) {
      gap := RightCut(s[..|s| - 1]);
      gap := gap + [s[|s| - 1]];
      assert s == s[..|s| - 1] + [s[|s| - 1]];
    } else {
      gap := "";
    }
  }

  /** `str.strip`. */
  function Strip(s: string): string { StripRight(StripLeft(s)) }

  predicate Stripped(s: string) { s == "" || (!IsSpace(s[0]) && !IsSpace(s[|s| - 1])) }

  lemma PartsOneLine(a: string, b: string)
    ensures OneLine(a + b) <==> OneLine(a) && OneLine(b)
  {
    assert forall k :: 0 <= k < |a| ==> (a + b)[k] == a[k];
    assert forall k :: 0 <= k < |b| ==> (a + b)[|a| + k] == b[k];
  }

  lemma StripGives(s: string)
    ensures Stripped(Strip(s))
    ensures OneLine(s) ==> OneLine(Strip(s))
  {
    var left := StripLeft(s);
    var gap := LeftCut(s);
    var end := RightCut(left);
    PartsOneLine(gap, left);
    PartsOneLine(Strip(s), end);
    FirstKept(Strip(s), end);
  }

  lemma FirstKept(s: string, end: string)
    ensures s != "" ==> (s + end)[0] == s[0]
  {
  }

  lemma {:induction false} StripLeftSkips(gap: string, s: string)
    requires Blank(gap) && (s == "" || !IsSpace(s[0]))
    ensures StripLeft(gap + s) == s
  {
    if gap == "" {
      assert gap + s == s;
    } else {
      assert (gap + s)[1..] == gap[1..] + s;
      StripLeftSkips(gap[1..], s);
    }
  }

  lemma {:induction false} StripRightSkips(s: string, gap: string)
    requires Blank(gap) && (s == "" || !IsSpace(s[|s| - 1]))
    ensures StripRight(s + gap) == s
  {
    if gap == "" {
      assert s + gap == s;
    } else {
      assert (s + gap)[..|s + gap| - 1] == s + gap[..|gap| - 1];
      StripRightSkips(s, gap[..|gap| - 1]);
    }
  }

  /** White space around stripped text is all that stripping takes off. */
  lemma StripPadded(before: string, s: string, after: string)
    requires Blank(before) && Blank(after) && Stripped(s) && s != ""
    ensures Strip(before + s + after) == s
  {
    assert before + s + after == before + (s + after);
    StripLeftSkips(before, s + after);
    StripRightSkips(s, after);
  }

  lemma StripStripped(s: string)
    requires Stripped(s)
    ensures Strip(s) == s
  {
    if s != "" {
      assert "" + s + "" == s;
      StripPadded("", s, "");
    }
  }

  // ----- lines -----

  /** Length of the break at the start of `s`: a carriage return takes a line feed with it. */
  function BreakLength(s: string): (n: nat)
    requires s != ""
    ensures 0 < n <= |s|
  {
    if s[0] == '\r' && |s| >= 2 && s[1] == '\n' then 2 else 1
  }

  /** `str.splitlines`. */
  function SplitLines(s: string): seq<string>
    decreases |s|
  {
    if s == "" then []
    else if IsBreak(s[0]) then [""] + SplitLines(s[BreakLength(s)..])
    else Widen(s[0], SplitLines(s[1..]))
  }

  /** A character put in front of the first line. */
  function Widen(c: char, lines: seq<string>): seq<string> {
    if lines == [] then [[c]] else [[c] + lines[0]] + lines[1..]
  }

  predicate AllOneLine(lines: seq<string>) { forall k {:trigger lines[k]} :: 0 <= k < |lines| ==> OneLine(lines[k]) }

  lemma {:induction false} LinesAreOneLine(s: string)
    ensures AllOneLine(SplitLines(s))
    ensures s != "" ==> SplitLines(s) != []
    decreases |s|
  {
    if s != "" {
      LinesAreOneLine(if IsBreak(s[0]) then s[BreakLength(s)..] else s[1..]);
    }
  }

  /** Lines written out, each ended by a line feed. */
  function Unlines(lines: seq<string>): string {
    if lines == [] then "" else lines[0] + "\n" + Unlines(lines[1..])
  }

  lemma {:induction false} SplitFirst(line: string, rest: string)
    requires OneLine(line)
    ensures SplitLines(line + "\n" + rest) == [line] + SplitLines(rest)
  {
    var s := line + "\n" + rest;
    if line == "" {
      assert s[1..] == rest;
    } else {
      assert s[1..] == line[1..] + "\n" + rest;
      SplitFirst(line[1..], rest);
      assert line == [line[0]] + line[1..];
      WidenFirst(line[0], line[1..], SplitLines(rest));
    }
  }

  lemma WidenFirst(c: char, line: string, lines: seq<string>)
    ensures Widen(c, [line] + lines) == [[c] + line] + lines
  {
  }

  /** Splitting what was written out gives the lines back. */
  lemma {:induction false} SplitUnlines(lines: seq<string>)
    requires AllOneLine(lines)
    ensures SplitLines(Unlines(lines)) == lines
  {
    if lines != [] {
      SplitFirst(lines[0], Unlines(lines[1..]));
      SplitUnlines(lines[1..]);
      assert lines == [lines[0]] + lines[1..];
    }
  }

  /** Text appended after a final line feed adds its lines and disturbs none. */
  lemma {:induction false} SplitAppended(s: string, more: string)
    requires s == "" || s[|s| - 1] == '\n'
    ensures SplitLines(s + more) == SplitLines(s) + SplitLines(more)
    decreases |s|
  {
    if s == "" {
      assert s + more == more;
    } else if IsBreak(s[0]) {
      var n := BreakLength(s);
      assert BreakLength(s + more) == n && (s + more)[n..] == s[n..] + more;
      SplitAppended(s[n..], more);
    } else {
      assert (s + more)[1..] == s[1..] + more && |s| > 1;
      SplitAppended(s[1..], more);
      LinesAreOneLine(s[1..]);
      WidenAppend(s[0], SplitLines(s[1..]), SplitLines(more));
    }
  }

  lemma WidenAppend(c: char, lines: seq<string>, more: seq<string>)
    requires lines != []
    ensures Widen(c, lines + more) == Widen(c, lines) + more
  {
  }

  lemma {:induction false} UnlinesAppend(a: seq<string>, b: seq<string>)
    ensures Unlines(a + b) == Unlines(a) + Unlines(b)
  {
    if a == [] {
      assert a + b == b;
    } else {
      assert (a + b)[1..] == a[1..] + b;
      UnlinesAppend(a[1..], b);
    }
  }
}
