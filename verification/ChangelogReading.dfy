/** What a changelog fragment means, read off its lines: which entries it holds
    and what is wrong with it (`parse_entries` in scripts/changelog.py). */
module ChangelogReading {
  import opened Wrappers
  import opened Text
  import opened TextLines
  import opened EntryGrammar
  import opened ChangelogParser
  import opened ChangelogMeaning

  // ----- single lines -----

  /** A line that says nothing: white space only, or a heading or comment. */
  predicate Idle(raw: string) { Blank(raw) || raw[0] == '#' }

  /** The stripped line is a detail-review marker with this reason. */
  ghost predicate ReviewSays(text: string, reason: string) {
    exists gap, body :: ReviewWritten(text, gap, body) && reason == Strip(body)
  }

  ghost predicate ReviewWritten(text: string, gap: string, body: string) {
    Blank(gap) && text == "<!--" + gap + "changelog-detail-review:" + body + "-->"
  }

  /** The stripped line starts a migration note with this text. */
  predicate MigrationSays(text: string, note: string) {
    |text| >= 10 && AnyCase(text[..10], "migration:") && note == Strip(text[10..])
  }

  /** What stands after the word. */
  function NoteOf(text: string): string { if |text| >= 10 then Strip(text[10..]) else "" }

  predicate Indented(raw: string) { raw != "" && IsSpace(raw[0]) }

  ghost predicate IsMarker(raw: string) { !Idle(raw) && exists reason :: ReviewSays(Strip(raw), reason) }

  /** An indented line under an entry. */
  ghost predicate IsNote(raw: string) { !Idle(raw) && !IsMarker(raw) && Indented(raw) }

  /** A line that should start an entry. */
  ghost predicate IsHead(raw: string) { !Idle(raw) && !IsMarker(raw) && !Indented(raw) }

  /** A marker where it belongs, not indented. */
  ghost predicate IsOpener(raw: string) { IsMarker(raw) && !Indented(raw) }

  lemma BlankStripped(s: string)
    ensures Strip(s) == "" <==> Blank(s)
  {
    var front := LeftCut(s);
    var back := RightCut(StripLeft(s));
    assert s == front + Strip(s) + back;
    StripGives(s);
    if Strip(s) != "" {
      assert s[|front|] == Strip(s)[0];
    }
  }

  lemma ReviewExactly(text: string, reason: string)
    ensures ReadReview(text) == Some(reason) <==> ReviewSays(text, reason)
  {
    if ReadReview(text) == Some(reason) {
      var gap, body := ReviewParts(text);
    }
    if ReviewSays(text, reason) {
      var gap, body :| ReviewWritten(text, gap, body) && reason == Strip(body);
      ReviewIsRead(text, gap, body);
    }
  }

  lemma ReviewParts(text: string) returns (gap: string, body: string)
    requires ReadReview(text).Some?
    ensures ReviewWritten(text, gap, body) && ReadReview(text).value == Strip(body)
  {
    var inner := AfterPrefix(text, COMMENT_OPEN).value;
    var tail := AfterPrefix(StripLeft(inner), REVIEW_WORD).value;
    body := BeforeSuffix(tail, COMMENT_CLOSE).value;
    gap := LeftCut(inner);
    PartsJoin(COMMENT_OPEN, gap, REVIEW_WORD, body, COMMENT_CLOSE);
  }

  lemma PartsJoin(a: string, b: string, c: string, d: string, e: string)
    ensures a + (b + (c + (d + e))) == a + b + c + d + e
  {
  }

  lemma ReviewIsRead(text: string, gap: string, body: string)
    requires ReviewWritten(text, gap, body)
    ensures ReadReview(text) == Some(Strip(body))
  {
    var after := REVIEW_WORD + (body + COMMENT_CLOSE);
    assert text == COMMENT_OPEN + (gap + after);
    PrefixRead(COMMENT_OPEN, gap + after);
    assert after[0] == 'c';
    StripLeftSkips(gap, after);
    PrefixRead(REVIEW_WORD, body + COMMENT_CLOSE);
    SuffixRead(body, COMMENT_CLOSE);
  }

  lemma MigrationExactly(text: string)
    ensures IsMigration(text) <==> exists note :: MigrationSays(text, note)
    ensures forall note :: MigrationSays(text, note) ==> note == NoteOf(text) == Strip(text[|MIGRATION|..])
  {
    assert |MIGRATION| == 10;
    if |text| >= 10 {
      LowerIsCase(text[..10], MIGRATION);
      if IsMigration(text) { assert MigrationSays(text, Strip(text[10..])); }
    }
  }

  lemma LineClasses(raw: string)
    ensures Idle(raw) <==> Strip(raw) == "" || raw[0] == '#'
    ensures !Idle(raw) ==> (IsMarker(raw) <==> ReadReview(Strip(raw)).Some?)
    ensures !Idle(raw) ==> raw != "" && (Indented(raw) <==> IsSpace(raw[0]))
  {
    BlankStripped(raw);
    var r := ReadReview(Strip(raw));
    if r.Some? { ReviewExactly(Strip(raw), r.value); }
    forall reason | ReviewSays(Strip(raw), reason) ensures r.Some? { ReviewExactly(Strip(raw), reason); }
  }

  // ----- which line belongs to which entry -----

  /** Line `i` gives an entry. */
  ghost predicate Heads(lines: seq<string>, hint: string -> bool, i: nat) {
    i < |lines| && IsHead(lines[i]) && GivesSome(lines[i], hint)
  }

  /** Line `j` is a note under the entry of line `i`: no other entry starts in between. */
  ghost predicate Owns(lines: seq<string>, hint: string -> bool, i: nat, j: nat) {
    && i < j < |lines| && Heads(lines, hint, i) && IsNote(lines[j])
    && forall m {:trigger Heads(lines, hint, m)} :: i < m < j ==> !Heads(lines, hint, m)
  }

  ghost predicate SaysMigration(raw: string) { exists note :: MigrationSays(Strip(raw), note) }

  /** Line `m` starts a migration note of the entry. */
  ghost predicate StartsNote(lines: seq<string>, hint: string -> bool, i: nat, m: nat) {
    Owns(lines, hint, i, m) && exists note :: note != "" && MigrationSays(Strip(lines[m]), note)
  }

  /** A migration note of the entry is open at line `j`: it was started, and no line
      that should start an entry came since. */
  ghost predicate Follows(lines: seq<string>, hint: string -> bool, i: nat, j: nat) {
    exists m: nat :: OpenSince(lines, hint, i, m, j)
  }

  ghost predicate OpenSince(lines: seq<string>, hint: string -> bool, i: nat, m: nat, j: nat) {
    i < m < j && StartsNote(lines, hint, i, m) && Calm(lines, m, j)
  }

  ghost predicate Calm(lines: seq<string>, m: nat, j: nat) {
    forall k {:trigger lines[k]} :: m < k < j && k < |lines| ==> !IsHead(lines[k])
  }

  /** Line `j` is a detail line of the entry. */
  ghost predicate DetailAt(lines: seq<string>, hint: string -> bool, i: nat, j: nat) {
    Owns(lines, hint, i, j) && !Follows(lines, hint, i, j) && !SaysMigration(lines[j])
  }

  /** Line `j` goes on with a migration note of the entry. */
  ghost predicate GoesOn(lines: seq<string>, hint: string -> bool, i: nat, j: nat) {
    Owns(lines, hint, i, j) && Follows(lines, hint, i, j) && !SaysMigration(lines[j])
  }

  /** What the first `n` lines give, in order. */
  function Gather(part: nat -> seq<string>, n: nat): seq<string> {
    if n == 0 then [] else Gather(part, n - 1) + part(n - 1)
  }

  /** Line `j` as a detail line of the entry. */
  ghost function DetailPart(lines: seq<string>, hint: string -> bool, i: nat, j: nat): seq<string> {
    if DetailAt(lines, hint, i, j) then [Strip(lines[j])] else []
  }

  ghost function DetailOf(lines: seq<string>, hint: string -> bool, i: nat): nat -> seq<string> {
    (j: nat) => DetailPart(lines, hint, i, j)
  }

  ghost function PartOf(lines: seq<string>, hint: string -> bool, i: nat): nat -> seq<string> {
    (j: nat) => NotePart(lines, hint, i, j)
  }

  /** The detail lines of the entry among the first `n`. */
  ghost function Details(lines: seq<string>, hint: string -> bool, i: nat, n: nat): seq<string> {
    Gather(DetailOf(lines, hint, i), n)
  }

  /** What line `j` adds to the migration note. */
  ghost function NotePart(lines: seq<string>, hint: string -> bool, i: nat, j: nat): seq<string> {
    if StartsNote(lines, hint, i, j) then [NoteOf(Strip(lines[j]))]
    else if GoesOn(lines, hint, i, j) then [Strip(lines[j])] else []
  }

  /** The parts of the migration note among the first `n` lines. */
  ghost function NoteParts(lines: seq<string>, hint: string -> bool, i: nat, n: nat): seq<string> {
    Gather(PartOf(lines, hint, i), n)
  }

  lemma {:induction false} GatheredNone(part: nat -> seq<string>, n: nat)
    requires forall j :: 0 <= j < n ==> part(j) == []
    ensures Gather(part, n) == []
  {
    if n > 0 { GatheredNone(part, n - 1); }
  }

  lemma {:induction false} GatheredSome(part: nat -> seq<string>, m: nat, n: nat)
    requires m < n && part(m) != []
    ensures Gather(part, n) != []
  {
    if m < n - 1 { GatheredSome(part, m, n - 1); }
  }

  lemma {:induction false} GatheredPlain(part: nat -> seq<string>, n: nat)
    requires forall j :: 0 <= j < n ==> PlainParts(part(j))
    ensures PlainParts(Gather(part, n))
  {
    if n > 0 { GatheredPlain(part, n - 1); }
  }

  /** The marker of line `r` is open at line `n`. */
  ghost predicate Open(lines: seq<string>, n: nat, r: nat) {
    r < n && r < |lines| && IsOpener(lines[r]) && Still(lines, r, n)
  }

  /** Between the two lines no marker is opened and no entry should start. */
  ghost predicate Still(lines: seq<string>, r: nat, n: nat) {
    forall k {:trigger lines[k]} :: r < k < n && k < |lines| ==> !IsOpener(lines[k]) && !IsHead(lines[k])
  }

  // ----- the parser after `n` lines -----

  /** The marker open above the entry, if there is one. */
  ghost predicate ReviewIs(lines: seq<string>, i: nat, e: Entry) {
    if e.reviewLine > 0 then OpenWith(lines, i, e.reviewLine, e.review)
    else e.review == "" && forall r: nat :: !Open(lines, i, r)
  }

  /** The entry of line `i`, with what stands below it among the first `n` lines. */
  ghost predicate EntryIs(lines: seq<string>, hint: string -> bool, n: nat, i: nat, e: Entry)
    requires n <= |lines|
  {
    && i < n && Heads(lines, hint, i) && GivesEntry(lines[i], hint, e) && e.line == i + 1 && ReviewIs(lines, i, e)
    && e.detail == Details(lines, hint, i, n) && e.migration == Join(NoteParts(lines, hint, i, n), " ")
  }

  /** `at` lists the lines among the first `n` that give entries. */
  ghost predicate HeadsAre(lines: seq<string>, hint: string -> bool, n: nat, at: seq<nat>) {
    && (forall a, b :: 0 <= a < b < |at| ==> at[a] < at[b])
    && (forall i: nat {:trigger i in at} {:trigger Heads(lines, hint, i)} ::
      i in at <==> i < n && Heads(lines, hint, i))
  }

  ghost predicate EntriesAre(lines: seq<string>, hint: string -> bool, n: nat, entries: seq<Entry>, at: seq<nat>)
    requires n <= |lines|
  {
    && |entries| == |at| && HeadsAre(lines, hint, n, at)
    && forall k: nat {:trigger EntryAt(lines, hint, n, entries, at, k)} :: k < |at| ==>
      EntryAt(lines, hint, n, entries, at, k)
  }

  ghost predicate EntryAt(lines: seq<string>, hint: string -> bool, n: nat, entries: seq<Entry>, at: seq<nat>, k: nat) {
    k < |at| == |entries| && n <= |lines| && EntryIs(lines, hint, n, at[k], entries[k])
  }

  ghost predicate ContinuingIs(lines: seq<string>, hint: string -> bool, n: nat, continuing: bool, at: seq<nat>) {
    continuing <==> at != [] && Follows(lines, hint, at[|at| - 1], n)
  }

  ghost predicate PendingIs(lines: seq<string>, n: nat, pending: Option<(nat, string)>) {
    match pending
    case None => forall r: nat :: !Open(lines, n, r)
    case Some((a, reason)) => OpenWith(lines, n, a, reason)
  }

  /** The marker of line number `a` is open at line `n`, with this reason. */
  ghost predicate OpenWith(lines: seq<string>, n: nat, a: nat, reason: string) {
    0 < a <= |lines| && Open(lines, n, a - 1) && ReviewSays(Strip(lines[a - 1]), reason)
  }

  ghost predicate StateIs(lines: seq<string>, hint: string -> bool, n: nat, p: Parser, at: seq<nat>)
    requires n <= |lines|
  {
    && EntriesAre(lines, hint, n, p.entries, at) && ContinuingIs(lines, hint, n, p.continuing, at)
    && PendingIs(lines, n, p.pending)
  }

  // ----- lines that leave the entries alone -----

  lemma EntryStays(lines: seq<string>, hint: string -> bool, n: nat, i: nat, e: Entry)
    requires n < |lines| && EntryIs(lines, hint, n, i, e) && !Owns(lines, hint, i, n)
    ensures EntryIs(lines, hint, n + 1, i, e)
  {
    PartsStay(lines, hint, n, i);
  }

  lemma PartsStay(lines: seq<string>, hint: string -> bool, n: nat, i: nat)
    requires !Owns(lines, hint, i, n)
    ensures Details(lines, hint, i, n + 1) == Details(lines, hint, i, n)
    ensures NoteParts(lines, hint, i, n + 1) == NoteParts(lines, hint, i, n)
  {
    PartsNext(lines, hint, i, n);
    NoParts(lines, hint, i, n);
  }

  lemma NoParts(lines: seq<string>, hint: string -> bool, i: nat, n: nat)
    requires !Owns(lines, hint, i, n)
    ensures DetailPart(lines, hint, i, n) == [] && NotePart(lines, hint, i, n) == []
  {
  }

  lemma FollowsStays(lines: seq<string>, hint: string -> bool, n: nat, i: nat)
    requires n < |lines| && !IsHead(lines[n]) && !StartsNote(lines, hint, i, n)
    ensures Follows(lines, hint, i, n + 1) <==> Follows(lines, hint, i, n)
  {
    var next := n + 1;
    forall m: nat ensures OpenSince(lines, hint, i, m, next) <==> OpenSince(lines, hint, i, m, n) {
      CalmStays(lines, m, n);
    }
  }

  lemma CalmStays(lines: seq<string>, m: nat, n: nat)
    requires n < |lines| && !IsHead(lines[n])
    ensures Calm(lines, m, n + 1) <==> Calm(lines, m, n)
  {
  }

  lemma HeadsStay(lines: seq<string>, hint: string -> bool, n: nat, at: seq<nat>)
    requires HeadsAre(lines, hint, n, at) && !Heads(lines, hint, n)
    ensures HeadsAre(lines, hint, n + 1, at)
  {
  }

  /** A line that is no note and gives no entry leaves every entry as it is. */
  lemma EntriesStay(lines: seq<string>, hint: string -> bool, n: nat, entries: seq<Entry>, at: seq<nat>)
    requires n < |lines| && EntriesAre(lines, hint, n, entries, at)
    requires !Heads(lines, hint, n) && (at == [] || !Owns(lines, hint, at[|at| - 1], n))
    ensures EntriesAre(lines, hint, n + 1, entries, at)
  {
    HeadsStay(lines, hint, n, at);
    var next := n + 1;
    forall k: nat | k < |at| ensures EntryAt(lines, hint, next, entries, at, k) {
      OldEntryStays(lines, hint, n, entries, at, k);
    }
  }

  lemma OldEntryStays(lines: seq<string>, hint: string -> bool, n: nat, entries: seq<Entry>, at: seq<nat>, k: nat)
    requires n < |lines| && EntriesAre(lines, hint, n, entries, at) && k < |at|
    requires k < |at| - 1 || !Owns(lines, hint, at[k], n)
    ensures EntryAt(lines, hint, n + 1, entries, at, k)
  {
    assert EntryAt(lines, hint, n, entries, at, k);
    OlderOwnsNot(lines, hint, n, at, k);
    EntryStays(lines, hint, n, at[k], entries[k]);
  }

  /** Only the last entry owns the line. */
  lemma OlderOwnsNot(lines: seq<string>, hint: string -> bool, n: nat, at: seq<nat>, k: nat)
    requires HeadsAre(lines, hint, n, at) && k < |at|
    requires k < |at| - 1 || !Owns(lines, hint, at[k], n)
    ensures !Owns(lines, hint, at[k], n)
  {
    if k < |at| - 1 {
      var m := at[|at| - 1];
      assert at[k] < m && m in at && Heads(lines, hint, m);
    }
  }

  /** The last entry owns a note. */
  lemma LastOwns(lines: seq<string>, hint: string -> bool, n: nat, at: seq<nat>)
    requires n < |lines| && HeadsAre(lines, hint, n, at) && at != [] && IsNote(lines[n])
    ensures Owns(lines, hint, at[|at| - 1], n)
  {
    LastIsGreatest(at);
    assert at[|at| - 1] in at && Heads(lines, hint, at[|at| - 1]);
  }

  lemma LastIsGreatest(at: seq<nat>)
    requires at != [] && forall a, b :: 0 <= a < b < |at| ==> at[a] < at[b]
    ensures forall m :: m in at ==> m <= at[|at| - 1]
  {
  }

  lemma OpenStays(lines: seq<string>, n: nat, r: nat)
    requires n < |lines| && !IsOpener(lines[n]) && !IsHead(lines[n])
    ensures Open(lines, n + 1, r) <==> Open(lines, n, r)
  {
    StillStays(lines, r, n);
  }

  lemma StillStays(lines: seq<string>, r: nat, n: nat)
    requires n < |lines| && !IsOpener(lines[n]) && !IsHead(lines[n])
    ensures Still(lines, r, n + 1) <==> Still(lines, r, n)
  {
  }

  lemma PendingStays(lines: seq<string>, n: nat, pending: Option<(nat, string)>)
    requires n < |lines| && !IsOpener(lines[n]) && !IsHead(lines[n]) && PendingIs(lines, n, pending)
    ensures PendingIs(lines, n + 1, pending)
  {
    var next := n + 1;
    forall r: nat ensures Open(lines, next, r) <==> Open(lines, n, r) { OpenStays(lines, n, r); }
  }

  /** A line that says nothing, or a marker. */
  lemma QuietLine(lines: seq<string>, hint: string -> bool, n: nat, p: Parser, at: seq<nat>)
    requires n < |lines| && StateIs(lines, hint, n, p, at) && !IsNote(lines[n]) && !IsHead(lines[n])
    ensures EntriesAre(lines, hint, n + 1, p.entries, at) && ContinuingIs(lines, hint, n + 1, p.continuing, at)
    ensures !IsOpener(lines[n]) ==> PendingIs(lines, n + 1, p.pending)
  {
    EntriesStay(lines, hint, n, p.entries, at);
    if at != [] { FollowsStays(lines, hint, n, at[|at| - 1]); }
    if !IsOpener(lines[n]) { PendingStays(lines, n, p.pending); }
  }

  lemma MarkerOpens(lines: seq<string>, n: nat, reason: string)
    requires n < |lines| && IsOpener(lines[n]) && ReviewSays(Strip(lines[n]), reason)
    ensures PendingIs(lines, n + 1, Some((n + 1, reason)))
  {
  }

  // ----- a line that should start an entry -----

  lemma NothingYet(lines: seq<string>, hint: string -> bool, i: nat, n: nat)
    requires n <= i + 1
    ensures Details(lines, hint, i, n) == [] && NoteParts(lines, hint, i, n) == []
  {
    forall j: nat | j < n ensures DetailOf(lines, hint, i)(j) == [] && PartOf(lines, hint, i)(j) == [] {
      NoParts(lines, hint, i, j);
    }
    GatheredNone(DetailOf(lines, hint, i), n);
    GatheredNone(PartOf(lines, hint, i), n);
  }

  lemma NewEntry(lines: seq<string>, hint: string -> bool, n: nat, pending: Option<(nat, string)>, e: Entry)
    requires n < |lines| && Heads(lines, hint, n) && PendingIs(lines, n, pending)
    requires GivesEntry(lines[n], hint, e) && Fresh(e, n + 1, pending)
    ensures EntryIs(lines, hint, n + 1, n, e)
  {
    NothingYet(lines, hint, n, n + 1);
  }

  lemma SnocMembers(at: seq<nat>, n: nat, i: nat)
    ensures i in at + [n] <==> i in at || i == n
  {
  }

  lemma HeadsGrow(lines: seq<string>, hint: string -> bool, n: nat, at: seq<nat>)
    requires HeadsAre(lines, hint, n, at) && Heads(lines, hint, n)
    ensures HeadsAre(lines, hint, n + 1, at + [n])
  {
    var more := at + [n];
    forall i: nat ensures i in more <==> i < n + 1 && Heads(lines, hint, i) {
      SnocMembers(at, n, i);
    }
    forall a, b | 0 <= a < b < |more| ensures more[a] < more[b] {
      assert at[a] in at && Heads(lines, hint, at[a]);
    }
  }

  lemma EntriesGrow(lines: seq<string>, hint: string -> bool, n: nat, entries: seq<Entry>, at: seq<nat>, e: Entry)
    requires n < |lines| && EntriesAre(lines, hint, n, entries, at) && Heads(lines, hint, n)
    requires EntryIs(lines, hint, n + 1, n, e)
    ensures EntriesAre(lines, hint, n + 1, entries + [e], at + [n])
  {
    HeadsGrow(lines, hint, n, at);
    var next, all, places := n + 1, entries + [e], at + [n];
    forall k: nat | k <= |at| ensures EntryAt(lines, hint, next, all, places, k) {
      if k < |at| {
        assert EntryAt(lines, hint, n, entries, at, k);
        EntryStays(lines, hint, n, at[k], entries[k]);
      }
    }
  }

  lemma HeadCalms(lines: seq<string>, hint: string -> bool, n: nat, i: nat)
    requires n < |lines| && IsHead(lines[n])
    ensures !Follows(lines, hint, i, n + 1) && PendingIs(lines, n + 1, None)
  {
    var next := n + 1;
    forall m: nat ensures !OpenSince(lines, hint, i, m, next) {
      HeadEnds(lines, hint, n, i, m);
    }
  }

  lemma HeadEnds(lines: seq<string>, hint: string -> bool, n: nat, i: nat, m: nat)
    requires n < |lines| && IsHead(lines[n])
    ensures !OpenSince(lines, hint, i, m, n + 1)
  {
    assert m == n ==> !Owns(lines, hint, i, m);
  }

  lemma HeadLine(lines: seq<string>, hint: string -> bool, n: nat, p: Parser, at: seq<nat>) returns (more: seq<nat>)
    requires n < |lines| && StateIs(lines, hint, n, p, at) && IsHead(lines[n])
    ensures StateIs(lines, hint, n + 1, Begin(p, n + 1, lines[n], hint), more)
  {
    var r := ReadEntry(lines[n], n + 1, p.pending, hint);
    LineRead(lines[n], n + 1, p.pending, hint);
    if r.entry.Some? {
      more := at + [n];
      NewEntry(lines, hint, n, p.pending, r.entry.value);
      EntriesGrow(lines, hint, n, p.entries, at, r.entry.value);
    } else {
      more := at;
      EntriesStay(lines, hint, n, p.entries, at);
    }
    if more != [] { HeadCalms(lines, hint, n, more[|more| - 1]); }
    HeadCalms(lines, hint, n, n);
  }

  // ----- a note -----

  ghost predicate PlainParts(parts: seq<string>) {
    forall k {:trigger parts[k]} :: 0 <= k < |parts| ==> parts[k] != "" && Stripped(parts[k])
  }

  lemma {:induction false} JoinMore(parts: seq<string>, last: string)
    ensures Join(parts + [last], " ") == if parts == [] then last else Join(parts, " ") + " " + last
  {
    if parts != [] {
      assert (parts + [last])[1..] == parts[1..] + [last];
      JoinMore(parts[1..], last);
    }
  }

  lemma {:induction false} JoinStripped(parts: seq<string>)
    requires PlainParts(parts) && parts != []
    ensures Join(parts, " ") != "" && Stripped(Join(parts, " "))
    ensures Join(parts, " ")[0] == parts[0][0]
  {
    if |parts| > 1 { JoinStripped(parts[1..]); }
  }

  lemma PartsNext(lines: seq<string>, hint: string -> bool, i: nat, n: nat)
    ensures NoteParts(lines, hint, i, n + 1) == NoteParts(lines, hint, i, n) + NotePart(lines, hint, i, n)
    ensures Details(lines, hint, i, n + 1) == Details(lines, hint, i, n) + DetailPart(lines, hint, i, n)
  {
  }

  lemma PartsPlain(lines: seq<string>, hint: string -> bool, i: nat, n: nat)
    ensures PlainParts(NoteParts(lines, hint, i, n))
  {
    forall j: nat ensures PlainParts(NotePart(lines, hint, i, j)) { PartPlain(lines, hint, i, j); }
    GatheredPlain(PartOf(lines, hint, i), n);
  }

  lemma PartPlain(lines: seq<string>, hint: string -> bool, i: nat, j: nat)
    ensures PlainParts(NotePart(lines, hint, i, j))
  {
    if StartsNote(lines, hint, i, j) {
      var note :| note != "" && MigrationSays(Strip(lines[j]), note);
      StripGives(Strip(lines[j])[10..]);
    } else if GoesOn(lines, hint, i, j) {
      BlankStripped(lines[j]);
      StripGives(lines[j]);
    }
  }

  lemma StartIsPart(lines: seq<string>, hint: string -> bool, i: nat, m: nat)
    requires StartsNote(lines, hint, i, m)
    ensures NotePart(lines, hint, i, m) == [NoteOf(Strip(lines[m]))]
  {
  }

  /** An open note has a part. */
  lemma FollowsHasPart(lines: seq<string>, hint: string -> bool, i: nat, n: nat)
    requires Follows(lines, hint, i, n)
    ensures NoteParts(lines, hint, i, n) != []
  {
    var m: nat :| OpenSince(lines, hint, i, m, n);
    StartIsPart(lines, hint, i, m);
    GatheredSome(PartOf(lines, hint, i), m, n);
  }

  /** The note after a new part started with the word. */
  lemma NoteStarted(parts: seq<string>, note: string)
    requires PlainParts(parts) && note != "" && Stripped(note)
    ensures Strip(Join(parts, " ") + " " + note) == Join(parts + [note], " ")
  {
    JoinMore(parts, note);
    var joined := Join(parts, " ") + " " + note;
    if parts == [] {
      assert joined == " " + note + "";
      StripPadded(" ", note, "");
    } else {
      JoinStripped(parts);
      assert joined[0] == Join(parts, " ")[0] && joined[|joined| - 1] == note[|note| - 1];
      StripStripped(joined);
    }
  }

  /** The last entry with what the line adds to it. */
  ghost predicate AddsTo(lines: seq<string>, hint: string -> bool, n: nat, i: nat, e: Entry, e': Entry)
    requires n < |lines|
  {
    && e' == e.(detail := e'.detail, migration := e'.migration)
    && e'.detail == e.detail + DetailPart(lines, hint, i, n)
    && e'.migration == Join(NoteParts(lines, hint, i, n) + NotePart(lines, hint, i, n), " ")
  }

  lemma Added(lines: seq<string>, hint: string -> bool, n: nat, i: nat, e: Entry, e': Entry)
    requires n < |lines| && EntryIs(lines, hint, n, i, e) && AddsTo(lines, hint, n, i, e, e')
    ensures EntryIs(lines, hint, n + 1, i, e')
  {
    PartsNext(lines, hint, i, n);
    GivesAlso(lines[i], hint, e, e');
    SameReview(lines, i, e, e');
  }

  lemma GivesAlso(raw: string, hint: string -> bool, e: Entry, e': Entry)
    requires GivesEntry(raw, hint, e) && e' == e.(detail := e'.detail, migration := e'.migration)
    ensures GivesEntry(raw, hint, e')
  {
    var x :| Captures(raw, x) && Taken(x, hint) && MeansHead(x, e);
    assert MeansHead(x, e');
  }

  lemma SameReview(lines: seq<string>, i: nat, e: Entry, e': Entry)
    requires ReviewIs(lines, i, e) && e' == e.(detail := e'.detail, migration := e'.migration)
    ensures ReviewIs(lines, i, e')
  {
  }

  lemma StartAdds(lines: seq<string>, hint: string -> bool, n: nat, i: nat, e: Entry, note: string)
    requires n < |lines| && EntryIs(lines, hint, n, i, e) && Owns(lines, hint, i, n)
    requires MigrationSays(Strip(lines[n]), note) && note != ""
    ensures StartsNote(lines, hint, i, n)
    ensures AddsTo(lines, hint, n, i, e, e.(migration := Strip(e.migration + " " + note)))
  {
    PartsPlain(lines, hint, i, n);
    StripGives(Strip(lines[n])[10..]);
    NoteStarted(NoteParts(lines, hint, i, n), note);
  }

  lemma EmptyAdds(lines: seq<string>, hint: string -> bool, n: nat, i: nat, e: Entry)
    requires n < |lines| && EntryIs(lines, hint, n, i, e) && Owns(lines, hint, i, n)
    requires MigrationSays(Strip(lines[n]), "")
    ensures !StartsNote(lines, hint, i, n) && AddsTo(lines, hint, n, i, e, e)
  {
    MigrationExactly(Strip(lines[n]));
    assert NoteParts(lines, hint, i, n) + [] == NoteParts(lines, hint, i, n);
  }

  lemma PlainAdds(lines: seq<string>, hint: string -> bool, n: nat, i: nat, e: Entry)
    requires n < |lines| && EntryIs(lines, hint, n, i, e) && Owns(lines, hint, i, n) && !SaysMigration(lines[n])
    ensures !StartsNote(lines, hint, i, n)
    ensures Follows(lines, hint, i, n) ==>
      AddsTo(lines, hint, n, i, e, e.(migration := e.migration + " " + Strip(lines[n])))
    ensures !Follows(lines, hint, i, n) ==> AddsTo(lines, hint, n, i, e, e.(detail := e.detail + [Strip(lines[n])]))
  {
    var parts := NoteParts(lines, hint, i, n);
    assert parts + [] == parts;
    if Follows(lines, hint, i, n) {
      FollowsHasPart(lines, hint, i, n);
      JoinMore(parts, Strip(lines[n]));
    }
  }

  /** The entries with the last one replaced. */
  function Amended(entries: seq<Entry>, e: Entry): (r: seq<Entry>)
    requires entries != []
    ensures |r| == |entries|
  {
    entries[..|entries| - 1] + [e]
  }

  lemma EntriesAmended(lines: seq<string>, hint: string -> bool, n: nat, entries: seq<Entry>, at: seq<nat>, e: Entry)
    requires n < |lines| && EntriesAre(lines, hint, n, entries, at) && at != [] && !Heads(lines, hint, n)
    requires EntryAt(lines, hint, n + 1, Amended(entries, e), at, |at| - 1)
    ensures EntriesAre(lines, hint, n + 1, Amended(entries, e), at)
  {
    HeadsStay(lines, hint, n, at);
    var next, all := n + 1, Amended(entries, e);
    forall k: nat | k < |at| ensures EntryAt(lines, hint, next, all, at, k) {
      if k < |at| - 1 { OtherAmended(lines, hint, n, entries, at, e, k); }
    }
  }

  lemma OtherAmended(lines: seq<string>, hint: string -> bool, n: nat, entries: seq<Entry>, at: seq<nat>, e: Entry,
                     k: nat)
    requires n < |lines| && EntriesAre(lines, hint, n, entries, at) && k < |at| - 1
    ensures EntryAt(lines, hint, n + 1, Amended(entries, e), at, k)
  {
    OldEntryStays(lines, hint, n, entries, at, k);
    assert Amended(entries, e)[k] == entries[k];
  }

  lemma LastAmended(lines: seq<string>, hint: string -> bool, n: nat, entries: seq<Entry>, at: seq<nat>, e: Entry)
    requires n < |lines| && EntriesAre(lines, hint, n, entries, at) && at != []
    requires AddsTo(lines, hint, n, at[|at| - 1], entries[|at| - 1], e)
    ensures EntryAt(lines, hint, n + 1, Amended(entries, e), at, |at| - 1)
  {
    assert EntryAt(lines, hint, n, entries, at, |at| - 1);
    Added(lines, hint, n, at[|at| - 1], entries[|at| - 1], e);
  }

  /** What a note line makes of the last entry. */
  function Noted(e: Entry, continuing: bool, text: string): Entry {
    if IsMigration(text) then
      if NoteOf(text) == "" then e else e.(migration := Strip(e.migration + " " + NoteOf(text)))
    else if continuing then e.(migration := e.migration + " " + text)
    else e.(detail := e.detail + [text])
  }

  lemma ContinueShape(p: Parser, number: nat, text: string)
    requires p.entries != []
    ensures var q := Continue(p, number, text); var last := p.entries[|p.entries| - 1];
      && q.entries == Amended(p.entries, Noted(last, p.continuing, text)) && q.pending == p.pending
      && (q.continuing <==> p.continuing || (IsMigration(text) && NoteOf(text) != ""))
  {
    assert p.entries == p.entries[..|p.entries| - 1] + [p.entries[|p.entries| - 1]];
    assert |MIGRATION| == 10;
  }

  lemma NotedAdds(lines: seq<string>, hint: string -> bool, n: nat, i: nat, e: Entry)
    requires n < |lines| && EntryIs(lines, hint, n, i, e) && Owns(lines, hint, i, n)
    ensures AddsTo(lines, hint, n, i, e, Noted(e, Follows(lines, hint, i, n), Strip(lines[n])))
    ensures StartsNote(lines, hint, i, n) <==> IsMigration(Strip(lines[n])) && NoteOf(Strip(lines[n])) != ""
  {
    var text := Strip(lines[n]);
    MigrationExactly(text);
    if IsMigration(text) {
      assert MigrationSays(text, NoteOf(text));
      if NoteOf(text) == "" {
        EmptyAdds(lines, hint, n, i, e);
      } else {
        StartAdds(lines, hint, n, i, e, NoteOf(text));
      }
    } else {
      PlainAdds(lines, hint, n, i, e);
    }
  }

  lemma StartedFollows(lines: seq<string>, hint: string -> bool, i: nat, n: nat)
    requires StartsNote(lines, hint, i, n)
    ensures Follows(lines, hint, i, n + 1)
  {
    assert OpenSince(lines, hint, i, n, n + 1);
  }

  lemma NoteLine(lines: seq<string>, hint: string -> bool, n: nat, p: Parser, at: seq<nat>)
    requires n < |lines| && StateIs(lines, hint, n, p, at) && IsNote(lines[n]) && at != []
    ensures StateIs(lines, hint, n + 1, Continue(p, n + 1, Strip(lines[n])), at)
  {
    LastOwns(lines, hint, n, at);
    LastNoted(lines, hint, n, p.entries, at, p.continuing);
    ContinueShape(p, n + 1, Strip(lines[n]));
    PendingStays(lines, n, p.pending);
    StillFollows(lines, hint, n, at[|at| - 1]);
  }

  lemma LastNoted(lines: seq<string>, hint: string -> bool, n: nat, entries: seq<Entry>, at: seq<nat>,
                  continuing: bool)
    requires n < |lines| && EntriesAre(lines, hint, n, entries, at) && at != [] && !Heads(lines, hint, n)
    requires Owns(lines, hint, at[|at| - 1], n) && ContinuingIs(lines, hint, n, continuing, at)
    ensures EntriesAre(lines, hint, n + 1,
        Amended(entries, Noted(entries[|at| - 1], continuing, Strip(lines[n]))), at)
    ensures StartsNote(lines, hint, at[|at| - 1], n) <==>
      IsMigration(Strip(lines[n])) && NoteOf(Strip(lines[n])) != ""
  {
    var last := entries[|at| - 1];
    assert EntryAt(lines, hint, n, entries, at, |at| - 1);
    NotedAdds(lines, hint, n, at[|at| - 1], last);
    LastAmended(lines, hint, n, entries, at, Noted(last, continuing, Strip(lines[n])));
    EntriesAmended(lines, hint, n, entries, at, Noted(last, continuing, Strip(lines[n])));
  }

  lemma StillFollows(lines: seq<string>, hint: string -> bool, n: nat, i: nat)
    requires n < |lines| && IsNote(lines[n])
    ensures Follows(lines, hint, i, n + 1) <==> Follows(lines, hint, i, n) || StartsNote(lines, hint, i, n)
  {
    if StartsNote(lines, hint, i, n) {
      StartedFollows(lines, hint, i, n);
    } else {
      FollowsStays(lines, hint, n, i);
    }
  }

  lemma LooseNote(lines: seq<string>, hint: string -> bool, n: nat, p: Parser, at: seq<nat>)
    requires n < |lines| && StateIs(lines, hint, n, p, at) && IsNote(lines[n]) && at == []
    ensures StateIs(lines, hint, n + 1, Continue(p, n + 1, Strip(lines[n])), at)
  {
    EntriesStay(lines, hint, n, p.entries, at);
    PendingStays(lines, n, p.pending);
  }

  lemma MarkerLine(lines: seq<string>, hint: string -> bool, n: nat, p: Parser, at: seq<nat>)
    requires n < |lines| && StateIs(lines, hint, n, p, at) && IsMarker(lines[n])
    ensures StateIs(lines, hint, n + 1, Step(p, n + 1, lines[n], hint), at)
  {
    LineClasses(lines[n]);
    var reason := ReadReview(Strip(lines[n])).value;
    ReviewExactly(Strip(lines[n]), reason);
    QuietLine(lines, hint, n, p, at);
    if IsOpener(lines[n]) { MarkerOpens(lines, n, reason); }
  }

  /** One line keeps what the parser holds. */
  lemma StepMeans(lines: seq<string>, hint: string -> bool, n: nat, p: Parser, at: seq<nat>) returns (more: seq<nat>)
    requires n < |lines| && StateIs(lines, hint, n, p, at)
    ensures StateIs(lines, hint, n + 1, Step(p, n + 1, lines[n], hint), more)
  {
    more := at;
    LineClasses(lines[n]);
    if IsMarker(lines[n]) {
      MarkerLine(lines, hint, n, p, at);
    } else if IsHead(lines[n]) {
      more := HeadLine(lines, hint, n, p, at);
    } else if !IsNote(lines[n]) {
      QuietLine(lines, hint, n, p, at);
    } else if at == [] {
      LooseNote(lines, hint, n, p, at);
    } else {
      NoteLine(lines, hint, n, p, at);
    }
  }

  lemma StartIs(lines: seq<string>, hint: string -> bool)
    ensures StateIs(lines, hint, 0, START, [])
  {
  }

  /** After any number of lines the parser holds what they say. */
  lemma {:induction false} RunMeans(lines: seq<string>, hint: string -> bool, n: nat) returns (at: seq<nat>)
    requires n <= |lines|
    ensures StateIs(lines, hint, n, Run(lines[..n], hint), at)
  {
    if n == 0 {
      StartIs(lines, hint);
      at := [];
    } else {
      assert lines[..n][..n - 1] == lines[..n - 1];
      at := RunMeans(lines, hint, n - 1);
      at := StepMeans(lines, hint, n - 1, Run(lines[..n - 1], hint), at);
    }
  }

  // ----- what is reported -----

  /** What is wrong with line `j` where it stands. */
  ghost predicate LineFault(lines: seq<string>, hint: string -> bool, j: nat, f: Fault)
    requires j < |lines|
  {
    match f
    case IndentedReview => IsMarker(lines[j]) && Indented(lines[j])
    case ThinReason => IsOpener(lines[j]) && exists reason :: ReviewSays(Strip(lines[j]), reason) && |reason| < 30
    case ReviewAlreadyOpen(since) => IsOpener(lines[j]) && since > 0 && Open(lines, j, since - 1)
    case NoEntryAbove => IsNote(lines[j]) && !Owned(lines, hint, j)
    case DetailTooLong => Owned(lines, hint, j) && |Strip(lines[j])| > 200
    case EmptyMigration => Owned(lines, hint, j) && MigrationSays(Strip(lines[j]), "")
    case _ => IsHead(lines[j]) && HeadFault(lines[j], hint, f)
  }

  /** Line `j` is a note under some entry. */
  ghost predicate Owned(lines: seq<string>, hint: string -> bool, j: nat) {
    exists i: nat :: Owns(lines, hint, i, j)
  }

  lemma AtMembers(number: nat, faults: seq<Fault>, p: Problem)
    ensures p in At(number, faults) <==> p.line == number && p.fault in faults
  {
    var all := At(number, faults);
    if p.line == number && p.fault in faults {
      var k :| 0 <= k < |faults| && faults[k] == p.fault;
      assert all[k] == p;
    }
  }

  lemma OneOpen(lines: seq<string>, n: nat, r: nat, r': nat)
    requires n <= |lines| && Open(lines, n, r) && Open(lines, n, r')
    ensures r == r'
  {
  }

  lemma PendingOpen(lines: seq<string>, n: nat, pending: Option<(nat, string)>, since: nat)
    requires n <= |lines| && PendingIs(lines, n, pending)
    ensures since > 0 && Open(lines, n, since - 1) <==> pending.Some? && pending.value.0 == since
  {
    if pending.Some? && since > 0 && Open(lines, n, since - 1) { OneOpen(lines, n, since - 1, pending.value.0 - 1); }
  }

  /** The line is faulted for exactly this. */
  ghost predicate Faulted(lines: seq<string>, hint: string -> bool, j: nat, faults: seq<Fault>)
    requires j < |lines|
  {
    forall f :: f in faults <==> LineFault(lines, hint, j, f)
  }

  lemma QuietFaults(lines: seq<string>, hint: string -> bool, n: nat)
    requires n < |lines| && Idle(lines[n])
    ensures Faulted(lines, hint, n, [])
  {
  }

  lemma IndentedFaults(lines: seq<string>, hint: string -> bool, n: nat)
    requires n < |lines| && IsMarker(lines[n]) && Indented(lines[n])
    ensures Faulted(lines, hint, n, [IndentedReview])
  {
  }

  /** What an opened marker is faulted for. */
  function OpenerFaults(pending: Option<(nat, string)>, reason: string): seq<Fault> {
    (if |reason| < DETAIL_REVIEW_MIN then [ThinReason] else [])
    + if pending.Some? then [ReviewAlreadyOpen(pending.value.0)] else []
  }

  lemma ThinFault(lines: seq<string>, hint: string -> bool, n: nat, reason: string)
    requires n < |lines| && IsOpener(lines[n])
    requires forall other :: ReviewSays(Strip(lines[n]), other) <==> other == reason
    ensures LineFault(lines, hint, n, ThinReason) <==> |reason| < 30
  {
  }

  lemma OpenFault(lines: seq<string>, hint: string -> bool, n: nat, pending: Option<(nat, string)>, since: nat)
    requires n < |lines| && IsOpener(lines[n]) && PendingIs(lines, n, pending)
    ensures LineFault(lines, hint, n, ReviewAlreadyOpen(since)) <==> pending.Some? && pending.value.0 == since
  {
    PendingOpen(lines, n, pending, since);
  }

  lemma OtherFault(lines: seq<string>, hint: string -> bool, n: nat, f: Fault)
    requires n < |lines| && IsOpener(lines[n]) && !f.ThinReason? && !f.ReviewAlreadyOpen?
    ensures !LineFault(lines, hint, n, f)
  {
  }

  lemma OpenerFault(lines: seq<string>, hint: string -> bool, n: nat, pending: Option<(nat, string)>, reason: string,
                    f: Fault)
    requires n < |lines| && IsOpener(lines[n]) && PendingIs(lines, n, pending)
    requires forall other :: ReviewSays(Strip(lines[n]), other) <==> other == reason
    ensures f in OpenerFaults(pending, reason) <==> LineFault(lines, hint, n, f)
  {
    OpenerFaultKinds(pending, reason, f);
    match f
    case ThinReason => ThinFault(lines, hint, n, reason);
    case ReviewAlreadyOpen(since) => OpenFault(lines, hint, n, pending, since);
    case _ => OtherFault(lines, hint, n, f);
  }

  lemma OpenerFaultKinds(pending: Option<(nat, string)>, reason: string, f: Fault)
    ensures f in OpenerFaults(pending, reason) <==>
      (f == ThinReason && |reason| < 30) || (pending.Some? && f == ReviewAlreadyOpen(pending.value.0))
  {
  }

  lemma OpenerFaulted(lines: seq<string>, hint: string -> bool, n: nat, pending: Option<(nat, string)>, reason: string)
    requires n < |lines| && IsOpener(lines[n]) && PendingIs(lines, n, pending)
    requires ReadReview(Strip(lines[n])) == Some(reason)
    ensures Faulted(lines, hint, n, OpenerFaults(pending, reason))
  {
    forall other ensures ReviewSays(Strip(lines[n]), other) <==> other == reason {
      ReviewExactly(Strip(lines[n]), other);
    }
    forall f ensures f in OpenerFaults(pending, reason) <==> LineFault(lines, hint, n, f) {
      OpenerFault(lines, hint, n, pending, reason, f);
    }
  }

  lemma HeadFaults(lines: seq<string>, hint: string -> bool, n: nat, faults: seq<Fault>)
    requires n < |lines| && IsHead(lines[n]) && forall f :: f in faults <==> HeadFault(lines[n], hint, f)
    ensures Faulted(lines, hint, n, faults)
  {
    forall f ensures f in faults <==> LineFault(lines, hint, n, f) { HeadLineFault(lines, hint, n, f); }
  }

  lemma HeadLineFault(lines: seq<string>, hint: string -> bool, n: nat, f: Fault)
    requires n < |lines| && IsHead(lines[n])
    ensures HeadFault(lines[n], hint, f) <==> LineFault(lines, hint, n, f)
  {
    if HeadFault(lines[n], hint, f) { NotHeadFault(lines[n], hint, f); }
  }

  lemma NotHeadFault(raw: string, hint: string -> bool, f: Fault)
    requires HeadFault(raw, hint, f)
    ensures f.NotAnEntry? || f.UnknownKind? || f.BracketProse? || f.NeedsMarker? || f.BadArea? || f.SummaryTooLong?
  {
  }

  /** What a note under an entry is faulted for. */
  function NoteFaults(text: string): seq<Fault> {
    (if |text| > DETAIL_LINE_MAX then [DetailTooLong] else [])
    + if IsMigration(text) && NoteOf(text) == "" then [EmptyMigration] else []
  }

  lemma NoteFault(lines: seq<string>, hint: string -> bool, n: nat, f: Fault)
    requires n < |lines| && Owned(lines, hint, n) && IsNote(lines[n])
    requires MigrationSays(Strip(lines[n]), "") <==> IsMigration(Strip(lines[n])) && NoteOf(Strip(lines[n])) == ""
    ensures f in NoteFaults(Strip(lines[n])) <==> LineFault(lines, hint, n, f)
  {
  }

  lemma NoteFaulted(lines: seq<string>, hint: string -> bool, n: nat)
    requires n < |lines| && Owned(lines, hint, n)
    ensures Faulted(lines, hint, n, NoteFaults(Strip(lines[n])))
  {
    EmptyNote(Strip(lines[n]));
    var i: nat :| Owns(lines, hint, i, n);
    forall f ensures f in NoteFaults(Strip(lines[n])) <==> LineFault(lines, hint, n, f) {
      NoteFault(lines, hint, n, f);
    }
  }

  lemma EmptyNote(text: string)
    ensures MigrationSays(text, "") <==> IsMigration(text) && NoteOf(text) == ""
  {
    MigrationExactly(text);
  }

  lemma LooseFaulted(lines: seq<string>, hint: string -> bool, n: nat)
    requires n < |lines| && IsNote(lines[n]) && !Owned(lines, hint, n)
    ensures Faulted(lines, hint, n, [NoEntryAbove])
  {
  }

  // ----- the problems of a run -----

  ghost predicate ProblemsAre(lines: seq<string>, hint: string -> bool, n: nat, problems: seq<Problem>)
    requires n <= |lines|
  {
    forall p: Problem :: p in problems <==> 0 < p.line <= n && LineFault(lines, hint, p.line - 1, p.fault)
  }

  lemma ProblemsGrow(lines: seq<string>, hint: string -> bool, n: nat, problems: seq<Problem>, faults: seq<Fault>)
    requires n < |lines| && ProblemsAre(lines, hint, n, problems) && Faulted(lines, hint, n, faults)
    ensures ProblemsAre(lines, hint, n + 1, problems + At(n + 1, faults))
  {
    var all := problems + At(n + 1, faults);
    forall p: Problem
      ensures p in all <==> 0 < p.line <= n + 1 && LineFault(lines, hint, p.line - 1, p.fault)
    {
      AtMembers(n + 1, faults, p);
      assert p in all <==> p in problems || p in At(n + 1, faults);
    }
  }

  /** What a step reports. */
  lemma StepFaults(lines: seq<string>, hint: string -> bool, n: nat, p: Parser, at: seq<nat>)
    returns (faults: seq<Fault>)
    requires n < |lines| && StateIs(lines, hint, n, p, at)
    ensures Faulted(lines, hint, n, faults)
    ensures Step(p, n + 1, lines[n], hint).problems == p.problems + At(n + 1, faults)
  {
    LineClasses(lines[n]);
    faults := [];
    if Idle(lines[n]) {
      QuietFaults(lines, hint, n);
    } else if IsMarker(lines[n]) {
      faults := MarkerFaults(lines, hint, n, p, at);
    } else if IsHead(lines[n]) {
      LineRead(lines[n], n + 1, p.pending, hint);
      faults := ReadEntry(lines[n], n + 1, p.pending, hint).faults;
      HeadFaults(lines, hint, n, faults);
    } else {
      faults := UnderFaults(lines, hint, n, p, at);
    }
  }

  lemma MarkerFaults(lines: seq<string>, hint: string -> bool, n: nat, p: Parser, at: seq<nat>)
    returns (faults: seq<Fault>)
    requires n < |lines| && StateIs(lines, hint, n, p, at) && IsMarker(lines[n])
    ensures Faulted(lines, hint, n, faults)
    ensures Step(p, n + 1, lines[n], hint).problems == p.problems + At(n + 1, faults)
  {
    LineClasses(lines[n]);
    if Indented(lines[n]) {
      IndentedFaults(lines, hint, n);
      faults := [IndentedReview];
    } else {
      var reason := ReadReview(Strip(lines[n])).value;
      OpenerFaulted(lines, hint, n, p.pending, reason);
      faults := OpenerFaults(p.pending, reason);
    }
  }

  lemma UnderFaults(lines: seq<string>, hint: string -> bool, n: nat, p: Parser, at: seq<nat>)
    returns (faults: seq<Fault>)
    requires n < |lines| && StateIs(lines, hint, n, p, at) && IsNote(lines[n])
    ensures Faulted(lines, hint, n, faults)
    ensures Continue(p, n + 1, Strip(lines[n])).problems == p.problems + At(n + 1, faults)
  {
    var text := Strip(lines[n]);
    if at == [] {
      NoneOwn(lines, hint, n);
      LooseFaulted(lines, hint, n);
      faults := [NoEntryAbove];
    } else {
      LastOwns(lines, hint, n, at);
      NoteFaulted(lines, hint, n);
      faults := NoteFaults(text);
      ContinueReports(p, n + 1, text);
    }
  }

  lemma NoneOwn(lines: seq<string>, hint: string -> bool, n: nat)
    requires HeadsAre(lines, hint, n, [])
    ensures !Owned(lines, hint, n)
  {
    forall i: nat ensures !Owns(lines, hint, i, n) { assert Heads(lines, hint, i) ==> i >= n; }
  }

  lemma ContinueReports(p: Parser, number: nat, text: string)
    requires p.entries != []
    ensures Continue(p, number, text).problems == p.problems + At(number, NoteFaults(text))
  {
    assert |MIGRATION| == 10;
    var long := if |text| > DETAIL_LINE_MAX then [DetailTooLong] else [];
    assert long + [] == long;
    assert At(number, long) + At(number, [EmptyMigration]) == At(number, long + [EmptyMigration]);
  }

  lemma {:induction false} RunReports(lines: seq<string>, hint: string -> bool, n: nat)
    requires n <= |lines|
    ensures ProblemsAre(lines, hint, n, Run(lines[..n], hint).problems)
  {
    if n > 0 {
      assert lines[..n][..n - 1] == lines[..n - 1];
      RunReports(lines, hint, n - 1);
      var p := Run(lines[..n - 1], hint);
      var at := RunMeans(lines, hint, n - 1);
      var faults := StepFaults(lines, hint, n - 1, p, at);
      ProblemsGrow(lines, hint, n - 1, p.problems, faults);
    }
  }

  // ----- what only a whole entry can answer -----

  ghost predicate BreaksAt(raw: string) { exists x :: Captures(raw, x) && SaysBreaking(x) }

  /** How many detail lines the entry of line `i` has. */
  ghost function DetailCount(lines: seq<string>, hint: string -> bool, i: nat): nat {
    |set j: nat | j < |lines| && DetailAt(lines, hint, i, j)|
  }

  ghost predicate Unmarked(lines: seq<string>, i: nat) { forall r: nat :: !Open(lines, i, r) }

  ghost predicate NeverStarts(lines: seq<string>, hint: string -> bool, i: nat) {
    forall j: nat :: !StartsNote(lines, hint, i, j)
  }

  /** What is wrong with the entries as a whole, and the line it is reported for:
      a breaking entry without a migration note; more than three detail lines and no
      marker above; a marker above an entry with no more than three, or above none. */
  ghost predicate WholeFault(lines: seq<string>, hint: string -> bool, number: nat, f: Fault) {
    match f
    case NoMigration => number > 0 && MissesNote(lines, hint, number - 1)
    case OverBudget => number > 0 && GoesOver(lines, hint, number - 1)
    case ReviewExcusesNothing => number > 0 && ExcusesNone(lines, hint, number - 1)
    case ReviewWithoutEntry => number > 0 && Open(lines, |lines|, number - 1)
    case _ => false
  }

  /** The entry of line `i` is breaking and has no migration note. */
  ghost predicate MissesNote(lines: seq<string>, hint: string -> bool, i: nat) {
    Heads(lines, hint, i) && BreaksAt(lines[i]) && NeverStarts(lines, hint, i)
  }

  /** It has more than three detail lines and no marker above it. */
  ghost predicate GoesOver(lines: seq<string>, hint: string -> bool, i: nat) {
    Heads(lines, hint, i) && Unmarked(lines, i) && DetailCount(lines, hint, i) > 3
  }

  /** It has no more, and the marker of line `r` above it. */
  ghost predicate NeedsNone(lines: seq<string>, hint: string -> bool, i: nat, r: nat) {
    Heads(lines, hint, i) && Open(lines, i, r) && DetailCount(lines, hint, i) <= 3
  }

  ghost predicate ExcusesNone(lines: seq<string>, hint: string -> bool, r: nat) {
    exists i: nat :: NeedsNone(lines, hint, i, r)
  }

  ghost function Chosen(at: nat -> bool, n: nat): set<nat> { set j: nat | j < n && at(j) }

  lemma {:induction false} GatherCount(part: nat -> seq<string>, at: nat -> bool, n: nat)
    requires forall j: nat :: |part(j)| == if at(j) then 1 else 0
    ensures |Gather(part, n)| == |Chosen(at, n)|
  {
    if n > 0 {
      GatherCount(part, at, n - 1);
      assert Chosen(at, n) == if at(n - 1) then Chosen(at, n - 1) + {n - 1} else Chosen(at, n - 1);
    }
  }

  lemma DetailsCounted(lines: seq<string>, hint: string -> bool, i: nat)
    ensures |Details(lines, hint, i, |lines|)| == DetailCount(lines, hint, i)
  {
    var at := (j: nat) => DetailAt(lines, hint, i, j);
    GatherCount(DetailOf(lines, hint, i), at, |lines|);
    assert Chosen(at, |lines|) == set j: nat | j < |lines| && DetailAt(lines, hint, i, j);
  }

  lemma MigrationMeans(lines: seq<string>, hint: string -> bool, i: nat, e: Entry)
    requires EntryIs(lines, hint, |lines|, i, e)
    ensures e.migration == "" <==> NeverStarts(lines, hint, i)
  {
    var parts := NoteParts(lines, hint, i, |lines|);
    PartsPlain(lines, hint, i, |lines|);
    if parts != [] { JoinStripped(parts); }
    if NeverStarts(lines, hint, i) {
      forall j: nat ensures PartOf(lines, hint, i)(j) == [] { NoPartUnlessStarted(lines, hint, i, j); }
      GatheredNone(PartOf(lines, hint, i), |lines|);
    }
    if j: nat :| StartsNote(lines, hint, i, j) {
      StartIsPart(lines, hint, i, j);
      GatheredSome(PartOf(lines, hint, i), j, |lines|);
    }
  }

  lemma NoPartUnlessStarted(lines: seq<string>, hint: string -> bool, i: nat, j: nat)
    requires NeverStarts(lines, hint, i)
    ensures NotePart(lines, hint, i, j) == []
  {
    forall m: nat ensures !OpenSince(lines, hint, i, m, j) {
    }
  }

  lemma BreakingMeansIt(raw: string, hint: string -> bool, e: Entry)
    requires GivesEntry(raw, hint, e)
    ensures e.breaking <==> BreaksAt(raw)
  {
    var x :| Captures(raw, x) && Taken(x, hint) && MeansHead(x, e);
    forall y | Captures(raw, y) ensures y == x { OneReading(raw, x, y); }
  }

  lemma {:induction false} MigrationReported(entries: seq<Entry>, p: Problem)
    ensures p in MigrationProblems(entries) <==>
      p.fault.NoMigration? && exists e :: e in entries && LacksMigration(e) && e.line == p.line
  {
    if entries != [] {
      var init, last := entries[..|entries| - 1], entries[|entries| - 1];
      assert entries == init + [last];
      MigrationReported(init, p);
    }
  }

  lemma {:induction false} BudgetReported(entries: seq<Entry>, p: Problem)
    ensures p in BudgetProblems(entries) <==> exists e :: e in entries && p in BudgetProblem(e)
  {
    if entries != [] {
      var init, last := entries[..|entries| - 1], entries[|entries| - 1];
      assert entries == init + [last];
      BudgetReported(init, p);
    }
  }

  lemma ReviewMeans(lines: seq<string>, i: nat, e: Entry, number: nat)
    requires i <= |lines| && ReviewIs(lines, i, e)
    ensures e.reviewLine == 0 <==> Unmarked(lines, i)
    ensures number > 0 ==> (e.reviewLine == number <==> Open(lines, i, number - 1))
  {
    if number > 0 && e.reviewLine > 0 && Open(lines, i, number - 1) {
      OneOpen(lines, i, number - 1, e.reviewLine - 1);
    }
  }

  /** What the entry of line `i` is faulted for. */
  ghost predicate EntryFault(lines: seq<string>, hint: string -> bool, i: nat, p: Problem) {
    || (p == Problem(i + 1, NoMigration) && MissesNote(lines, hint, i))
    || (p == Problem(i + 1, OverBudget) && GoesOver(lines, hint, i))
    || (p.fault.ReviewExcusesNothing? && p.line > 0 && NeedsNone(lines, hint, i, p.line - 1))
  }

  function EntryProblems(e: Entry): seq<Problem> {
    (if LacksMigration(e) then [Problem(e.line, NoMigration)] else []) + BudgetProblem(e)
  }

  /** The problems of an entry, by what holds of it. */
  lemma ProblemsOf(e: Entry, p: Problem, misses: bool, over: bool, none: bool)
    requires LacksMigration(e) == misses && (e.reviewLine == 0 && |e.detail| > 3) == over
    requires p.line > 0 ==> (e.reviewLine == p.line && |e.detail| <= 3) == none
    ensures p in EntryProblems(e) <==>
      || (p == Problem(e.line, NoMigration) && misses)
      || (p == Problem(e.line, OverBudget) && over)
      || (p.fault.ReviewExcusesNothing? && p.line > 0 && none)
  {
  }

  lemma MissesExactly(lines: seq<string>, hint: string -> bool, i: nat, e: Entry)
    requires EntryIs(lines, hint, |lines|, i, e)
    ensures LacksMigration(e) <==> MissesNote(lines, hint, i)
  {
    MigrationMeans(lines, hint, i, e);
    BreakingMeansIt(lines[i], hint, e);
  }

  lemma BudgetExactly(lines: seq<string>, hint: string -> bool, i: nat, e: Entry, number: nat)
    requires i <= |lines| && Heads(lines, hint, i) && ReviewIs(lines, i, e) && |e.detail| == DetailCount(lines, hint, i)
    ensures e.reviewLine == 0 && |e.detail| > 3 <==> GoesOver(lines, hint, i)
    ensures number > 0 ==> (e.reviewLine == number && |e.detail| <= 3 <==> NeedsNone(lines, hint, i, number - 1))
  {
    ReviewMeans(lines, i, e, number);
  }

  lemma DetailsOf(lines: seq<string>, hint: string -> bool, i: nat, e: Entry)
    requires EntryIs(lines, hint, |lines|, i, e)
    ensures |e.detail| == DetailCount(lines, hint, i)
  {
    DetailsCounted(lines, hint, i);
  }

  lemma EntryFaults(lines: seq<string>, hint: string -> bool, i: nat, e: Entry, p: Problem)
    requires EntryIs(lines, hint, |lines|, i, e)
    ensures p in EntryProblems(e) <==> EntryFault(lines, hint, i, p)
  {
    MissesExactly(lines, hint, i, e);
    DetailsOf(lines, hint, i, e);
    BudgetExactly(lines, hint, i, e, p.line);
    FaultsOf(lines, hint, i, e, p);
  }

  lemma FaultsOf(lines: seq<string>, hint: string -> bool, i: nat, e: Entry, p: Problem)
    requires e.line == i + 1 && (LacksMigration(e) <==> MissesNote(lines, hint, i))
    requires e.reviewLine == 0 && |e.detail| > 3 <==> GoesOver(lines, hint, i)
    requires p.line > 0 ==> (e.reviewLine == p.line && |e.detail| <= 3 <==> NeedsNone(lines, hint, i, p.line - 1))
    ensures p in EntryProblems(e) <==> EntryFault(lines, hint, i, p)
  {
    ProblemsOf(e, p, MissesNote(lines, hint, i), GoesOver(lines, hint, i),
               p.line > 0 && NeedsNone(lines, hint, i, p.line - 1));
  }

  lemma AllReported(entries: seq<Entry>, p: Problem)
    ensures p in MigrationProblems(entries) + BudgetProblems(entries) <==>
      exists k: nat :: k < |entries| && p in EntryProblems(entries[k])
  {
    MigrationReported(entries, p);
    BudgetReported(entries, p);
    forall e | e in entries ensures exists k: nat :: k < |entries| && entries[k] == e {
      var k: nat :| k < |entries| && entries[k] == e;
    }
  }

  lemma FaultsAt(lines: seq<string>, hint: string -> bool, entries: seq<Entry>, at: seq<nat>, k: nat, p: Problem)
    requires EntriesAre(lines, hint, |lines|, entries, at) && k < |entries|
    ensures p in EntryProblems(entries[k]) <==> EntryFault(lines, hint, at[k], p)
  {
    assert EntryAt(lines, hint, |lines|, entries, at, k);
    EntryFaults(lines, hint, at[k], entries[k], p);
  }

  lemma FaultyIsListed(lines: seq<string>, hint: string -> bool, entries: seq<Entry>, at: seq<nat>, i: nat, p: Problem)
    requires EntriesAre(lines, hint, |lines|, entries, at) && EntryFault(lines, hint, i, p)
    ensures i in at
  {
    assert Heads(lines, hint, i);
  }

  lemma EntriesReported(lines: seq<string>, hint: string -> bool, entries: seq<Entry>, at: seq<nat>, p: Problem)
    requires EntriesAre(lines, hint, |lines|, entries, at)
    ensures p in MigrationProblems(entries) + BudgetProblems(entries) <==>
      exists i: nat :: EntryFault(lines, hint, i, p)
  {
    AllReported(entries, p);
    forall k: nat | k < |entries| ensures p in EntryProblems(entries[k]) <==> EntryFault(lines, hint, at[k], p) {
      FaultsAt(lines, hint, entries, at, k, p);
    }
    forall i: nat | EntryFault(lines, hint, i, p) ensures exists k: nat :: k < |entries| && at[k] == i {
      FaultyIsListed(lines, hint, entries, at, i, p);
      var k: nat :| k < |at| && at[k] == i;
    }
  }

  ghost predicate LeftOver(lines: seq<string>, p: Problem) {
    p.fault.ReviewWithoutEntry? && p.line > 0 && Open(lines, |lines|, p.line - 1)
  }

  lemma FaultOfEntry(lines: seq<string>, hint: string -> bool, p: Problem, i: nat)
    requires EntryFault(lines, hint, i, p)
    ensures WholeFault(lines, hint, p.line, p.fault)
  {
    if p.fault.ReviewExcusesNothing? { ExcusedAt(lines, hint, i, p.line - 1); }
  }

  lemma ExcusedAt(lines: seq<string>, hint: string -> bool, i: nat, r: nat)
    requires NeedsNone(lines, hint, i, r)
    ensures ExcusesNone(lines, hint, r)
  {
  }

  lemma EntryOfFault(lines: seq<string>, hint: string -> bool, p: Problem) returns (i: nat)
    requires WholeFault(lines, hint, p.line, p.fault) && !p.fault.ReviewWithoutEntry?
    ensures EntryFault(lines, hint, i, p)
  {
    i := p.line - 1;
    if p.fault.ReviewExcusesNothing? { i :| NeedsNone(lines, hint, i, p.line - 1); }
  }

  lemma FaultKinds(lines: seq<string>, hint: string -> bool, p: Problem)
    ensures WholeFault(lines, hint, p.line, p.fault) <==>
      LeftOver(lines, p) || exists i: nat :: EntryFault(lines, hint, i, p)
  {
    forall i: nat | EntryFault(lines, hint, i, p) ensures WholeFault(lines, hint, p.line, p.fault) {
      FaultOfEntry(lines, hint, p, i);
    }
    if WholeFault(lines, hint, p.line, p.fault) && !p.fault.ReviewWithoutEntry? {
      var i := EntryOfFault(lines, hint, p);
    }
  }

  lemma WholeFaults(lines: seq<string>, hint: string -> bool, p: Parser, at: seq<nat>, problem: Problem)
    requires EntriesAre(lines, hint, |lines|, p.entries, at) && PendingIs(lines, |lines|, p.pending)
    ensures problem in Finish(p) <==> WholeFault(lines, hint, problem.line, problem.fault)
  {
    EntriesReported(lines, hint, p.entries, at, problem);
    PendingOpen(lines, |lines|, p.pending, problem.line);
    FaultKinds(lines, hint, problem);
  }

  /** Problem `p` is what the lines say. */
  ghost predicate Reported(lines: seq<string>, requireMigration: bool, hint: string -> bool, p: Problem) {
    || (0 < p.line <= |lines| && LineFault(lines, hint, p.line - 1, p.fault))
    || (requireMigration && WholeFault(lines, hint, p.line, p.fault))
  }

  /** What a fragment means: its entries are those of the lines that give one, in
      order, each with its section, breaking flag, areas, prose, detail, migration
      note and marker as written; and its problems are exactly what is wrong with
      its lines and its entries. */
  lemma FragmentMeans(text: string, requireMigration: bool, hint: string -> bool) returns (at: seq<nat>)
    ensures var lines := SplitLines(text); var parsed := Parse(text, requireMigration, hint);
      && EntriesAre(lines, hint, |lines|, parsed.entries, at)
      && forall p :: p in parsed.problems <==> Reported(lines, requireMigration, hint, p)
  {
    var lines := SplitLines(text);
    assert lines[..|lines|] == lines;
    at := RunMeans(lines, hint, |lines|);
    RunReports(lines, hint, |lines|);
    var run, parsed := Run(lines, hint), Parse(text, requireMigration, hint);
    forall p ensures p in parsed.problems <==> Reported(lines, requireMigration, hint, p) {
      if requireMigration { WholeFaults(lines, hint, run, at, p); }
    }
  }
}
