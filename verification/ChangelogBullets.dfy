/** What a bullet of CHANGELOG.md says of the entry it was written for, and how
    it is read back (`render_bullet` in scripts/changelog.py). */
module ChangelogBullets {
  import opened Wrappers
  import opened Text
  import opened TextLines
  import opened EntryGrammar
  import opened ChangelogParser
  import opened ChangelogSound
  import opened BulletLists

  const FLAG := "**BREAKING** "

  /** The first line: a dash, the flag of a breaking entry, its areas between
      brackets with a slash between any two, and its prose. */
  predicate HeadShows(line: string, e: Entry) {
    line == "- " + ((if e.breaking then FLAG else "")
      + ((if e.areas == [] then "" else "[" + Join(e.areas, "/") + "] ") + e.prose))
  }

  /** The bullet is that line, then every note and the migration note, indented. */
  ghost predicate Shows(b: Lines, e: Entry) {
    && |b| == 1 + |e.detail| + (if e.migration == "" then 0 else 1)
    && HeadShows(b[0], e)
    && (forall k {:trigger e.detail[k]} :: 0 <= k < |e.detail| ==> b[1 + k] == "  " + e.detail[k])
    && (e.migration != "" ==> b[|b| - 1] == "  migration: " + e.migration)
  }

  /** What can be read off a bullet. */
  datatype Said = Said(breaking: bool, areas: seq<string>, prose: string, notes: seq<string>, migration: string)

  function SaidBy(e: Entry): Said { Said(e.breaking, e.areas, e.prose, e.detail, e.migration) }

  function AreasOf(text: string): (seq<string>, string) {
    if text == "" || text[0] != '[' then ([], text)
    else
      var i := IndexOf(text, ']');
      if i < 1 || i + 2 > |text| then ([], text) else (Split(text[1..i], '/'), text[i + 2..])
  }

  function HeadOf(line: string): (bool, seq<string>, string) {
    var text := if |line| >= 2 then line[2..] else "";
    var flagged := AfterPrefix(text, FLAG);
    var (areas, prose) := AreasOf(if flagged.Some? then flagged.value else text);
    (flagged.Some?, areas, prose)
  }

  function Unindented(lines: Lines): (r: Lines)
    ensures |r| == |lines|
  {
    seq(|lines|, k requires 0 <= k < |lines| => if |lines[k]| >= 2 then lines[k][2..] else "")
  }

  /** Reading a bullet: a flag in front says that it is breaking, brackets after it
      hold areas, and a last line that starts with the word is the migration note. */
  function ReadBullet(b: Lines): Said
    requires b != []
  {
    var (breaking, areas, prose) := HeadOf(b[0]);
    var tail := Unindented(b[1..]);
    if tail != [] && IsMigration(tail[|tail| - 1]) && |tail[|tail| - 1]| >= 11
    then Said(breaking, areas, prose, tail[..|tail| - 1], tail[|tail| - 1][11..])
    else Said(breaking, areas, prose, tail, "")
  }

  /** Prose that reads as the flag of an entry that is not breaking. */
  predicate LooksFlagged(e: Entry) { !e.breaking && e.areas == [] && AfterPrefix(e.prose, FLAG).Some? }

  lemma AreasShown(areas: seq<string>, prose: string)
    requires GoodAreas(areas) && prose != "" && prose[0] != '['
    ensures AreasOf((if areas == [] then "" else "[" + Join(areas, "/") + "] ") + prose) == (areas, prose)
  {
    if areas != [] {
      var list := Join(areas, "/");
      var text := "[" + list + "] " + prose;
      JoinedPlain(areas);
      BracketsRead(list, " " + prose);
      assert text == Bracketed(list, " " + prose);
      assert text[|list| + 3..] == prose;
      forall k | 0 <= k < |areas| ensures '/' !in areas[k] { SlugPlain(areas[k]); }
      SplitJoin(areas, '/');
    } else {
      assert "" + prose == prose;
    }
  }

  lemma FlagShown(breaking: bool, text: string)
    requires text != ""
    ensures breaking ==> AfterPrefix(FLAG + text, FLAG) == Some(text)
    ensures text[0] == '[' ==> AfterPrefix(text, FLAG).None?
  {
    PrefixRead(FLAG, text);
    assert FLAG[0] == '*';
  }

  /** The first line is read back, unless the prose passes for a flag. */
  lemma HeadRead(line: string, e: Entry)
    requires HeadShows(line, e) && GoodAreas(e.areas) && e.prose != "" && e.prose[0] != '['
    ensures HeadOf(line) == (e.breaking, e.areas, e.prose) <==> !LooksFlagged(e)
    ensures LooksFlagged(e) ==> HeadOf(line).0
  {
    var body := (if e.areas == [] then "" else "[" + Join(e.areas, "/") + "] ") + e.prose;
    AreasShown(e.areas, e.prose);
    FlagShown(e.breaking, body);
    assert line[2..] == (if e.breaking then FLAG else "") + body;
    if !e.breaking {
      assert line[2..] == body;
      assert e.areas == [] ==> body == e.prose;
      assert e.areas != [] ==> body[0] == '[';
    }
  }

  lemma TailRead(b: Lines, e: Entry)
    requires Shows(b, e) && GoodNotes(e.detail)
    ensures ReadBullet(b).notes == e.detail && ReadBullet(b).migration == e.migration
  {
    var tail := Unindented(b[1..]);
    assert |MIGRATION| == 10;
    forall k | 0 <= k < |e.detail| ensures tail[k] == e.detail[k] {
      assert b[1..][k] == "  " + e.detail[k];
    }
    if e.migration == "" {
      assert tail == e.detail;
    } else {
      MigrationShown(e.migration);
      assert tail[..|tail| - 1] == e.detail;
      assert b[1..][|tail| - 1] == "  migration: " + e.migration;
    }
  }

  lemma MigrationShown(note: string)
    ensures ("  migration: " + note)[2..] == "migration: " + note
    ensures IsMigration("migration: " + note) && ("migration: " + note)[11..] == note
  {
    var text := "migration: " + note;
    assert text[..10] == MIGRATION;
  }

  /** A bullet is read back as the entry it shows: the flag, the areas in order, the
      prose, the notes in order and the migration note; exactly unless the entry is
      not breaking, has no areas and its prose starts as the flag does. */
  lemma BulletReadBack(b: Lines, e: Entry)
    requires Shows(b, e) && WellFormed(e)
    ensures ReadBullet(b) == SaidBy(e) <==> !LooksFlagged(e)
  {
    HeadRead(b[0], e);
    TailRead(b, e);
  }
}
