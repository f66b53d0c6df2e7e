/** The compat baseline: comparing a run against it, ratcheting it forward and
    linting edits of it (cmd/compat/baseline.go). */
module Baseline {
  import opened Order

  datatype Status = Pass | Skip | NA | Unimplemented | Fail | Unknown(text: string)

  /** An entry with its key. Keys are arbitrary: nothing below depends on how
      `baselineKey` forms them, only on which entries share one. */
  datatype Entry = Entry(
    suite: string, service: string, group: string, test: string, op: string, status: Status, key: string)

  /** `statusRank`. */
  function Rank(s: Status): nat {
    match s
    case Pass => 4
    case Skip => 3
    case NA => 3
    case Unimplemented => 2
    case Fail => 1
    case Unknown(_) => 0
  }

  type Table = map<string, Entry>

  /** What keeps a test out of the gate: quarantined keys and candidate groups. */
  datatype Exemptions = Exemptions(flaky: set<string>, candidate: string -> bool)

  predicate Exempt(x: Exemptions, e: Entry) { e.key in x.flaky || x.candidate(e.group) }

  ghost predicate UniqueKeys(entries: seq<Entry>) {
    forall i, j :: 0 <= i < j < |entries| ==> entries[i].key != entries[j].key
  }

  // ----- tables -----

  /** `baselineEntryMap`: the last entry of a key wins. */
  function ByKey(entries: seq<Entry>): (t: Table)
    ensures forall k {:trigger t[k]} :: k in t ==> t[k] in entries && t[k].key == k
    ensures forall e {:trigger e in entries} :: e in entries ==> e.key in t
  {
    if entries == [] then map[]
    else
      var init, last := entries[..|entries| - 1], entries[|entries| - 1];
      assert entries == init + [last];
      ByKey(init)[last.key := last]
  }

  method BuildTable(entries: seq<Entry>) returns (t: Table)
    ensures t == ByKey(entries)
  {
    t := map[];
    for i := 0 to |entries|
      invariant t == ByKey(entries[..i])
    {
      assert entries[..i + 1][..i] == entries[..i];
      t := t[entries[i].key := entries[i]];
    }
    assert entries[..|entries|] == entries;
  }

  lemma {:induction false} UniqueEntryKept(entries: seq<Entry>, e: Entry)
    requires UniqueKeys(entries) && e in entries
    ensures e.key in ByKey(entries) && ByKey(entries)[e.key] == e
  {
    var init, last := entries[..|entries| - 1], entries[|entries| - 1];
    assert entries == init + [last];
    if e != last {
      assert e in init;
      var k :| 0 <= k < |init| && init[k] == e;
      assert entries[k] == e && entries[k].key != last.key;
      UniqueEntryKept(init, e);
    }
  }

  /** `baselineFromMap`: the entries in key order. */
  ghost function FromTable(t: Table): (entries: seq<Entry>)
    ensures |entries| == |SortedList(t.Keys)|
    ensures forall i :: 0 <= i < |entries| ==> entries[i] == t[SortedList(t.Keys)[i]]
  {
    var keys := SortedList(t.Keys);
    seq(|keys|, i requires 0 <= i < |keys| => assert keys[i] in keys; t[keys[i]])
  }

  ghost predicate KeyedTable(t: Table) { forall k :: k in t ==> t[k].key == k }

  method WriteTable(t: Table) returns (entries: seq<Entry>)
    ensures entries == FromTable(t)
  {
    var keys := SortedKeys(t.Keys);
    IncreasingUnique(keys, SortedList(t.Keys));
    entries := seq(|keys|, i requires 0 <= i < |keys| => assert keys[i] in keys; t[keys[i]]);
  }

  lemma FromTableKeys(t: Table)
    requires KeyedTable(t)
    ensures var entries, keys := FromTable(t), SortedList(t.Keys);
      forall i :: 0 <= i < |entries| ==> keys[i] in t && entries[i].key == keys[i]
    ensures UniqueKeys(FromTable(t))
  {
    var entries, keys := FromTable(t), SortedList(t.Keys);
    forall i | 0 <= i < |entries| ensures entries[i].key == keys[i] && keys[i] in t {
      assert keys[i] in keys;
    }
    forall i, j | 0 <= i < j < |entries| ensures entries[i].key != entries[j].key {
      LessAsymmetric(keys[i], keys[j]);
    }
  }

  lemma FromTableMembers(t: Table, e: Entry)
    requires KeyedTable(t)
    ensures e in FromTable(t) <==> e.key in t && t[e.key] == e
  {
    FromTableKeys(t);
    var entries, keys := FromTable(t), SortedList(t.Keys);
    if e.key in t && t[e.key] == e {
      assert e.key in keys;
      var i :| 0 <= i < |keys| && keys[i] == e.key;
      assert entries[i] == e;
    }
  }

  /** Writing a table and reading it back changes nothing. */
  lemma TableRoundTrip(t: Table)
    requires KeyedTable(t)
    ensures ByKey(FromTable(t)) == t && UniqueKeys(FromTable(t))
  {
    var entries := FromTable(t);
    FromTableKeys(t);
    forall k | k in t ensures k in ByKey(entries) && ByKey(entries)[k] == t[k] {
      FromTableMembers(t, t[k]);
      UniqueEntryKept(entries, t[k]);
    }
    forall k | k in ByKey(entries) ensures k in t {
      FromTableMembers(t, ByKey(entries)[k]);
    }
  }

  // ----- comparing a run -----

  datatype Finding = Missing(key: string) | Regressed(key: string) | NewFailure(key: string)

  function CheckExpected(e: Entry, current: Table, x: Exemptions): seq<Finding> {
    if Exempt(x, e) then []
    else if e.key !in current then [Missing(e.key)]
    else if Rank(current[e.key].status) < Rank(e.status) then [Regressed(e.key)]
    else []
  }

  function CheckActual(e: Entry, baseline: Table, x: Exemptions): seq<Finding> {
    if e.status == Fail && !Exempt(x, e) && e.key !in baseline then [NewFailure(e.key)] else []
  }

  function ExpectedFindings(baseline: seq<Entry>, current: Table, x: Exemptions): seq<Finding> {
    if baseline == [] then []
    else ExpectedFindings(baseline[..|baseline| - 1], current, x) + CheckExpected(baseline[|baseline| - 1], current, x)
  }

  function ActualFindings(report: seq<Entry>, expected: Table, x: Exemptions): seq<Finding> {
    if report == [] then []
    else ActualFindings(report[..|report| - 1], expected, x) + CheckActual(report[|report| - 1], expected, x)
  }

  /** The findings of compareBaselineWith, before they are sorted for printing. */
  function Compare(baseline: seq<Entry>, report: seq<Entry>, x: Exemptions): seq<Finding> {
    ExpectedFindings(baseline, ByKey(report), x) + ActualFindings(report, ByKey(baseline), x)
  }

  /** The first loop of compareBaselineWith. */
  method FindRegressions(baseline: seq<Entry>, current: Table, x: Exemptions) returns (findings: seq<Finding>)
    ensures findings == ExpectedFindings(baseline, current, x)
  {
    findings := [];
    for i := 0 to |baseline|
      invariant findings == ExpectedFindings(baseline[..i], current, x)
    {
      assert baseline[..i + 1][..i] == baseline[..i];
      var e := baseline[i];
      if Exempt(x, e) {
        continue;
      }
      if e.key !in current {
        findings := findings + [Missing(e.key)];
        continue;
      }
      if Rank(current[e.key].status) < Rank(e.status) {
        findings := findings + [Regressed(e.key)];
      }
    }
    assert baseline[..|baseline|] == baseline;
  }

  /** The second loop: failures the baseline says nothing about. */
  method FindNewFailures(report: seq<Entry>, expected: Table, x: Exemptions) returns (findings: seq<Finding>)
    ensures findings == ActualFindings(report, expected, x)
  {
    findings := [];
    for i := 0 to |report|
      invariant findings == ActualFindings(report[..i], expected, x)
    {
      assert report[..i + 1][..i] == report[..i];
      var e := report[i];
      if e.status != Fail || Exempt(x, e) || e.key in expected {
        continue;
      }
      findings := findings + [NewFailure(e.key)];
    }
    assert report[..|report|] == report;
  }

  /** `compareBaselineWith`. */
  method CompareBaseline(baseline: seq<Entry>, report: seq<Entry>, x: Exemptions) returns (findings: seq<Finding>)
    ensures findings == Compare(baseline, report, x)
  {
    var current := BuildTable(report);
    var expected := BuildTable(baseline);
    var regressions := FindRegressions(baseline, current, x);
    var failures := FindNewFailures(report, expected, x);
    findings := regressions + failures;
  }

  lemma {:induction false} NoRegressions(baseline: seq<Entry>, current: Table, x: Exemptions)
    ensures ExpectedFindings(baseline, current, x) == [] <==>
      forall e :: e in baseline ==> CheckExpected(e, current, x) == []
  {
    if baseline != [] {
      var init, last := baseline[..|baseline| - 1], baseline[|baseline| - 1];
      assert baseline == init + [last];
      NoRegressions(init, current, x);
    }
  }

  lemma {:induction false} NoNewFailures(report: seq<Entry>, expected: Table, x: Exemptions)
    ensures ActualFindings(report, expected, x) == [] <==>
      forall e :: e in report ==> CheckActual(e, expected, x) == []
  {
    if report != [] {
      var init, last := report[..|report| - 1], report[|report| - 1];
      assert report == init + [last];
      NoNewFailures(init, expected, x);
    }
  }

  /** How many of the entries are like this. */
  function HowMany(entries: seq<Entry>, p: Entry -> bool): nat {
    if entries == [] then 0
    else HowMany(entries[..|entries| - 1], p) + if p(entries[|entries| - 1]) then 1 else 0
  }

  /** What is worse than a status: pass, then skip and not applicable, then
      unimplemented, then fail, then anything unknown. */
  predicate Worse(now: Status, was: Status) {
    match was
    case Pass => now != Pass
    case Skip => !now.Pass? && !now.Skip? && !now.NA?
    case NA => !now.Pass? && !now.Skip? && !now.NA?
    case Unimplemented => now.Fail? || now.Unknown?
    case Fail => now.Unknown?
    case Unknown(_) => false
  }

  lemma WorseIsLower(now: Status, was: Status)
    ensures Worse(now, was) <==> Rank(now) < Rank(was)
  {
  }

  /** Neither quarantined nor in a candidate group. */
  predicate Gated(x: Exemptions, e: Entry) { e.key !in x.flaky && !x.candidate(e.group) }

  /** An expectation the run has no result for. */
  function IsMissing(k: string, report: seq<Entry>, x: Exemptions): Entry -> bool {
    (e: Entry) => e.key == k && Gated(x, e) && k !in ByKey(report)
  }

  /** One it has a worse last result for. */
  function IsRegressed(k: string, report: seq<Entry>, x: Exemptions): Entry -> bool {
    (e: Entry) => e.key == k && Gated(x, e) && k in ByKey(report) && Worse(ByKey(report)[k].status, e.status)
  }

  /** A failure the baseline does not know. */
  function IsNewFailure(k: string, baseline: seq<Entry>, x: Exemptions): Entry -> bool {
    (e: Entry) => e.key == k && Gated(x, e) && e.status == Fail && k !in ByKey(baseline)
  }

  lemma {:induction false} ExpectedCounted(baseline: seq<Entry>, report: seq<Entry>, x: Exemptions, k: string)
    ensures var found := multiset(ExpectedFindings(baseline, ByKey(report), x));
      && found[Missing(k)] == HowMany(baseline, IsMissing(k, report, x))
      && found[Regressed(k)] == HowMany(baseline, IsRegressed(k, report, x)) && found[NewFailure(k)] == 0
  {
    if baseline != [] {
      var init, last := baseline[..|baseline| - 1], baseline[|baseline| - 1];
      ExpectedCounted(init, report, x, k);
      OneExpected(last, report, x, k);
    }
  }

  lemma OneExpected(e: Entry, report: seq<Entry>, x: Exemptions, k: string)
    ensures var found := multiset(CheckExpected(e, ByKey(report), x));
      && found[Missing(k)] == (if IsMissing(k, report, x)(e) then 1 else 0)
      && found[Regressed(k)] == (if IsRegressed(k, report, x)(e) then 1 else 0) && found[NewFailure(k)] == 0
  {
    if e.key in ByKey(report) { WorseIsLower(ByKey(report)[e.key].status, e.status); }
  }

  lemma {:induction false} ActualCounted(report: seq<Entry>, baseline: seq<Entry>, x: Exemptions, k: string)
    ensures var found := multiset(ActualFindings(report, ByKey(baseline), x));
      && found[NewFailure(k)] == HowMany(report, IsNewFailure(k, baseline, x))
      && found[Missing(k)] == found[Regressed(k)] == 0
  {
    if report != [] {
      ActualCounted(report[..|report| - 1], baseline, x, k);
      OneActual(report[|report| - 1], baseline, x, k);
    }
  }

  lemma OneActual(e: Entry, baseline: seq<Entry>, x: Exemptions, k: string)
    ensures var found := multiset(CheckActual(e, ByKey(baseline), x));
      && found[NewFailure(k)] == (if IsNewFailure(k, baseline, x)(e) then 1 else 0)
      && found[Missing(k)] == found[Regressed(k)] == 0
  {
  }

  /** Which findings a comparison has, and how many: one for every gated expectation
      without a result or with a worse one, and one for every gated failure that is new. */
  lemma FindingsExactly(baseline: seq<Entry>, report: seq<Entry>, x: Exemptions, k: string)
    ensures var found := multiset(Compare(baseline, report, x));
      && found[Missing(k)] == HowMany(baseline, IsMissing(k, report, x))
      && found[Regressed(k)] == HowMany(baseline, IsRegressed(k, report, x))
      && found[NewFailure(k)] == HowMany(report, IsNewFailure(k, baseline, x))
  {
    ExpectedCounted(baseline, report, x, k);
    ActualCounted(report, baseline, x, k);
  }

  /** A gated expectation is met. */
  predicate Met(e: Entry, current: Table, x: Exemptions) {
    !Exempt(x, e) ==> e.key in current && Rank(current[e.key].status) >= Rank(e.status)
  }

  /** A comparison is clean exactly when every gated expectation is met and no
      gated failure is new. */
  lemma CompareClean(baseline: seq<Entry>, report: seq<Entry>, x: Exemptions)
    ensures Compare(baseline, report, x) == [] <==>
      && (forall e :: e in baseline ==> Met(e, ByKey(report), x))
      && (forall e :: e in report && e.status == Fail && !Exempt(x, e) ==> e.key in ByKey(baseline))
  {
    NoRegressions(baseline, ByKey(report), x);
    NoNewFailures(report, ByKey(baseline), x);
    assert forall e :: CheckExpected(e, ByKey(report), x) == [] <==> Met(e, ByKey(report), x);
    assert forall e :: CheckActual(e, ByKey(baseline), x) == [] <==>
      (e.status == Fail && !Exempt(x, e) ==> e.key in ByKey(baseline));
  }

  // ----- ratcheting forward -----

  /** One report entry of updateBaselineWith. */
  function MergeOne(merged: Table, e: Entry, x: Exemptions): Table {
    if x.candidate(e.group) then merged
    else if e.key in merged && e.key in x.flaky then merged
    else if e.key !in merged || Rank(e.status) > Rank(merged[e.key].status) then merged[e.key := e]
    else merged
  }

  function Merge(merged: Table, report: seq<Entry>, x: Exemptions): Table {
    if report == [] then merged
    else MergeOne(Merge(merged, report[..|report| - 1], x), report[|report| - 1], x)
  }

  /** `updateBaselineWith`. */
  ghost function Update(baseline: seq<Entry>, report: seq<Entry>, x: Exemptions): seq<Entry> {
    FromTable(Merge(ByKey(baseline), report, x))
  }

  method UpdateBaseline(baseline: seq<Entry>, report: seq<Entry>, x: Exemptions) returns (updated: seq<Entry>)
    ensures updated == Update(baseline, report, x)
  {
    var merged := BuildTable(baseline);
    for i := 0 to |report|
      invariant merged == Merge(ByKey(baseline), report[..i], x)
    {
      assert report[..i + 1][..i] == report[..i];
      var e := report[i];
      if x.candidate(e.group) {
        continue;
      }
      if e.key in merged && e.key in x.flaky {
        continue;
      }
      if e.key !in merged || Rank(e.status) > Rank(merged[e.key].status) {
        merged := merged[e.key := e];
      }
    }
    assert report[..|report|] == report;
    updated := WriteTable(merged);
  }

  /** Merging keeps keys and never lowers a rank; quarantined entries do not change,
      and what changes comes from a report entry outside the candidate groups. */
  lemma {:induction false} MergeRatchets(merged: Table, report: seq<Entry>, x: Exemptions)
    requires KeyedTable(merged)
    ensures KeyedTable(Merge(merged, report, x))
    ensures forall k :: k in merged ==>
      k in Merge(merged, report, x) && Rank(Merge(merged, report, x)[k].status) >= Rank(merged[k].status)
    ensures forall k :: k in merged && k in x.flaky ==> Merge(merged, report, x)[k] == merged[k]
    ensures forall k :: k in Merge(merged, report, x) && !(k in merged && Merge(merged, report, x)[k] == merged[k]) ==>
      Merge(merged, report, x)[k] in report && !x.candidate(Merge(merged, report, x)[k].group)
  {
    if report != [] {
      var init, last := report[..|report| - 1], report[|report| - 1];
      assert report == init + [last];
      MergeRatchets(merged, init, x);
    }
  }

  /** After merging, every report entry outside the candidate groups has its key
      present, at its rank or above unless quarantined. */
  lemma {:induction false} MergeReaches(merged: Table, report: seq<Entry>, x: Exemptions, e: Entry)
    requires e in report && !x.candidate(e.group)
    ensures e.key in Merge(merged, report, x)
    ensures e.key in x.flaky || Rank(Merge(merged, report, x)[e.key].status) >= Rank(e.status)
  {
    var init, last := report[..|report| - 1], report[|report| - 1];
    assert report == init + [last];
    if e in init {
      MergeReaches(merged, init, x, e);
    }
  }

  /** A table that already reaches the report is left alone by it. */
  lemma {:induction false} MergeSettled(merged: Table, report: seq<Entry>, x: Exemptions)
    requires forall e :: e in report && !x.candidate(e.group) ==>
      e.key in merged && (e.key in x.flaky || Rank(merged[e.key].status) >= Rank(e.status))
    ensures Merge(merged, report, x) == merged
  {
    if report != [] {
      var init, last := report[..|report| - 1], report[|report| - 1];
      assert report == init + [last];
      MergeSettled(merged, init, x);
    }
  }

  lemma ByKeyIsKeyed(entries: seq<Entry>)
    ensures KeyedTable(ByKey(entries))
  {
  }

  /** The table of an updated baseline. */
  lemma UpdateTable(baseline: seq<Entry>, report: seq<Entry>, x: Exemptions)
    ensures ByKey(Update(baseline, report, x)) == Merge(ByKey(baseline), report, x)
    ensures UniqueKeys(Update(baseline, report, x))
  {
    ByKeyIsKeyed(baseline);
    MergeRatchets(ByKey(baseline), report, x);
    TableRoundTrip(Merge(ByKey(baseline), report, x));
  }

  /** The update is a ratchet: no key is dropped, no rank lowered, quarantined
      keys keep their entry, and a changed entry comes from the report and never
      from a candidate group. */
  lemma UpdateRatchets(baseline: seq<Entry>, report: seq<Entry>, x: Exemptions, k: string)
    ensures var before, after := ByKey(baseline), ByKey(Update(baseline, report, x));
      && (k in before ==> k in after && Rank(after[k].status) >= Rank(before[k].status))
      && (k in before && k in x.flaky ==> after[k] == before[k])
      && (k in after && !(k in before && after[k] == before[k]) ==>
            after[k] in report && !x.candidate(after[k].group))
  {
    UpdateTable(baseline, report, x);
    ByKeyIsKeyed(baseline);
    MergeRatchets(ByKey(baseline), report, x);
  }

  /** Updating twice with one report is updating once. */
  lemma UpdateIdempotent(baseline: seq<Entry>, report: seq<Entry>, x: Exemptions)
    ensures Update(Update(baseline, report, x), report, x) == Update(baseline, report, x)
  {
    var merged := Merge(ByKey(baseline), report, x);
    UpdateTable(baseline, report, x);
    forall e | e in report && !x.candidate(e.group)
      ensures e.key in merged && (e.key in x.flaky || Rank(merged[e.key].status) >= Rank(e.status))
    {
      MergeReaches(ByKey(baseline), report, x, e);
    }
    MergeSettled(merged, report, x);
  }

  /** Of several results a report has for a gated test, the last is the best. */
  ghost predicate LastIsBest(report: seq<Entry>, x: Exemptions) {
    forall e {:trigger e in report} :: e in report && !Exempt(x, e) ==>
      e.key in ByKey(report) && Rank(ByKey(report)[e.key].status) >= Rank(e.status)
  }

  /** Entries of one key are of one group. */
  ghost predicate GroupsAgree(baseline: seq<Entry>, report: seq<Entry>) {
    forall e, f {:trigger e in report, f in report} {:trigger e in baseline, f in report} ::
      (e in baseline || e in report) && f in report && e.key == f.key ==> e.group == f.group
  }

  /** If the last result of each test is its best, a run that passes against a
      baseline still passes against the baseline it updates. */
  lemma UpdateCleanIf(baseline: seq<Entry>, report: seq<Entry>, x: Exemptions)
    requires Compare(baseline, report, x) == [] && LastIsBest(report, x)
    ensures Compare(Update(baseline, report, x), report, x) == []
  {
    var before, after := ByKey(baseline), Merge(ByKey(baseline), report, x);
    CompareClean(baseline, report, x);
    CompareClean(Update(baseline, report, x), report, x);
    UpdateTable(baseline, report, x);
    forall e | e in Update(baseline, report, x) ensures Met(e, ByKey(report), x) {
      MergedFrom(baseline, report, x, e);
    }
    forall e | e in report && e.status == Fail && !Exempt(x, e) ensures e.key in after {
      MergeReaches(before, report, x, e);
    }
  }

  /** An entry of an updated baseline comes from the report or is an old one. */
  lemma MergedFrom(baseline: seq<Entry>, report: seq<Entry>, x: Exemptions, e: Entry)
    requires e in Update(baseline, report, x)
    ensures e in report || e in baseline
  {
    var before, after := ByKey(baseline), Merge(ByKey(baseline), report, x);
    ByKeyIsKeyed(baseline);
    MergeRatchets(before, report, x);
    FromTableMembers(after, e);
    if e !in report {
      assert e.key in before && before[e.key] == e;
    }
  }

  /** The updated baseline is beyond the run exactly when some gated test is
      reported better before its last result. */
  lemma UpdateCleanExactly(baseline: seq<Entry>, report: seq<Entry>, x: Exemptions)
    requires Compare(baseline, report, x) == [] && GroupsAgree(baseline, report)
    ensures Compare(Update(baseline, report, x), report, x) == [] <==> LastIsBest(report, x)
  {
    if LastIsBest(report, x) {
      UpdateCleanIf(baseline, report, x);
    }
    if Compare(Update(baseline, report, x), report, x) == [] {
      CompareClean(Update(baseline, report, x), report, x);
      forall e | e in report && !Exempt(x, e) ensures Rank(ByKey(report)[e.key].status) >= Rank(e.status) {
        RecordedAtLeast(baseline, report, x, e);
      }
    }
  }

  lemma RecordedAtLeast(baseline: seq<Entry>, report: seq<Entry>, x: Exemptions, e: Entry)
    requires GroupsAgree(baseline, report) && e in report && !Exempt(x, e)
    requires forall m :: m in Update(baseline, report, x) ==> Met(m, ByKey(report), x)
    ensures e.key in ByKey(report) && Rank(ByKey(report)[e.key].status) >= Rank(e.status)
  {
    var after := Merge(ByKey(baseline), report, x);
    MergeReaches(ByKey(baseline), report, x, e);
    ByKeyIsKeyed(baseline);
    MergeRatchets(ByKey(baseline), report, x);
    var m := after[e.key];
    FromTableMembers(after, m);
    MergedFrom(baseline, report, x, m);
    assert m.group == e.group && m.key == e.key;
    assert Met(m, ByKey(report), x);
  }

  /** With unique keys in the report the last result is the only one. */
  lemma UpdateKeepsRunClean(baseline: seq<Entry>, report: seq<Entry>, x: Exemptions)
    requires UniqueKeys(report) && Compare(baseline, report, x) == []
    ensures Compare(Update(baseline, report, x), report, x) == []
  {
    forall e | e in report ensures e.key in ByKey(report) && ByKey(report)[e.key] == e {
      UniqueEntryKept(report, e);
    }
    UpdateCleanIf(baseline, report, x);
  }

  /** The smallest failure: a repeated test that passes and then is skipped is
      recorded as passing and compared as skipped. */
  lemma RepeatedKeyBreaksUpdate(pass: Entry, x: Exemptions)
    requires pass.status == Pass && !Exempt(x, pass)
    ensures var report := [pass, pass.(status := Skip)];
      Compare([], report, x) == [] && Compare(Update([], report, x), report, x) != []
  {
    var skip := pass.(status := Skip);
    var report := [pass, skip];
    CompareClean([], report, x);
    assert forall e :: e in report ==> e == pass || e == skip;
    var merged := RepeatedMerge(pass, x);
    UpdateTable([], report, x);
    FromTableMembers(merged, pass);
    CompareClean(Update([], report, x), report, x);
    assert pass in Update([], report, x) && !Met(pass, ByKey(report), x);
  }

  lemma RepeatedMerge(pass: Entry, x: Exemptions) returns (merged: Table)
    requires pass.status == Pass && !Exempt(x, pass)
    ensures merged == map[pass.key := pass]
    ensures var report := [pass, pass.(status := Skip)];
      Merge(ByKey([]), report, x) == merged && ByKey(report) == map[pass.key := pass.(status := Skip)]
  {
    var skip := pass.(status := Skip);
    merged := map[pass.key := pass];
    assert [pass, skip][..1] == [pass] && [pass][..0] == [];
    assert Merge(map[], [pass], x) == merged;
    assert ByKey([pass]) == merged;
  }

  // ----- linting an edit -----

  /** What the lint reports of an entry of the old baseline. */
  datatype Verdict =
    | Kept | Removed(key: string) | OutOfScope(key: string) | Downgraded(key: string) | DebtClosed(key: string)

  /** The registry's scope and the parity debt the change closes. */
  datatype Context = Context(expects: (string, string, string) -> bool, closes: (string, string) -> bool)

  predicate ClosesDebt(c: Context, old_: Entry, now: Entry) {
    old_.status == Skip && now.status == Unimplemented && c.closes(old_.suite, old_.group)
  }

  function Judge(e: Entry, now: Table, c: Context): Verdict {
    if e.key !in now then
      if c.expects(e.suite, e.group, e.test) then Removed(e.key) else OutOfScope(e.key)
    else if Rank(now[e.key].status) < Rank(e.status) then
      if ClosesDebt(c, e, now[e.key]) then DebtClosed(e.key) else Downgraded(e.key)
    else Kept
  }

  datatype Issue = RemovedExpectation(key: string) | Downgrade(key: string) | NewFail(key: string)

  function IssueOf(v: Verdict): seq<Issue> {
    match v
    case Removed(k) => [RemovedExpectation(k)]
    case Downgraded(k) => [Downgrade(k)]
    case _ => []
  }

  function OldIssues(before: seq<Entry>, now: Table, c: Context): seq<Issue> {
    if before == [] then []
    else OldIssues(before[..|before| - 1], now, c) + IssueOf(Judge(before[|before| - 1], now, c))
  }

  function NewIssues(after: seq<Entry>, was: Table): seq<Issue> {
    if after == [] then []
    else
      var last := after[|after| - 1];
      NewIssues(after[..|after| - 1], was) + if last.status == Fail && last.key !in was then [NewFail(last.key)] else []
  }

  /** The issues of lintBaselineChange; an empty old baseline is seeding. */
  function Lint(before: seq<Entry>, after: seq<Entry>, c: Context): seq<Issue> {
    OldIssues(before, ByKey(after), c) + if before == [] then [] else NewIssues(after, ByKey(before))
  }

  /** The notes of lintBaselineChange, in the two kinds it keeps apart. */
  function Notes(before: seq<Entry>, now: Table, c: Context): (seq<string>, seq<string>) {
    if before == [] then ([], [])
    else
      var (scope, debt) := Notes(before[..|before| - 1], now, c);
      match Judge(before[|before| - 1], now, c)
      case OutOfScope(k) => (scope + [k], debt)
      case DebtClosed(k) => (scope, debt + [k])
      case _ => (scope, debt)
  }

  /** `lintBaselineChange`. */
  method LintBaselineChange(before: seq<Entry>, after: seq<Entry>, c: Context)
    returns (issues: seq<Issue>, notes: seq<string>, debtNotes: seq<string>)
    ensures issues == Lint(before, after, c)
    ensures (notes, debtNotes) == Notes(before, ByKey(after), c)
  {
    var now := BuildTable(after);
    issues, notes, debtNotes := JudgeOld(before, now, c);
    if |before| == 0 {
      return;
    }
    var added := FindNewFails(after, before);
    issues := issues + added;
  }

  /** The first loop of lintBaselineChange. */
  method JudgeOld(before: seq<Entry>, now: Table, c: Context)
    returns (issues: seq<Issue>, notes: seq<string>, debtNotes: seq<string>)
    ensures issues == OldIssues(before, now, c)
    ensures (notes, debtNotes) == Notes(before, now, c)
  {
    issues, notes, debtNotes := [], [], [];
    for i := 0 to |before|
      invariant issues == OldIssues(before[..i], now, c)
      invariant (notes, debtNotes) == Notes(before[..i], now, c)
    {
      assert before[..i + 1][..i] == before[..i];
      var e := before[i];
      if e.key !in now {
        if !c.expects(e.suite, e.group, e.test) {
          notes := notes + [e.key];
          continue;
        }
        issues := issues + [RemovedExpectation(e.key)];
        continue;
      }
      if Rank(now[e.key].status) < Rank(e.status) {
        if ClosesDebt(c, e, now[e.key]) {
          debtNotes := debtNotes + [e.key];
          continue;
        }
        issues := issues + [Downgrade(e.key)];
      }
    }
    assert before[..|before|] == before;
  }

  method FindNewFails(after: seq<Entry>, before: seq<Entry>) returns (issues: seq<Issue>)
    ensures issues == NewIssues(after, ByKey(before))
  {
    var was := BuildTable(before);
    issues := [];
    for i := 0 to |after|
      invariant issues == NewIssues(after[..i], was)
    {
      assert after[..i + 1][..i] == after[..i];
      if after[i].status != Fail || after[i].key in was {
        continue;
      }
      issues := issues + [NewFail(after[i].key)];
    }
    assert after[..|after|] == after;
  }

  lemma {:induction false} OldIssuesClean(before: seq<Entry>, now: Table, c: Context)
    ensures OldIssues(before, now, c) == [] <==> forall e :: e in before ==> IssueOf(Judge(e, now, c)) == []
  {
    if before != [] {
      var init, last := before[..|before| - 1], before[|before| - 1];
      assert before == init + [last];
      OldIssuesClean(init, now, c);
    }
  }

  lemma {:induction false} NewIssuesClean(after: seq<Entry>, was: Table)
    ensures NewIssues(after, was) == [] <==> forall e :: e in after ==> e.status != Fail || e.key in was
    ensures forall issue :: issue in NewIssues(after, was) ==> issue.NewFail?
  {
    if after != [] {
      var init, last := after[..|after| - 1], after[|after| - 1];
      assert after == init + [last];
      NewIssuesClean(init, was);
    }
  }

  /** An expectation the edit drops although the registry asks for it. */
  function IsRemoved(k: string, after: seq<Entry>, c: Context): Entry -> bool {
    (e: Entry) => e.key == k && k !in ByKey(after) && c.expects(e.suite, e.group, e.test)
  }

  /** One it lowers, other than from skip to unimplemented under closed debt. */
  function IsLowered(k: string, after: seq<Entry>, c: Context): Entry -> bool {
    (e: Entry) => e.key == k && k in ByKey(after) && Worse(ByKey(after)[k].status, e.status)
      && !(e.status == Skip && ByKey(after)[k].status == Unimplemented && c.closes(e.suite, e.group))
  }

  /** A failure that had no entry. */
  function IsAddedFail(k: string, before: seq<Entry>): Entry -> bool {
    (e: Entry) => e.key == k && e.status == Fail && k !in ByKey(before)
  }

  lemma {:induction false} OldCounted(before: seq<Entry>, after: seq<Entry>, c: Context, k: string)
    ensures var found := multiset(OldIssues(before, ByKey(after), c));
      && found[RemovedExpectation(k)] == HowMany(before, IsRemoved(k, after, c))
      && found[Downgrade(k)] == HowMany(before, IsLowered(k, after, c)) && found[NewFail(k)] == 0
  {
    if before != [] {
      OldCounted(before[..|before| - 1], after, c, k);
      OneOld(before[|before| - 1], after, c, k);
    }
  }

  lemma OneOld(e: Entry, after: seq<Entry>, c: Context, k: string)
    ensures var found := multiset(IssueOf(Judge(e, ByKey(after), c)));
      && found[RemovedExpectation(k)] == (if IsRemoved(k, after, c)(e) then 1 else 0)
      && found[Downgrade(k)] == (if IsLowered(k, after, c)(e) then 1 else 0) && found[NewFail(k)] == 0
  {
    if e.key in ByKey(after) { WorseIsLower(ByKey(after)[e.key].status, e.status); }
  }

  lemma {:induction false} NewCounted(after: seq<Entry>, before: seq<Entry>, k: string)
    ensures var found := multiset(NewIssues(after, ByKey(before)));
      && found[NewFail(k)] == HowMany(after, IsAddedFail(k, before))
      && found[RemovedExpectation(k)] == found[Downgrade(k)] == 0
  {
    if after != [] { NewCounted(after[..|after| - 1], before, k); }
  }

  /** Which issues the lint has, and how many: one for every entry dropped while the
      registry asks for it, one for every entry lowered, and, unless the baseline was
      empty, one for every failure without an entry before. */
  lemma IssuesExactly(before: seq<Entry>, after: seq<Entry>, c: Context, k: string)
    ensures var found := multiset(Lint(before, after, c));
      && found[RemovedExpectation(k)] == HowMany(before, IsRemoved(k, after, c))
      && found[Downgrade(k)] == HowMany(before, IsLowered(k, after, c))
      && found[NewFail(k)] == if before == [] then 0 else HowMany(after, IsAddedFail(k, before))
  {
    OldCounted(before, after, c, k);
    NewCounted(after, before, k);
  }

  /** The only thing an update can be faulted for is a failure it records for the first time. */
  lemma UpdateLintsClean(baseline: seq<Entry>, report: seq<Entry>, x: Exemptions, c: Context)
    requires UniqueKeys(baseline)
    ensures forall issue :: issue in Lint(baseline, Update(baseline, report, x), c) ==> issue.NewFail?
  {
    var updated := Update(baseline, report, x);
    UpdateTable(baseline, report, x);
    forall e | e in baseline ensures IssueOf(Judge(e, ByKey(updated), c)) == [] {
      UniqueEntryKept(baseline, e);
      UpdateRatchets(baseline, report, x, e.key);
    }
    OldIssuesClean(baseline, ByKey(updated), c);
    NewIssuesClean(updated, ByKey(baseline));
  }

  // ----- no laundering -----

  /** A status the lint can be trusted with: one of the five the runner emits. */
  predicate Known(e: Entry) { !e.status.Unknown? }

  /** The recorded status of the key, if there is one, is known. */
  ghost predicate TrustedKey(entries: seq<Entry>, k: string) { k in ByKey(entries) ==> Known(ByKey(entries)[k]) }

  /** The change the lint may let a recorded status make. */
  predicate MayBecome(c: Context, old_: Entry, now: Entry) {
    Rank(now.status) >= Rank(old_.status) || ClosesDebt(c, old_, now)
  }

  /** The registry expects every recorded test. */
  ghost predicate AllExpected(entries: seq<Entry>, c: Context) {
    forall e {:trigger c.expects(e.suite, e.group, e.test)} :: e in entries ==> c.expects(e.suite, e.group, e.test)
  }

  /** A lint-clean edit made while the registry still expects every recorded test. */
  ghost predicate CleanLink(before: seq<Entry>, after: seq<Entry>, c: Context) {
    Lint(before, after, c) == [] && AllExpected(before, c)
  }

  /** A clean edit keeps every key, and its status changes only as the lint allows. */
  lemma CleanEditKeeps(before: seq<Entry>, after: seq<Entry>, c: Context, k: string)
    requires CleanLink(before, after, c) && k in ByKey(before)
    ensures k in ByKey(after) && MayBecome(c, ByKey(before)[k], ByKey(after)[k])
  {
    var e := ByKey(before)[k];
    assert e in before && OldIssues(before, ByKey(after), c) == [] && c.expects(e.suite, e.group, e.test);
    JudgedClean(before, ByKey(after), c, e);
  }

  lemma JudgedClean(before: seq<Entry>, now: Table, c: Context, e: Entry)
    requires OldIssues(before, now, c) == [] && e in before && c.expects(e.suite, e.group, e.test)
    ensures e.key in now && MayBecome(c, e, now[e.key])
  {
    OldIssuesClean(before, now, c);
    assert IssueOf(Judge(e, now, c)) == [];
  }

  lemma AddedClean(after: seq<Entry>, was: Table, e: Entry)
    requires NewIssues(after, was) == [] && e in after && e.status == Fail
    ensures e.key in was
  {
    NewIssuesClean(after, was);
  }

  /** Whatever the registry expects, a clean edit of a non-empty baseline records
      no failure that was not one before. */
  lemma FailsStay(before: seq<Entry>, after: seq<Entry>, c: Context, k: string)
    requires Lint(before, after, c) == [] && before != [] && TrustedKey(before, k) && k in Fails(ByKey(after))
    ensures k in Fails(ByKey(before))
  {
    var was, now := ByKey(before), ByKey(after);
    assert NewIssues(after, was) == [] && OldIssues(before, now, c) == [];
    AddedClean(after, was, now[k]);
    StillFailing(before, now, c, was[k]);
  }

  lemma StillFailing(before: seq<Entry>, now: Table, c: Context, e: Entry)
    requires OldIssues(before, now, c) == [] && e in before && Known(e)
    requires e.key in now && now[e.key].status == Fail
    ensures e.status == Fail
  {
    OldIssuesClean(before, now, c);
    assert IssueOf(Judge(e, now, c)) == [];
  }

  /** What a clean edit does to one key: a recorded one stays and changes only as
      the lint allows, and a failure is one that was recorded as a failure before. */
  ghost predicate KeyHeld(was: Table, now: Table, c: Context, k: string) {
    && (k in was ==> k in now && MayBecome(c, was[k], now[k]))
    && (k in Fails(now) ==> k in Fails(was))
  }

  ghost function Fails(t: Table): set<string> { set k | k in t && t[k].status == Fail }

  lemma CleanEditHolds(before: seq<Entry>, after: seq<Entry>, c: Context, k: string)
    requires CleanLink(before, after, c) && TrustedKey(before, k) && before != []
    ensures KeyHeld(ByKey(before), ByKey(after), c, k)
  {
    var was, now := ByKey(before), ByKey(after);
    if k in was {
      CleanEditKeeps(before, after, c, k);
    }
    if k in Fails(now) {
      FailsStay(before, after, c, k);
    }
  }

  /** A chain of edits, each clean under its own registry and closed debt. */
  ghost predicate CleanChain(chain: seq<seq<Entry>>, contexts: seq<Context>) {
    && |chain| == |contexts| + 1
    && (forall i {:trigger Linked(chain, contexts, i)} :: 0 <= i < |contexts| ==> Linked(chain, contexts, i))
  }

  ghost predicate Linked(chain: seq<seq<Entry>>, contexts: seq<Context>, i: nat)
    requires i < |contexts| == |chain| - 1
  {
    CleanLink(chain[i], chain[i + 1], contexts[i])
  }

  lemma {:induction false} StaysPopulated(chain: seq<seq<Entry>>, contexts: seq<Context>, j: nat)
    requires CleanChain(chain, contexts) && chain[0] != [] && j < |chain|
    ensures chain[j] != []
  {
    if j > 0 {
      StaysPopulated(chain, contexts, j - 1);
      assert Linked(chain, contexts, j - 1);
      KeepsPopulated(chain[j - 1], chain[j], contexts[j - 1]);
    }
  }

  lemma KeepsPopulated(before: seq<Entry>, after: seq<Entry>, c: Context)
    requires CleanLink(before, after, c) && before != []
    ensures after != []
  {
    var e := before[0];
    assert e in before;
    CleanEditKeeps(before, after, c, e.key);
    assert ByKey(after)[e.key] in after;
  }

  /** Failures cannot be laundered into the baseline: along any chain of clean
      edits from a non-empty start, a key whose recorded statuses are known is not
      removed and does not become a failure, nor does it enter as one. */
  lemma {:induction false} NoLaundering(chain: seq<seq<Entry>>, contexts: seq<Context>, i: nat, j: nat, k: string)
    requires CleanChain(chain, contexts) && chain[0] != [] && i <= j < |chain|
    requires forall n {:trigger TrustedKey(chain[n], k)} :: i <= n < j ==> TrustedKey(chain[n], k)
    ensures Ratcheted(ByKey(chain[i]), ByKey(chain[j]), k)
    decreases j - i
  {
    if i < j {
      NoLaundering(chain, contexts, i, j - 1, k);
      assert TrustedKey(chain[j - 1], k);
      LinkHolds(chain, contexts, j - 1, k);
      RatchetsOn(ByKey(chain[i]), ByKey(chain[j - 1]), ByKey(chain[j]), contexts[j - 1], k);
    }
  }

  /** The key is not removed and does not become a failure. */
  ghost predicate Ratcheted(was: Table, now: Table, k: string) {
    (k in was ==> k in now) && (k in Fails(now) ==> k in Fails(was))
  }

  lemma RatchetsOn(first: Table, was: Table, now: Table, c: Context, k: string)
    requires Ratcheted(first, was, k) && KeyHeld(was, now, c, k)
    ensures Ratcheted(first, now, k)
  {
  }

  /** Along such a chain a recorded rank falls only at an edit that closes the debt of its test. */
  lemma LinkHolds(chain: seq<seq<Entry>>, contexts: seq<Context>, i: nat, k: string)
    requires CleanChain(chain, contexts) && chain[0] != [] && i + 1 < |chain| && TrustedKey(chain[i], k)
    ensures KeyHeld(ByKey(chain[i]), ByKey(chain[i + 1]), contexts[i], k)
  {
    StaysPopulated(chain, contexts, i);
    assert Linked(chain, contexts, i);
    CleanEditHolds(chain[i], chain[i + 1], contexts[i], k);
  }

  // ----- seeding -----

  ghost predicate FailsIn(entries: seq<Entry>, k: string) { k in Fails(ByKey(entries)) }

  /** A chain of edits that lint clean, whatever the registry expects of them. */
  ghost predicate LintedChain(chain: seq<seq<Entry>>, contexts: seq<Context>) {
    && |chain| == |contexts| + 1
    && (forall i {:trigger Linted(chain, contexts, i)} :: 0 <= i < |contexts| ==> Linted(chain, contexts, i))
  }

  ghost predicate Linted(chain: seq<seq<Entry>>, contexts: seq<Context>, i: nat)
    requires i < |contexts| == |chain| - 1
  {
    Lint(chain[i], chain[i + 1], contexts[i]) == []
  }

  lemma {:induction false} LastTurn(fails: seq<bool>, i: nat, j: nat) returns (n: nat)
    requires i <= j < |fails| && !fails[i] && fails[j]
    ensures i <= n < j && !fails[n] && fails[n + 1]
  {
    n := j - 1;
    if fails[n] { n := LastTurn(fails, i, j - 1); }
  }

  /** Where along the chain the key is recorded as failing. */
  ghost function FailsAlong(chain: seq<seq<Entry>>, k: string): (r: seq<bool>)
    ensures |r| == |chain| && forall n {:trigger r[n]} :: 0 <= n < |r| ==> r[n] == FailsIn(chain[n], k)
  {
    seq(|chain|, n requires 0 <= n < |chain| => FailsIn(chain[n], k))
  }

  lemma TurnIsSeeding(chain: seq<seq<Entry>>, contexts: seq<Context>, n: nat, k: string)
    requires LintedChain(chain, contexts) && n + 1 < |chain| && TrustedKey(chain[n], k)
    requires !FailsAlong(chain, k)[n] && FailsAlong(chain, k)[n + 1]
    ensures chain[n] == []
  {
    assert Linted(chain, contexts, n);
    SeededHere(chain[n], chain[n + 1], contexts[n], k);
  }

  /** Along any such chain, a key whose recorded statuses are known turns into a
      failure only at an edit of an empty baseline. */
  lemma FailsOnlyBySeeding(chain: seq<seq<Entry>>, contexts: seq<Context>, i: nat, j: nat, k: string)
    returns (n: nat)
    requires LintedChain(chain, contexts) && i <= j < |chain|
    requires forall m {:trigger TrustedKey(chain[m], k)} :: i <= m < j ==> TrustedKey(chain[m], k)
    requires !FailsAlong(chain, k)[i] && FailsAlong(chain, k)[j]
    ensures i <= n < j && chain[n] == [] && FailsAlong(chain, k)[n + 1]
  {
    n := LastTurn(FailsAlong(chain, k), i, j);
    assert TrustedKey(chain[n], k);
    TurnIsSeeding(chain, contexts, n, k);
  }

  lemma SeededHere(before: seq<Entry>, after: seq<Entry>, c: Context, k: string)
    requires Lint(before, after, c) == [] && TrustedKey(before, k) && !FailsIn(before, k) && FailsIn(after, k)
    ensures before == []
  {
    if before != [] { FailsStay(before, after, c, k); }
  }

  /** A baseline can be emptied exactly when the registry expects none of it. */
  lemma EmptiedExactly(before: seq<Entry>, c: Context)
    ensures Lint(before, [], c) == [] <==> forall e :: e in before ==> !c.expects(e.suite, e.group, e.test)
  {
    OldIssuesClean(before, ByKey([]), c);
    NewIssuesClean([], ByKey(before));
  }

  /** Then any failure can be recorded, in two clean edits. */
  lemma SeedingLaunders(before: seq<Entry>, c: Context, e: Entry)
    requires e.status == Fail && forall x :: x in before ==> !c.expects(x.suite, x.group, x.test)
    ensures LintedChain([before, [], [e]], [c, c]) && e.key in Fails(ByKey([e]))
  {
    EmptiedExactly(before, c);
    assert [e][..0] == [];
    assert Lint([], [e], c) == [];
  }

  // ----- when a failure can be laundered -----

  /** Some clean edit records the key as failing. */
  ghost predicate Launderable(before: seq<Entry>, c: Context, k: string) {
    exists after :: CleanLink(before, after, c) && k in Fails(ByKey(after))
  }

  /** The entries with the one of key `k` marked as failing. */
  function MarkedFailing(entries: seq<Entry>, k: string): (r: seq<Entry>)
    ensures |r| == |entries|
    ensures forall i {:trigger r[i]} :: 0 <= i < |r| ==>
      r[i] == if entries[i].key == k then entries[i].(status := Fail) else entries[i]
  {
    seq(|entries|, i requires 0 <= i < |entries| =>
      if entries[i].key == k then entries[i].(status := Fail) else entries[i])
  }

  lemma MarkedTable(entries: seq<Entry>, k: string, e: Entry)
    requires UniqueKeys(entries) && e in entries
    ensures var now := ByKey(MarkedFailing(entries, k));
      e.key in now && now[e.key] == if e.key == k then e.(status := Fail) else e
  {
    var marked := MarkedFailing(entries, k);
    var i :| 0 <= i < |entries| && entries[i] == e;
    assert marked[i] in marked;
    UniqueEntryKept(marked, marked[i]);
  }

  lemma MarkingIsClean(before: seq<Entry>, c: Context, k: string)
    requires UniqueKeys(before) && AllExpected(before, c) && k in ByKey(before) && ByKey(before)[k].status.Unknown?
    ensures CleanLink(before, MarkedFailing(before, k), c) && k in Fails(ByKey(MarkedFailing(before, k)))
  {
    MarkingDropsNone(before, c, k);
    MarkingAddsNone(before, k);
    MarkedTable(before, k, ByKey(before)[k]);
  }

  lemma MarkingDropsNone(before: seq<Entry>, c: Context, k: string)
    requires UniqueKeys(before) && k in ByKey(before) && ByKey(before)[k].status.Unknown?
    ensures OldIssues(before, ByKey(MarkedFailing(before, k)), c) == []
  {
    var now := ByKey(MarkedFailing(before, k));
    forall e | e in before ensures IssueOf(Judge(e, now, c)) == [] {
      MarkedTable(before, k, e);
      UniqueEntryKept(before, e);
    }
    OldIssuesClean(before, now, c);
  }

  lemma MarkingAddsNone(before: seq<Entry>, k: string)
    ensures NewIssues(MarkedFailing(before, k), ByKey(before)) == []
  {
    var after := MarkedFailing(before, k);
    forall e | e in after ensures e.key in ByKey(before) {
      var i :| 0 <= i < |after| && after[i] == e;
      assert before[i] in before;
    }
    NewIssuesClean(after, ByKey(before));
  }

  /** The exact gap in the lint: a recorded test that does not fail can be turned
      into a failure by a clean edit just when its status is unknown, which ranks
      below a failure. */
  lemma LaundersExactly(before: seq<Entry>, c: Context, k: string)
    requires UniqueKeys(before) && AllExpected(before, c) && k in ByKey(before) && k !in Fails(ByKey(before))
    ensures Launderable(before, c, k) <==> ByKey(before)[k].status.Unknown?
  {
    if ByKey(before)[k].status.Unknown? {
      MarkingIsClean(before, c, k);
    } else if Launderable(before, c, k) {
      var after :| CleanLink(before, after, c) && k in Fails(ByKey(after));
      CleanEditHolds(before, after, c, k);
    }
  }

  /** So a baseline can be laundered just when it records an unknown status. */
  lemma UnknownStatusLaunders(before: seq<Entry>, c: Context)
    requires UniqueKeys(before) && AllExpected(before, c)
    ensures (exists k :: k in ByKey(before) && k !in Fails(ByKey(before)) && Launderable(before, c, k)) <==>
      (exists e :: e in before && e.status.Unknown?)
  {
    forall k | k in ByKey(before) && k !in Fails(ByKey(before))
      ensures Launderable(before, c, k) <==> ByKey(before)[k].status.Unknown?
    {
      LaundersExactly(before, c, k);
    }
    if exists e :: e in before && e.status.Unknown? {
      var e :| e in before && e.status.Unknown?;
      UniqueEntryKept(before, e);
      assert e.key in ByKey(before) && e.key !in Fails(ByKey(before));
    }
  }
}
