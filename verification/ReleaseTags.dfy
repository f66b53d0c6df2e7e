/** Which floating Docker tags a release moves, and what they point at over a
    whole release history (scripts/release-channel-tags.py). */
module ReleaseTags {
  import opened Order
  import opened SemVer
  import opened Text
  import Wrappers

  // ----- tag names -----

  /** `str(n)`. */
  function Decimal(n: nat): (s: string)
    ensures AllDigits(s) && ParseInt(s) == n
  {
    if n < 10 then
      var s := ['0' + n as char];
      assert s[..0] == [];
      s
    else
      var init := Decimal(n / 10);
      var s := init + ['0' + (n % 10) as char];
      assert s[..|s| - 1] == init;
      s
  }

  /** The digits of a number are the only ones that do not start with an idle zero. */
  lemma {:induction false} DecimalExactly(n: nat, s: string)
    ensures s == Decimal(n) <==> AllDigits(s) && ParseInt(s) == n && (|s| == 1 || s[0] != '0')
    decreases n, |s|
  {
    DecimalStarts(n);
    if AllDigits(s) && ParseInt(s) == n && (|s| == 1 || s[0] != '0') {
      var init, last := s[..|s| - 1], s[|s| - 1];
      assert s == init + [last] && IsDigit(last);
      if |s| > 1 {
        NoIdleZero(init);
        DecimalExactly(n / 10, init);
      }
    }
  }

  lemma {:induction false} NoIdleZero(s: string)
    requires AllDigits(s) && s[0] != '0'
    ensures ParseInt(s) > 0
  {
    assert IsDigit(s[0]);
    if |s| > 1 { NoIdleZero(s[..|s| - 1]); }
  }

  lemma {:induction false} DecimalStarts(n: nat)
    ensures |Decimal(n)| == 1 || Decimal(n)[0] != '0'
    ensures n > 0 ==> Decimal(n)[0] != '0'
  {
    if n >= 10 { DecimalStarts(n / 10); }
  }

  const LATEST := "latest"

  /** `Version.channel`. */
  function Channel(v: Version): string {
    if Stable(v) then LATEST
    else if AllDigits(v.prerelease[0]) then "prerelease"
    else v.prerelease[0]
  }

  /** Identifiers that all go to the channel of numbered prereleases. */
  predicate Numbered(id: string) { AllDigits(id) || id == "prerelease" }

  /** Two prereleases share a channel exactly when they have the same first
      identifier, or both are numbered. */
  lemma ChannelsMeet(v: Version, w: Version)
    requires !Stable(v) && !Stable(w)
    ensures Channel(v) == Channel(w) <==>
      v.prerelease[0] == w.prerelease[0] || (Numbered(v.prerelease[0]) && Numbered(w.prerelease[0]))
  {
    assert !IsDigit("prerelease"[0]);
  }

  /** `Version.line`. */
  function Line(v: Version): string { Decimal(v.major) + "." + Decimal(v.minor) }

  // ----- floating_tags -----

  /** `_may_move`: never false for a reason other than a newer peer. */
  predicate MayMove(v: Version, peers: seq<Version>) {
    forall k :: 0 <= k < |peers| ==> PyGe(Key(v), Key(peers[k])) == Wrappers.Some(true)
  }

  function Filter(vs: seq<Version>, p: Version -> bool): (r: seq<Version>)
    ensures forall v :: v in r <==> v in vs && p(v)
  {
    if vs == [] then []
    else
      var init, last := vs[..|vs| - 1], vs[|vs| - 1];
      assert vs == init + [last];
      Filter(init, p) + if p(last) then [last] else []
  }

  function ChannelPeers(v: Version, released: seq<Version>): seq<Version> {
    Filter(released, (p: Version) => !Stable(p) && Channel(p) == Channel(v))
  }

  function StablePeers(released: seq<Version>): seq<Version> { Filter(released, (p: Version) => Stable(p)) }

  function LinePeers(v: Version, released: seq<Version>): seq<Version> {
    Filter(StablePeers(released), (p: Version) => Line(p) == Line(v))
  }

  function MajorPeers(v: Version, released: seq<Version>): seq<Version> {
    Filter(StablePeers(released), (p: Version) => p.major == v.major)
  }

  predicate AnyStable(released: seq<Version>) { exists k :: 0 <= k < |released| && Stable(released[k]) }

  /** `floating_tags`. */
  function FloatingTags(v: Version, released: seq<Version>): seq<string> {
    if !Stable(v) then
      (if MayMove(v, ChannelPeers(v, released)) then [Channel(v)] else []) +
      (if !AnyStable(released) && MayMove(v, released) then [LATEST] else [])
    else
      (if MayMove(v, StablePeers(released)) then [LATEST] else []) +
      (if MayMove(v, LinePeers(v, released)) then [Line(v)] else []) +
      (if MayMove(v, MajorPeers(v, released)) then [Decimal(v.major)] else [])
  }

  // ----- what a tag is for -----

  /** The moving pointers, apart from their names. */
  datatype Slot = LatestSlot | ChannelSlot(name: string) | LineSlot(major: nat, minor: nat) | MajorSlot(major: nat)

  function SlotName(s: Slot): string {
    match s
    case LatestSlot => LATEST
    case ChannelSlot(name) => name
    case LineSlot(major, minor) => Decimal(major) + "." + Decimal(minor)
    case MajorSlot(major) => Decimal(major)
  }

  /** The names channels can have: a dot-free word that is not a number and not `latest`. */
  predicate ProperChannel(name: string) { '.' !in name && !AllDigits(name) && name != LATEST }

  predicate ProperSlot(s: Slot) { s.ChannelSlot? ==> ProperChannel(s.name) }

  /** A version as `parse` returns it, on no channel called `latest`. */
  predicate Proper(v: Version) {
    !Stable(v) ==> '.' !in v.prerelease[0] && v.prerelease[0] != LATEST
  }

  /** The releases a slot covers in a history. */
  predicate Covers(s: Slot, v: Version, history: seq<Version>) {
    match s
    case LatestSlot => Stable(v) || !AnyStable(history)
    case ChannelSlot(name) => !Stable(v) && Channel(v) == name
    case LineSlot(major, minor) => Stable(v) && v.major == major && v.minor == minor
    case MajorSlot(major) => Stable(v) && v.major == major
  }

  lemma DecimalNoDot(n: nat)
    ensures '.' !in Decimal(n)
  {
    var s := Decimal(n);
    forall k | 0 <= k < |s| ensures s[k] != '.' {
      assert IsDigit(s[k]);
    }
  }

  lemma DecimalInjective(a: nat, b: nat)
    requires Decimal(a) == Decimal(b)
    ensures a == b
  {
    assert ParseInt(Decimal(a)) == a && ParseInt(Decimal(b)) == b;
  }

  lemma LineInjective(a: nat, b: nat, c: nat, d: nat)
    requires Decimal(a) + "." + Decimal(b) == Decimal(c) + "." + Decimal(d)
    ensures a == c && b == d
  {
    DecimalNoDot(a);
    DecimalNoDot(c);
    CutAtDot(Decimal(a), Decimal(b), Decimal(c), Decimal(d));
    DecimalInjective(a, c);
    DecimalInjective(b, d);
  }

  lemma CutAtDot(a: string, b: string, c: string, d: string)
    requires a + "." + b == c + "." + d && '.' !in a && '.' !in c
    ensures a == c && b == d
  {
    SplitPrefix(a, b, '.');
    SplitPrefix(c, d, '.');
    assert Split(a + "." + b, '.')[0] == a;
    assert (a + "." + b)[|a| + 1..] == b && (c + "." + d)[|c| + 1..] == d;
  }

  /** No two slots share a name. */
  lemma SlotNamesDiffer(s: Slot, t: Slot)
    requires ProperSlot(s) && ProperSlot(t) && SlotName(s) == SlotName(t)
    ensures s == t
  {
    SlotShape(s);
    SlotShape(t);
    if s.LineSlot? && t.LineSlot? { LineInjective(s.major, s.minor, t.major, t.minor); }
    if s.MajorSlot? && t.MajorSlot? { DecimalInjective(s.major, t.major); }
  }

  lemma SlotShape(s: Slot)
    requires ProperSlot(s)
    ensures s.LineSlot? <==> '.' in SlotName(s)
    ensures s.MajorSlot? <==> AllDigits(SlotName(s))
    ensures s.LatestSlot? <==> SlotName(s) == LATEST
  {
    var name := SlotName(s);
    assert !IsDigit(LATEST[0]);
    if s.LineSlot? {
      assert name[|Decimal(s.major)|] == '.';
      assert !IsDigit(name[|Decimal(s.major)|]);
    } else if s.MajorSlot? {
      DecimalNoDot(s.major);
    }
  }

  // ----- one release -----

  lemma MayMoveIsAtLeast(v: Version, peers: seq<Version>)
    ensures MayMove(v, peers) <==> forall p :: p in peers ==> AtLeast(v, p)
  {
    forall p ensures PyGe(Key(v), Key(p)) == Wrappers.Some(AtLeast(v, p)) {
      KeyIsPrecedence(v, p);
    }
  }

  /** The versions a slot's peers are compared against when `v` is released. */
  ghost predicate Peer(s: Slot, v: Version, p: Version, released: seq<Version>) {
    p in released && (if s.LatestSlot? then Stable(v) ==> Stable(p) else Covers(s, p, released))
  }

  /** Releasing `v` moves slot `s`. */
  ghost predicate Moves(s: Slot, v: Version, released: seq<Version>) {
    && (if s.LatestSlot? then Stable(v) || !AnyStable(released) else Covers(s, v, released))
    && forall p :: Peer(s, v, p, released) ==> AtLeast(v, p)
  }

  lemma LatestMoves(v: Version, released: seq<Version>)
    ensures Stable(v) ==> (MayMove(v, StablePeers(released)) <==> Moves(LatestSlot, v, released))
    ensures !Stable(v) ==> (!AnyStable(released) && MayMove(v, released) <==> Moves(LatestSlot, v, released))
  {
    MayMoveIsAtLeast(v, StablePeers(released));
    MayMoveIsAtLeast(v, released);
    assert forall p :: Peer(LatestSlot, v, p, released) <==>
      p in (if Stable(v) then StablePeers(released) else released);
  }

  lemma ChannelMoves(v: Version, released: seq<Version>)
    requires !Stable(v)
    ensures MayMove(v, ChannelPeers(v, released)) <==> Moves(ChannelSlot(Channel(v)), v, released)
  {
    MayMoveIsAtLeast(v, ChannelPeers(v, released));
    assert forall p :: Peer(ChannelSlot(Channel(v)), v, p, released) <==> p in ChannelPeers(v, released);
  }

  lemma LineMoves(v: Version, released: seq<Version>)
    requires Stable(v)
    ensures MayMove(v, LinePeers(v, released)) <==> Moves(LineSlot(v.major, v.minor), v, released)
  {
    MayMoveIsAtLeast(v, LinePeers(v, released));
    forall p ensures Peer(LineSlot(v.major, v.minor), v, p, released) <==> p in LinePeers(v, released) {
      if Line(p) == Line(v) { LineInjective(p.major, p.minor, v.major, v.minor); }
    }
  }

  lemma MajorMoves(v: Version, released: seq<Version>)
    requires Stable(v)
    ensures MayMove(v, MajorPeers(v, released)) <==> Moves(MajorSlot(v.major), v, released)
  {
    MayMoveIsAtLeast(v, MajorPeers(v, released));
    assert forall p :: Peer(MajorSlot(v.major), v, p, released) <==> p in MajorPeers(v, released);
  }

  /** The slots a release of `v` can move. */
  function SlotsOf(v: Version): seq<Slot> {
    if Stable(v) then [LatestSlot, LineSlot(v.major, v.minor), MajorSlot(v.major)]
    else [ChannelSlot(Channel(v)), LatestSlot]
  }

  lemma StableTags(v: Version, released: seq<Version>, name: string)
    requires Stable(v)
    ensures name in FloatingTags(v, released) <==>
      MovesAs(v, released, name, 0) || MovesAs(v, released, name, 1) || MovesAs(v, released, name, 2)
  {
    LatestMoves(v, released);
    LineMoves(v, released);
    MajorMoves(v, released);
  }

  lemma PrereleaseTags(v: Version, released: seq<Version>, name: string)
    requires !Stable(v)
    ensures name in FloatingTags(v, released) <==> MovesAs(v, released, name, 0) || MovesAs(v, released, name, 1)
  {
    LatestMoves(v, released);
    ChannelMoves(v, released);
  }

  lemma TagsFromSlots(v: Version, released: seq<Version>, name: string)
    ensures name in FloatingTags(v, released) <==> exists k :: MovesAs(v, released, name, k)
  {
    if Stable(v) {
      StableTags(v, released, name);
    } else {
      PrereleaseTags(v, released, name);
    }
  }

  /** The `k`-th slot of `v` moves, under this name. */
  ghost predicate MovesAs(v: Version, released: seq<Version>, name: string, k: nat) {
    k < |SlotsOf(v)| && SlotName(SlotsOf(v)[k]) == name && Moves(SlotsOf(v)[k], v, released)
  }

  /** The tags `floating_tags` returns are the names of exactly the slots that move. */
  lemma FloatingTagsAreMoves(v: Version, released: seq<Version>, s: Slot)
    requires Proper(v) && ProperSlot(s)
    ensures SlotName(s) in FloatingTags(v, released) <==> Moves(s, v, released)
  {
    TagsFromSlots(v, released, SlotName(s));
    if SlotName(s) in FloatingTags(v, released) {
      var k: nat :| MovesAs(v, released, SlotName(s), k);
      if !Stable(v) { ChannelIsProper(v); }
      SlotNamesDiffer(SlotsOf(v)[k], s);
    }
    if Moves(s, v, released) {
      var k := OwnSlot(s, v, released);
      assert MovesAs(v, released, SlotName(s), k);
    }
  }

  lemma OwnSlot(s: Slot, v: Version, released: seq<Version>) returns (k: nat)
    requires Moves(s, v, released)
    ensures k < |SlotsOf(v)| && SlotsOf(v)[k] == s
  {
    k := if s.LatestSlot? then (if Stable(v) then 0 else 1) else if s.LineSlot? then 1
      else if s.MajorSlot? then 2 else 0;
  }

  lemma ChannelIsProper(v: Version)
    requires Proper(v) && !Stable(v)
    ensures ProperChannel(Channel(v))
  {
    assert !IsDigit("prerelease"[0]);
  }

  // ----- a history of releases -----

  function SetAll(tags: map<string, Version>, names: seq<string>, v: Version): (r: map<string, Version>)
    ensures forall n :: n in r <==> n in tags || n in names
    ensures forall n :: n in r ==> r[n] == if n in names then v else tags[n]
  {
    if names == [] then tags
    else
      assert names == names[..|names| - 1] + [names[|names| - 1]];
      SetAll(tags, names[..|names| - 1], v)[names[|names| - 1] := v]
  }

  /** Where every floating tag points after the releases of `history`, in order. */
  function TagsAfter(history: seq<Version>): map<string, Version> {
    if history == [] then map[]
    else
      var init, v := history[..|history| - 1], history[|history| - 1];
      SetAll(TagsAfter(init), FloatingTags(v, init), v)
  }

  predicate AllProper(history: seq<Version>) {
    forall k :: 0 <= k < |history| ==> Proper(history[k])
  }

  /** The tag of slot `s` points at a precedence-maximal release of its class, if there is one. */
  ghost predicate PointsAtNewest(s: Slot, history: seq<Version>) {
    var tags, name := TagsAfter(history), SlotName(s);
    && (name in tags <==> exists v :: v in history && Covers(s, v, history))
    && (name in tags ==>
      && tags[name] in history && Covers(s, tags[name], history)
      && forall v :: v in history && Covers(s, v, history) ==> AtLeast(tags[name], v))
  }

  lemma StableAfter(init: seq<Version>, v: Version)
    ensures AnyStable(init + [v]) <==> AnyStable(init) || Stable(v)
  {
    var more := init + [v];
    if AnyStable(init) {
      var k :| 0 <= k < |init| && Stable(init[k]);
      assert more[k] == init[k];
    }
    if Stable(v) { assert more[|init|] == v; }
  }

  /** The covered releases of a slot after one more release. */
  lemma CoveredAfter(s: Slot, init: seq<Version>, v: Version, p: Version)
    requires p in init + [v]
    ensures s.LatestSlot? ==>
      (Covers(s, p, init + [v]) <==> if Stable(v) || AnyStable(init) then Stable(p) else true)
    ensures !s.LatestSlot? ==> (Covers(s, p, init + [v]) <==> Covers(s, p, init))
  {
    StableAfter(init, v);
  }

  /** Each tag points at the newest release of its class, in every history. */
  lemma {:induction false} TagsPointAtNewest(s: Slot, history: seq<Version>)
    requires ProperSlot(s) && AllProper(history)
    ensures PointsAtNewest(s, history)
  {
    if history != [] {
      var init, v := history[..|history| - 1], history[|history| - 1];
      assert history == init + [v];
      TagsPointAtNewest(s, init);
      FloatingTagsAreMoves(v, init, s);
      if Moves(s, v, init) { MovedTag(s, init, v); } else { UnmovedTag(s, init, v); }
    }
  }

  lemma MovedTag(s: Slot, init: seq<Version>, v: Version)
    requires Moves(s, v, init) && SlotName(s) in FloatingTags(v, init)
    ensures PointsAtNewest(s, init + [v])
  {
    var history := init + [v];
    assert history[..|init|] == init;
    assert v in history;
    StableAfter(init, v);
    CoveredAfter(s, init, v, v);
    AtLeastIsTotalPreorder(v, v, v);
    forall p | p in history && Covers(s, p, history) ensures AtLeast(v, p) {
      CoveredAfter(s, init, v, p);
      if p != v {
        assert p in init;
        assert Peer(s, v, p, init);
      }
    }
  }

  /** A release that does not move a slot leaves its class as it was, and is not its newest. */
  lemma UnmovedClass(s: Slot, init: seq<Version>, v: Version)
    requires !Moves(s, v, init)
    ensures forall p :: p in init ==> (Covers(s, p, init + [v]) <==> Covers(s, p, init))
    ensures Covers(s, v, init + [v]) ==> exists p :: p in init && Covers(s, p, init) && AtLeast(p, v)
  {
    StableAfter(init, v);
    if Covers(s, v, init + [v]) || Stable(v) {
      if s.LatestSlot? || Covers(s, v, init) {
        var p :| Peer(s, v, p, init) && !AtLeast(v, p);
        AtLeastIsTotalPreorder(v, p, p);
        if s.LatestSlot? && Stable(p) { HasStable(init, p); }
      }
    }
  }

  lemma HasStable(vs: seq<Version>, p: Version)
    requires p in vs && Stable(p)
    ensures AnyStable(vs)
  {
  }

  lemma UnmovedTag(s: Slot, init: seq<Version>, v: Version)
    requires PointsAtNewest(s, init) && !Moves(s, v, init) && SlotName(s) !in FloatingTags(v, init)
    ensures PointsAtNewest(s, init + [v])
  {
    var history, name := init + [v], SlotName(s);
    assert history[..|init|] == init;
    UnmovedClass(s, init, v);
    var before, after := TagsAfter(init), TagsAfter(history);
    assert after == SetAll(before, FloatingTags(v, init), v);
    if Covers(s, v, history) {
      var p :| p in init && Covers(s, p, init) && AtLeast(p, v);
      assert name in before;
      AtLeastIsTotalPreorder(before[name], p, v);
    }
    if name in before {
      assert after[name] == before[name] && before[name] in history;
      forall p | p in history && Covers(s, p, history) ensures AtLeast(after[name], p) {
        assert p == v || p in init;
      }
    } else {
      forall p | p in history ensures !Covers(s, p, history) {
        assert p == v || p in init;
      }
    }
  }

  // ----- consequences -----

  /** No tag ever moves to an older release, except `:latest` at the first stable one. */
  lemma TagsNeverFall(s: Slot, history: seq<Version>, v: Version)
    requires ProperSlot(s) && AllProper(history + [v])
    requires SlotName(s) in TagsAfter(history)
    requires !(s.LatestSlot? && Stable(v) && !AnyStable(history))
    ensures var name := SlotName(s);
      name in TagsAfter(history + [v]) && AtLeast(TagsAfter(history + [v])[name], TagsAfter(history)[name])
  {
    var more, name := history + [v], SlotName(s);
    assert more[..|history|] == history;
    forall k | 0 <= k < |history| ensures Proper(history[k]) { assert more[k] == history[k]; }
    TagsPointAtNewest(s, history);
    TagsPointAtNewest(s, more);
    var old_ := TagsAfter(history)[name];
    assert old_ in more;
    StableAfter(history, v);
  }

  /** `:latest` is the newest stable release once there is one, and the newest
      prerelease before that. */
  lemma LatestIsNewest(history: seq<Version>)
    requires AllProper(history) && history != []
    ensures LATEST in TagsAfter(history)
    ensures var v := TagsAfter(history)[LATEST];
      && v in history
      && (AnyStable(history) ==> Stable(v))
      && forall p :: p in history && (AnyStable(history) ==> Stable(p)) ==> AtLeast(v, p)
  {
    TagsPointAtNewest(LatestSlot, history);
    if AnyStable(history) {
      var k :| 0 <= k < |history| && Stable(history[k]);
      assert history[k] in history && Covers(LatestSlot, history[k], history);
    } else {
      assert history[0] in history && Covers(LatestSlot, history[0], history);
    }
  }

  lemma OnlyItsOwnChannel(v: Version)
    requires !Stable(v)
    ensures Channel(v) == LATEST <==> v.prerelease[0] == LATEST
  {
    assert !IsDigit(LATEST[0]);
  }

  /** Releasing `v` moves `:latest`: a stable release that no stable one is newer
      than; a prerelease of a channel called `latest` that none of that channel is
      newer than; or, before any stable release, one that nothing is newer than. */
  ghost predicate TakesLatest(v: Version, released: seq<Version>) {
    if Stable(v) then forall p :: p in released && Stable(p) ==> AtLeast(v, p)
    else
      || (v.prerelease[0] == LATEST && forall p :: p in released && OnLatestChannel(p) ==> AtLeast(v, p))
      || (!AnyStable(released) && forall p :: p in released ==> AtLeast(v, p))
  }

  predicate OnLatestChannel(v: Version) { !Stable(v) && v.prerelease[0] == LATEST }

  /** The rule for `:latest`, for every release and whatever was released before. */
  lemma LatestMovesExactly(v: Version, released: seq<Version>)
    ensures LATEST in FloatingTags(v, released) <==> TakesLatest(v, released)
  {
    if Stable(v) {
      SlotShape(LineSlot(v.major, v.minor));
      SlotShape(MajorSlot(v.major));
      MayMoveIsAtLeast(v, StablePeers(released));
    } else {
      OnlyItsOwnChannel(v);
      MayMoveIsAtLeast(v, released);
      MayMoveIsAtLeast(v, ChannelPeers(v, released));
      if v.prerelease[0] == LATEST {
        forall p ensures p in ChannelPeers(v, released) <==> p in released && OnLatestChannel(p) {
          if !Stable(p) { OnlyItsOwnChannel(p); }
        }
      }
    }
  }

  /** Releasing `v` moves `:latest` to an older version. */
  ghost predicate LatestFalls(history: seq<Version>, v: Version) {
    var before, after := TagsAfter(history), TagsAfter(history + [v]);
    LATEST in before && LATEST in after && Precedes(after[LATEST], before[LATEST])
  }

  /** In every history, `:latest` falls exactly at a release that takes it and
      precedes the version it pointed at. */
  lemma LatestFallsWhen(history: seq<Version>, v: Version)
    requires LATEST in TagsAfter(history)
    ensures LatestFalls(history, v) <==> TakesLatest(v, history) && Precedes(v, TagsAfter(history)[LATEST])
  {
    var more, old_ := history + [v], TagsAfter(history)[LATEST];
    assert more[..|history|] == history;
    LatestMovesExactly(v, history);
    AtLeastIsTotalPreorder(old_, old_, old_);
  }

  /** As long as no channel is called `latest`, that tag falls exactly at a release
      older than the one it points at which is the first stable release, or the
      first prerelease of a channel called `latest`. */
  lemma LatestFallsExactly(history: seq<Version>, v: Version)
    requires AllProper(history) && LATEST in TagsAfter(history)
    ensures LatestFalls(history, v) <==>
      Precedes(v, TagsAfter(history)[LATEST]) && (if Stable(v) then !AnyStable(history) else v.prerelease[0] == LATEST)
  {
    var old_ := TagsAfter(history)[LATEST];
    LatestFallsWhen(history, v);
    TagsPointAtNewest(LatestSlot, history);
    forall p | p in history ensures !OnLatestChannel(p) && (Stable(p) ==> AnyStable(history)) {
      var k :| 0 <= k < |history| && history[k] == p;
      assert Proper(history[k]);
    }
  }

  lemma TakenLatest(history: seq<Version>, v: Version)
    requires TakesLatest(v, history)
    ensures LATEST in TagsAfter(history + [v]) && TagsAfter(history + [v])[LATEST] == v
  {
    assert (history + [v])[..|history|] == history;
    LatestMovesExactly(v, history);
  }

  /** A prerelease of a channel called `latest` pulls the tag back from a newer one. */
  lemma ChannelPullsBack(first: Version, v: Version)
    requires !OnLatestChannel(first) && OnLatestChannel(v) && Precedes(v, first)
    ensures LatestFalls([first], v)
  {
    assert [] + [first] == [first];
    TakenLatest([], first);
    LatestFallsWhen([first], v);
  }

  /** A newest stable release pulls it back from a newer one of a channel called `latest`. */
  lemma StablePullsBack(history: seq<Version>, newest: Version, v: Version)
    requires OnLatestChannel(newest) && TakesLatest(newest, history)
    requires Stable(v) && TakesLatest(v, history) && Precedes(v, newest)
    ensures LatestFalls(history + [newest], v)
  {
    TakenLatest(history, newest);
    LatestFallsWhen(history + [newest], v);
  }

  lemma PatchPullsBack(first: Version, second: Version, v: Version)
    requires Stable(first) && OnLatestChannel(second) && Stable(v) && AtLeast(v, first) && Precedes(v, second)
    ensures LatestFalls([first, second], v)
  {
    assert [first, second] == [first] + [second];
    StablePullsBack([first], second, v);
  }

  /** 1.0.0-latest after 2.0.0-alpha, and 1.0.1 after 1.0.0 and 2.0.0-latest. */
  lemma LatestDoesFall()
    ensures LatestFalls([Version(2, 0, 0, ["alpha"])], Version(1, 0, 0, [LATEST]))
    ensures LatestFalls([Version(1, 0, 0, []), Version(2, 0, 0, [LATEST])], Version(1, 0, 1, []))
  {
    ChannelPullsBack(Version(2, 0, 0, ["alpha"]), Version(1, 0, 0, [LATEST]));
    PatchPullsBack(Version(1, 0, 0, []), Version(2, 0, 0, [LATEST]), Version(1, 0, 1, []));
  }

  /** The answer does not depend on the order of the released versions, nor on
      whether the version itself is among them. */
  lemma OrderAndRepublishIrrelevant(v: Version, r1: seq<Version>, r2: seq<Version>)
    requires forall p :: p in r1 || p == v <==> p in r2 || p == v
    ensures FloatingTags(v, r1) == FloatingTags(v, r2)
  {
    forall s: Slot ensures Moves(s, v, r1) <==> Moves(s, v, r2) {
      if Moves(s, v, r1) { SameMoves(v, r1, r2, s); }
      if Moves(s, v, r2) { SameMoves(v, r2, r1, s); }
    }
    LatestMoves(v, r1);
    LatestMoves(v, r2);
    if Stable(v) {
      LineMoves(v, r1);
      LineMoves(v, r2);
      MajorMoves(v, r1);
      MajorMoves(v, r2);
    } else {
      ChannelMoves(v, r1);
      ChannelMoves(v, r2);
    }
  }

  lemma SameMoves(v: Version, r1: seq<Version>, r2: seq<Version>, s: Slot)
    requires forall p :: p in r1 || p == v <==> p in r2 || p == v
    requires Moves(s, v, r1)
    ensures Moves(s, v, r2)
  {
    AtLeastIsTotalPreorder(v, v, v);
    if !Stable(v) && AnyStable(r2) {
      var k :| 0 <= k < |r2| && Stable(r2[k]);
      assert r2[k] in r2 && r2[k] in r1;
    }
    forall p | Peer(s, v, p, r2) ensures AtLeast(v, p) {
      if p != v { assert Peer(s, v, p, r1); }
    }
  }

  /** For a stable release, moving `:latest` implies moving the major tag, which implies moving the line tag. */
  lemma StableMovesNest(v: Version, released: seq<Version>)
    requires Stable(v)
    ensures LATEST in FloatingTags(v, released) ==> Decimal(v.major) in FloatingTags(v, released)
    ensures Decimal(v.major) in FloatingTags(v, released) ==> Line(v) in FloatingTags(v, released)
  {
    FloatingTagsAreMoves(v, released, LatestSlot);
    FloatingTagsAreMoves(v, released, MajorSlot(v.major));
    FloatingTagsAreMoves(v, released, LineSlot(v.major, v.minor));
    assert forall p :: Peer(LineSlot(v.major, v.minor), v, p, released) ==> Peer(MajorSlot(v.major), v, p, released);
    assert forall p :: Peer(MajorSlot(v.major), v, p, released) ==> Peer(LatestSlot, v, p, released);
  }
}
