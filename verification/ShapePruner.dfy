/** The shape pruner, pruneService in cmd/awsmodelgen/shapes.go: a depth-first
    walk over a cyclic reference graph that emits the shapes it visits. */
module ShapePruner {
  import opened Order
  import opened ShapeGraph
  import opened Wrappers

  // ----- what is emitted -----

  datatype SnapshotShape = SnapshotShape(
    kind: string, version: string,
    links: seq<string>, carriers: seq<string>, carrierTraits: seq<Traits>, lists: seq<seq<string>>,
    maps: seq<map<string, string>>, members: map<string, Member>, traits: Traits)

  /** The settings of one pruning run; `normalize` re-encodes a JSON value. */
  datatype Config = Config(
    model: Model, namespace: string, allow: set<string>, normalize: string -> Option<string>)
  {
    /** `relative`: the namespace prefix is dropped from shapes of the service. */
    function Relative(id: string): string {
      var prefix := namespace + "#";
      if HasPrefix(id, prefix) then id[|prefix|..] else id
    }

    /** Every allowlisted trait value re-encodes. */
    predicate TraitsOk(traits: Traits) {
      forall name :: name in traits && name in allow ==> normalize(traits[name]).Some?
    }

    predicate ShapeTraitsOk(raw: RawShape) {
      && TraitsOk(raw.traits)
      && (forall c :: c in raw.carriers && c.Some? ==> TraitsOk(c.value.traits))
      && (forall name :: name in raw.members ==> TraitsOk(raw.members[name].traits))
    }

    /** The allowlisted traits, re-encoded. */
    function KeptTraits(traits: Traits): Traits
      requires TraitsOk(traits)
    {
      map name | name in traits && name in allow :: normalize(traits[name]).value
    }

    function EmitLink(link: Option<string>): string {
      match link case None => "" case Some(t) => Relative(t)
    }

    function EmitCarrier(c: Option<Member>): string {
      match c case None => "" case Some(m) => Relative(m.target)
    }

    function EmitCarrierTraits(c: Option<Member>): Traits
      requires c.Some? ==> TraitsOk(c.value.traits)
    {
      match c case None => map[] case Some(m) => KeptTraits(m.traits)
    }

    ghost function EmitList(list: seq<string>): seq<string> {
      SortedList(set t | t in list :: Relative(t))
    }

    function EmitMap(m: map<string, string>): map<string, string> {
      map name | name in m :: Relative(m[name])
    }

    function EmitMembers(members: map<string, Member>): map<string, Member>
      requires forall name :: name in members ==> TraitsOk(members[name].traits)
    {
      map name | name in members :: Member(Relative(members[name].target), KeptTraits(members[name].traits))
    }

    /** The snapshot of one shape, independent of any visiting order. */
    ghost function EmitShape(raw: RawShape): SnapshotShape
      requires ShapeTraitsOk(raw)
    {
      SnapshotShape(
        raw.kind, raw.version,
        seq(|raw.links|, i requires 0 <= i < |raw.links| => EmitLink(raw.links[i])),
        seq(|raw.carriers|, i requires 0 <= i < |raw.carriers| => EmitCarrier(raw.carriers[i])),
        seq(|raw.carriers|, i requires 0 <= i < |raw.carriers| => EmitCarrierTraits(raw.carriers[i])),
        seq(|raw.lists|, i requires 0 <= i < |raw.lists| => EmitList(raw.lists[i])),
        seq(|raw.maps|, i requires 0 <= i < |raw.maps| => EmitMap(raw.maps[i])),
        EmitMembers(raw.members),
        KeptTraits(raw.traits))
    }

    /** Why a walk that reaches `id` must fail. */
    ghost predicate Bad(id: string) {
      !Prelude(id) && (id !in model || !ShapeTraitsOk(model[id]))
    }
  }

  /** The snapshot of shape `id`; only meaningful for defined shapes with sound traits. */
  ghost function Snapshot(config: Config, id: string): SnapshotShape {
    if id in config.model && config.ShapeTraitsOk(config.model[id]) then config.EmitShape(config.model[id])
    else SnapshotShape("", "", [], [], [], [], [], map[], map[])
  }

  /** The map left by emitting the shapes of `log` in order. */
  ghost function Replay(config: Config, log: seq<string>): map<string, SnapshotShape> {
    if log == [] then map[]
    else
      var last := log[|log| - 1];
      Replay(config, log[..|log| - 1])[config.Relative(last) := Snapshot(config, last)]
  }

  predicate Covered(visited: set<string>, t: string) { Prelude(t) || t in visited }

  /** `reach` holds what its shapes refer to. */
  ghost predicate Successors(model: Model, reach: iset<string>) {
    forall u, v :: u in reach && Refers(model, u, v) ==> v in reach
  }

  /** A visited shape is defined and reachable. */
  ghost predicate Found(config: Config, reach: iset<string>, v: string) {
    v in config.model && !Prelude(v) && v in reach
  }

  /** An emitted shape is sound and everything it refers to is visited. */
  ghost predicate Finished(config: Config, visited: set<string>, v: string) {
    && v in config.model && config.ShapeTraitsOk(config.model[v])
    && forall t {:trigger t in Targets(config.model[v])} :: t in Targets(config.model[v]) ==> Covered(visited, t)
  }

  ghost predicate Sound(config: Config, reach: iset<string>, visited: set<string>, emitted: set<string>) {
    && emitted <= visited
    && (forall v {:trigger Found(config, reach, v)} :: v in visited ==> Found(config, reach, v))
    && (forall v {:trigger Finished(config, visited, v)} :: v in emitted ==> Finished(config, visited, v))
  }

  lemma SoundEnter(config: Config, reach: iset<string>, visited: set<string>, emitted: set<string>, id: string)
    requires Sound(config, reach, visited, emitted) && Found(config, reach, id)
    ensures Sound(config, reach, visited + {id}, emitted)
  {
    forall v | v in emitted ensures Finished(config, visited + {id}, v) {
      assert Finished(config, visited, v);
    }
  }

  lemma SoundLeave(config: Config, reach: iset<string>, visited: set<string>, emitted: set<string>, id: string)
    requires Sound(config, reach, visited, emitted) && id in visited && Finished(config, visited, id)
    ensures Sound(config, reach, visited, emitted + {id})
  {
    forall v | v in emitted + {id} ensures Finished(config, visited, v) {
      assert v in emitted || v == id;
    }
  }

  ghost function Listed(log: seq<string>): set<string> {
    set v | v in log
  }

  lemma ReplayNext(config: Config, log: seq<string>, id: string)
    ensures Replay(config, log + [id]) == Replay(config, log)[config.Relative(id) := Snapshot(config, id)]
    ensures Listed(log + [id]) == Listed(log) + {id}
  {
    assert (log + [id])[..|log|] == log;
  }

  /** A failure names a reachable shape that is undefined or has a bad trait. */
  ghost predicate Explains(config: Config, reach: iset<string>, bad: string) {
    config.Bad(bad) && bad in reach
  }

  lemma TargetsInReach(config: Config, reach: iset<string>, id: string, order: seq<string>)
    requires Successors(config.model, reach) && Found(config, reach, id)
    requires Listed(order) == Targets(config.model[id])
    ensures forall t :: t in order ==> t in reach
  {
    forall t | t in order ensures t in reach {
      assert t in Listed(order);
      assert Refers(config.model, id, t);
    }
  }

  lemma StillCovered(before: set<string>, after: set<string>, targets: seq<string>)
    requires before <= after && forall k :: 0 <= k < |targets| ==> Covered(before, targets[k])
    ensures forall k :: 0 <= k < |targets| ==> Covered(after, targets[k])
  {
  }

  // ----- one shape -----

  lemma ListedAppend(a: seq<string>, b: seq<string>)
    ensures Listed(a + b) == Listed(a) + Listed(b)
  {
  }

  method LinkOrder(links: seq<Option<string>>) returns (order: seq<string>)
    ensures Listed(order) == LinkTargets(links)
  {
    order := [];
    for i := 0 to |links|
      invariant Listed(order) == LinkTargets(links[..i])
    {
      assert links[..i + 1] == links[..i] + [links[i]];
      if links[i].Some? {
        ListedAppend(order, [links[i].value]);
        assert LinkTargets(links[..i + 1]) == LinkTargets(links[..i]) + {links[i].value};
        order := order + [links[i].value];
      }
    }
    assert links[..|links|] == links;
  }

  method CarrierOrder(carriers: seq<Option<Member>>) returns (order: seq<string>)
    ensures Listed(order) == CarrierTargets(carriers)
  {
    order := [];
    for i := 0 to |carriers|
      invariant Listed(order) == CarrierTargets(carriers[..i])
    {
      assert carriers[..i + 1] == carriers[..i] + [carriers[i]];
      if carriers[i].Some? {
        ListedAppend(order, [carriers[i].value.target]);
        assert CarrierTargets(carriers[..i + 1]) == CarrierTargets(carriers[..i]) + {carriers[i].value.target};
        order := order + [carriers[i].value.target];
      }
    }
    assert carriers[..|carriers|] == carriers;
  }

  method ListOrder(lists: seq<seq<string>>) returns (order: seq<string>)
    ensures Listed(order) == ListTargets(lists)
  {
    order := [];
    for i := 0 to |lists|
      invariant Listed(order) == ListTargets(lists[..i])
    {
      assert lists[..i + 1] == lists[..i] + [lists[i]];
      ListedAppend(order, lists[i]);
      assert ListTargets(lists[..i + 1]) == ListTargets(lists[..i]) + Listed(lists[i]);
      order := order + lists[i];
    }
    assert lists[..|lists|] == lists;
  }

  method MapOrder(maps: seq<map<string, string>>) returns (order: seq<string>)
    ensures Listed(order) == MapTargets(maps)
  {
    order := [];
    for i := 0 to |maps|
      invariant Listed(order) == MapTargets(maps[..i])
    {
      assert maps[..i + 1] == maps[..i] + [maps[i]];
      var values := AnyOrder(maps[i].Values);
      ListedAppend(order, values);
      assert MapTargets(maps[..i + 1]) == MapTargets(maps[..i]) + maps[i].Values;
      order := order + values;
    }
    assert maps[..|maps|] == maps;
  }

  /** `for … range` over a Go map: each value, in any order. */
  method AnyOrder(values: set<string>) returns (order: seq<string>)
    ensures Listed(order) == values
  {
    order := [];
    var rest := values;
    while rest != {}
      invariant rest <= values && Listed(order) == values - rest
      decreases rest
    {
      var x :| x in rest;
      ListedAppend(order, [x]);
      rest, order := rest - {x}, order + [x];
    }
  }

  /** The references of a shape, in a visiting order: fixed roles first, then
      the entries of each map in any order. */
  method TargetOrder(raw: RawShape) returns (order: seq<string>)
    ensures Listed(order) == Targets(raw)
  {
    var links := LinkOrder(raw.links);
    var carriers := CarrierOrder(raw.carriers);
    var lists := ListOrder(raw.lists);
    var maps := MapOrder(raw.maps);
    var members := AnyOrder(set n | n in raw.members :: raw.members[n].target);
    ListedAppend(links, carriers);
    ListedAppend(links + carriers, lists);
    ListedAppend(links + carriers + lists, maps);
    ListedAppend(links + carriers + lists + maps, members);
    order := links + carriers + lists + maps + members;
  }

  /** `filterTraits`: allowlisted traits are re-encoded, the first failure stops. */
  method FilterTraits(config: Config, traits: Traits) returns (kept: Option<Traits>)
    ensures kept.Some? <==> config.TraitsOk(traits)
    ensures kept.Some? ==> kept.value == config.KeptTraits(traits)
  {
    var names, out := traits.Keys, map[];
    while names != {}
      invariant names <= traits.Keys
      invariant forall n :: n in traits.Keys - names && n in config.allow ==> config.normalize(traits[n]).Some?
      invariant out.Keys == (traits.Keys - names) * config.allow
      invariant forall n :: n in out ==> out[n] == config.normalize(traits[n]).value
      decreases names
    {
      var n :| n in names;
      names := names - {n};
      if n in config.allow {
        var value := config.normalize(traits[n]);
        if value.None? {
          return None;
        }
        out := out[n := value.value];
      }
    }
    return Some(out);
  }

  /** The snapshot of a shape whose references have been walked; none when a
      kept trait does not re-encode. */
  method WriteSnapshot(config: Config, raw: RawShape) returns (out: Option<SnapshotShape>)
    ensures out.Some? <==> config.ShapeTraitsOk(raw)
    ensures out.Some? ==> out.value == config.EmitShape(raw)
  {
    var lists := [];
    for i := 0 to |raw.lists|
      invariant |lists| == i && forall k :: 0 <= k < i ==> lists[k] == config.EmitList(raw.lists[k])
    {
      var list := raw.lists[i];
      var names := seq(|list|, k requires 0 <= k < |list| => config.Relative(list[k]));
      RelativeNames(config, list, names);
      var sorted := SortCompact(names);
      lists := lists + [sorted];
    }
    var carrierTraits := [];
    for i := 0 to |raw.carriers|
      invariant |carrierTraits| == i
      invariant forall k :: 0 <= k < i && raw.carriers[k].Some? ==> config.TraitsOk(raw.carriers[k].value.traits)
      invariant forall k :: 0 <= k < i ==> carrierTraits[k] == config.EmitCarrierTraits(raw.carriers[k])
    {
      var kept := Some(map[]);
      if raw.carriers[i].Some? {
        kept := FilterTraits(config, raw.carriers[i].value.traits);
        if kept.None? {
          return None;
        }
      }
      carrierTraits := carrierTraits + [kept.value];
    }
    var members := FilterMembers(config, raw.members);
    if members.None? {
      return None;
    }
    var traits := FilterTraits(config, raw.traits);
    if traits.None? {
      return None;
    }
    return Some(SnapshotShape(
      raw.kind, raw.version,
      seq(|raw.links|, i requires 0 <= i < |raw.links| => config.EmitLink(raw.links[i])),
      seq(|raw.carriers|, i requires 0 <= i < |raw.carriers| => config.EmitCarrier(raw.carriers[i])),
      carrierTraits, lists,
      seq(|raw.maps|, i requires 0 <= i < |raw.maps| => config.EmitMap(raw.maps[i])),
      members.value, traits.value));
  }

  method FilterMembers(config: Config, members: map<string, Member>) returns (out: Option<map<string, Member>>)
    ensures out.Some? <==> forall n :: n in members ==> config.TraitsOk(members[n].traits)
    ensures out.Some? ==> out.value == config.EmitMembers(members)
  {
    var names, kept := members.Keys, map[];
    while names != {}
      invariant names <= members.Keys && kept.Keys == members.Keys - names
      invariant forall n :: n in kept ==> config.TraitsOk(members[n].traits)
      invariant forall n :: n in kept ==>
        kept[n] == Member(config.Relative(members[n].target), config.KeptTraits(members[n].traits))
      decreases names
    {
      var n :| n in names;
      names := names - {n};
      var traits := FilterTraits(config, members[n].traits);
      if traits.None? {
        return None;
      }
      kept := kept[n := Member(config.Relative(members[n].target), traits.value)];
    }
    return Some(kept);
  }

  lemma RelativeNames(config: Config, list: seq<string>, names: seq<string>)
    requires |names| == |list| && forall k :: 0 <= k < |list| ==> names[k] == config.Relative(list[k])
    ensures (set n | n in names) == (set t | t in list :: config.Relative(t))
  {
    forall n ensures n in names <==> n in (set t | t in list :: config.Relative(t)) {
      if n in names {
        var k :| 0 <= k < |names| && names[k] == n;
        assert list[k] in list;
      }
      if n in (set t | t in list :: config.Relative(t)) {
        var t :| t in list && config.Relative(t) == n;
        var k :| 0 <= k < |list| && list[k] == t;
        assert names[k] == n;
      }
    }
  }

  /** The walk: `visited` and `shapes` are the variables its closures
      share. A shape is visited when it is entered and emitted when it is left. */
  class Pruner {
    const config: Config
    ghost const reach: iset<string>  // what the walk may reach
    var visited: set<string>
    var shapes: map<string, SnapshotShape>
    ghost var emitted: set<string>
    ghost var grey: set<string>  // entered and not yet left
    ghost var log: seq<string>

    constructor (config: Config, ghost reach: iset<string>)
      requires Successors(config.model, reach)
      ensures this.config == config && this.reach == reach
      ensures visited == {} && grey == {} && Valid()
    {
      this.config, this.reach := config, reach;
      visited, shapes, emitted, grey, log := {}, map[], {}, {}, [];
    }

    ghost predicate Valid()
      reads this
    {
      && Successors(config.model, reach)
      && Sound(config, reach, visited, emitted)
      && visited == emitted + grey
      && emitted == Listed(log) && shapes == Replay(config, log)
    }

    /** The termination measure: defined shapes not yet visited. */
    ghost function Left(): nat
      reads this
    {
      |config.model.Keys - visited|
    }

    method Visit(id: string) returns (err: Option<string>)
      requires Valid() && id in reach
      modifies this
      ensures old(visited) <= visited
      ensures err.None? ==> Valid() && Covered(visited, id) && grey == old(grey)
      ensures err.Some? ==> Explains(config, reach, err.value)
      decreases Left(), 0
    {
      if id in visited || Prelude(id) {
        return None;
      }
      if id !in config.model {
        return Some(id);
      }
      SubsetSmaller(config.model.Keys - (visited + {id}), config.model.Keys - visited, id);
      Enter(id);
      var out;
      err, out := VisitParts(id);
      if err.None? {
        Leave(id, out);
      }
    }

    /** `visited[id] = struct{}{}`. */
    method Enter(id: string)
      requires Valid() && Found(config, reach, id) && id !in visited
      modifies this`visited, this`grey
      ensures Valid() && visited == old(visited) + {id} && grey == old(grey) + {id}
    {
      SoundEnter(config, reach, visited, emitted, id);
      visited, grey := visited + {id}, grey + {id};
    }

    /** `snapshot.Shapes[relative(id)] = out`. */
    method Leave(id: string, out: SnapshotShape)
      requires Valid() && id in visited && Finished(config, visited, id) && out == Snapshot(config, id)
      modifies this`shapes, this`emitted, this`grey, this`log
      ensures Valid() && emitted == old(emitted) + {id} && grey == old(grey) - {id}
    {
      SoundLeave(config, reach, visited, emitted, id);
      ReplayNext(config, log, id);
      shapes := shapes[config.Relative(id) := out];
      log, emitted, grey := log + [id], emitted + {id}, grey - {id};
    }

    /** The body of visit after the shape is marked: walk its references, in an
        order map iteration leaves open, then write its snapshot. */
    method VisitParts(id: string) returns (err: Option<string>, out: SnapshotShape)
      requires Valid() && id in visited && id in config.model
      modifies this
      ensures old(visited) <= visited
      ensures err.None? ==> Valid() && grey == old(grey)
      ensures err.None? ==> Finished(config, visited, id) && out == Snapshot(config, id)
      ensures err.Some? ==> Explains(config, reach, err.value)
      decreases Left(), 2
    {
      var raw := config.model[id];
      var order := TargetOrder(raw);
      TargetsInReach(config, reach, id, order);
      err := VisitAll(order);
      var shape := WriteSnapshot(config, raw);
      out := if shape.Some? then shape.value else SnapshotShape("", "", [], [], [], [], [], map[], map[]);
      if err.None? {
        if shape.None? {
          err := Some(id);
        } else {
          assert forall t :: t in Targets(raw) ==> t in order;
        }
      }
    }

    /** `visitRef`, `visitRefs` and `visitMap` share this loop: visit each target in turn. */
    method VisitAll(targets: seq<string>) returns (err: Option<string>)
      requires Valid() && forall t :: t in targets ==> t in reach
      modifies this
      ensures old(visited) <= visited
      ensures err.None? ==> Valid() && grey == old(grey)
      ensures err.None? ==> forall t :: t in targets ==> Covered(visited, t)
      ensures err.Some? ==> Explains(config, reach, err.value)
      decreases Left(), 1
    {
      err := None;
      for i := 0 to |targets|
        invariant err.None? && Valid() && grey == old(grey)
        invariant old(visited) <= visited
        invariant forall k :: 0 <= k < i ==> Covered(visited, targets[k])
      {
        ghost var before := visited;
        SubsetNoLarger(config.model.Keys - visited, config.model.Keys - old(visited));
        err := Visit(targets[i]);
        if err.Some? {
          return;
        }
        StillCovered(before, visited, targets[..i]);
      }
    }
  }

  // ----- what a snapshot says -----

  /** `name` is how the snapshot writes shape `id`: without the namespace of the
      service if `id` is in it, in full otherwise. */
  ghost predicate Names(config: Config, id: string, name: string) {
    || id == config.namespace + "#" + name
    || (name == id && forall rest :: id != config.namespace + "#" + rest)
  }

  /** Exactly the allowlisted traits, each with its value re-encoded. */
  ghost predicate KeepsTraits(config: Config, traits: Traits, out: Traits) {
    && (forall name :: name in out <==> name in traits && name in config.allow)
    && (forall name :: name in out ==> config.normalize(traits[name]) == Some(out[name]))
  }

  ghost predicate MirrorsLink(config: Config, link: Option<string>, out: string) {
    match link case None => out == "" case Some(t) => Names(config, t, out)
  }

  ghost predicate MirrorsCarrier(config: Config, carrier: Option<Member>, out: string, traits: Traits) {
    match carrier
    case None => out == "" && traits == map[]
    case Some(m) => Names(config, m.target, out) && KeepsTraits(config, m.traits, traits)
  }

  /** The names of the listed shapes, sorted, each once. */
  ghost predicate MirrorsList(config: Config, list: seq<string>, out: seq<string>) {
    Increasing(out) && forall n :: n in out <==> exists t :: t in list && Names(config, t, n)
  }

  ghost predicate MirrorsMap(config: Config, m: map<string, string>, out: map<string, string>) {
    out.Keys == m.Keys && forall k :: k in m ==> Names(config, m[k], out[k])
  }

  ghost predicate MirrorsMember(config: Config, m: Member, out: Member) {
    Names(config, m.target, out.target) && KeepsTraits(config, m.traits, out.traits)
  }

  /** The snapshot has the kind and version of the raw shape and, role by role, the
      names of what it refers to and its kept traits; absent roles are empty. */
  ghost predicate Mirrors(config: Config, raw: RawShape, out: SnapshotShape) {
    && out.kind == raw.kind && out.version == raw.version
    && |out.links| == |raw.links| && |out.lists| == |raw.lists| && |out.maps| == |raw.maps|
    && |out.carriers| == |out.carrierTraits| == |raw.carriers| && out.members.Keys == raw.members.Keys
    && (forall i {:trigger raw.links[i]} {:trigger out.links[i]} :: 0 <= i < |raw.links| ==>
      MirrorsLink(config, raw.links[i], out.links[i]))
    && (forall i {:trigger raw.carriers[i]} {:trigger out.carriers[i]} :: 0 <= i < |raw.carriers| ==>
      MirrorsCarrier(config, raw.carriers[i], out.carriers[i], out.carrierTraits[i]))
    && (forall i {:trigger raw.lists[i]} {:trigger out.lists[i]} :: 0 <= i < |raw.lists| ==>
      MirrorsList(config, raw.lists[i], out.lists[i]))
    && (forall i {:trigger raw.maps[i]} {:trigger out.maps[i]} :: 0 <= i < |raw.maps| ==>
      MirrorsMap(config, raw.maps[i], out.maps[i]))
    && (forall n {:trigger raw.members[n]} {:trigger out.members[n]} :: n in raw.members ==>
      MirrorsMember(config, raw.members[n], out.members[n]))
    && KeepsTraits(config, raw.traits, out.traits)
  }

  lemma NamesIsRelative(config: Config, id: string, name: string)
    ensures Names(config, id, name) <==> name == config.Relative(id)
  {
    var prefix := config.namespace + "#";
    if HasPrefix(id, prefix) { assert id == prefix + id[|prefix|..]; }
    if id == prefix + name { assert id[|prefix|..] == name; }
  }

  lemma AllNamed(config: Config)
    ensures forall id {:trigger config.Relative(id)} :: Names(config, id, config.Relative(id))
  {
    forall id ensures Names(config, id, config.Relative(id)) { NamesIsRelative(config, id, config.Relative(id)); }
  }

  lemma TraitsKept(config: Config, traits: Traits)
    requires config.TraitsOk(traits)
    ensures KeepsTraits(config, traits, config.KeptTraits(traits))
  {
  }

  lemma CarrierMirrored(config: Config, c: Option<Member>)
    requires c.Some? ==> config.TraitsOk(c.value.traits)
    ensures MirrorsCarrier(config, c, config.EmitCarrier(c), config.EmitCarrierTraits(c))
  {
    if c.Some? {
      TraitsKept(config, c.value.traits);
      NamesIsRelative(config, c.value.target, config.EmitCarrier(c));
    }
  }

  lemma ListMirrored(config: Config, list: seq<string>)
    ensures MirrorsList(config, list, config.EmitList(list))
  {
    var names := set t | t in list :: config.Relative(t);
    forall n ensures n in names <==> exists t :: t in list && Names(config, t, n) {
      AllNamed(config);
      if t :| t in list && Names(config, t, n) { NamesIsRelative(config, t, n); }
    }
  }

  /** What is written for a shape says what the shape says. */
  lemma EmittedMirrors(config: Config, raw: RawShape)
    requires config.ShapeTraitsOk(raw)
    ensures Mirrors(config, raw, config.EmitShape(raw))
  {
    var out := config.EmitShape(raw);
    AllNamed(config);
    forall i | 0 <= i < |raw.carriers|
      ensures MirrorsCarrier(config, raw.carriers[i], out.carriers[i], out.carrierTraits[i])
    {
      assert raw.carriers[i] in raw.carriers;
      CarrierMirrored(config, raw.carriers[i]);
    }
    forall i | 0 <= i < |raw.lists| ensures MirrorsList(config, raw.lists[i], out.lists[i]) {
      ListMirrored(config, raw.lists[i]);
    }
    forall n | n in raw.members ensures MirrorsMember(config, raw.members[n], out.members[n]) {
      TraitsKept(config, raw.members[n].traits);
    }
  }

  /** A shape the snapshot refers to. */
  ghost predicate Mentions(s: SnapshotShape, n: string) {
    && n != ""
    && (|| n in s.links || n in s.carriers
        || (exists list :: list in s.lists && n in list)
        || (exists m :: m in s.maps && n in m.Values)
        || (exists k :: k in s.members && s.members[k].target == n))
  }

  lemma MentionedIsTarget(config: Config, raw: RawShape, out: SnapshotShape, n: string) returns (t: string)
    requires Mirrors(config, raw, out) && Mentions(out, n)
    ensures t in Targets(raw) && Names(config, t, n)
  {
    if n in out.links {
      var i :| 0 <= i < |out.links| && out.links[i] == n;
      t := raw.links[i].value;
      assert raw.links[i] in raw.links && t in LinkTargets(raw.links);
    } else if n in out.carriers {
      var i :| 0 <= i < |out.carriers| && out.carriers[i] == n;
      t := raw.carriers[i].value.target;
      assert raw.carriers[i] in raw.carriers && t in CarrierTargets(raw.carriers);
    } else if list :| list in out.lists && n in list {
      var i :| 0 <= i < |out.lists| && out.lists[i] == list;
      t :| t in raw.lists[i] && Names(config, t, n);
      assert raw.lists[i] in raw.lists && t in ListTargets(raw.lists);
    } else if m :| m in out.maps && n in m.Values {
      var i :| 0 <= i < |out.maps| && out.maps[i] == m;
      var k :| k in m && m[k] == n;
      t := raw.maps[i][k];
      assert raw.maps[i] in raw.maps && t in raw.maps[i].Values && t in MapTargets(raw.maps);
    } else {
      var k :| k in out.members && out.members[k].target == n;
      t := raw.members[k].target;
      assert t in MemberTargets(raw.members);
    }
  }

  // ----- the whole run -----

  ghost function ReachSet(model: Model, root: string): iset<string> {
    iset v | Reachable(model, root, v)
  }

  /** `kept` are the reachable shapes outside the prelude. */
  ghost predicate IsClosure(config: Config, root: string, kept: set<string>) {
    forall v :: v in kept <==> Reachable(config.model, root, v) && !Prelude(v)
  }

  /** Each kept shape is emitted under its relative name, and nothing else is. */
  ghost predicate EmittedExactly(config: Config, result: map<string, SnapshotShape>, kept: set<string>) {
    && result.Keys == (set v | v in kept :: config.Relative(v))
    && (forall k :: k in result ==>
      exists v :: v in kept && config.Relative(v) == k && result[k] == Snapshot(config, v))
  }

  /** Entry `k` is a kept shape of that name, as it is. */
  ghost predicate EntryMirrors(config: Config, out: SnapshotShape, kept: set<string>, k: string) {
    exists v :: v in kept && v in config.model && Names(config, v, k) && Mirrors(config, config.model[v], out)
  }

  /** No other kept shape has the name of `v`. */
  ghost predicate OwnsName(config: Config, kept: set<string>, v: string) {
    forall w, n :: w in kept && Names(config, v, n) && Names(config, w, n) ==> w == v
  }

  /** Shape `v` stands under its name, as it is. */
  ghost predicate StandsAs(config: Config, result: map<string, SnapshotShape>, v: string) {
    v in config.model
    && forall k :: Names(config, v, k) ==> k in result && Mirrors(config, config.model[v], result[k])
  }

  /** The result is the kept shapes, each mirrored under its name. */
  ghost predicate ResultMirrors(config: Config, result: map<string, SnapshotShape>, kept: set<string>) {
    && (forall k {:trigger EntryMirrors(config, result[k], kept, k)} :: k in result ==>
      EntryMirrors(config, result[k], kept, k))
    && (forall v, k :: v in kept && Names(config, v, k) ==> k in result)
    && (forall v {:trigger OwnsName(config, kept, v)} :: v in kept && OwnsName(config, kept, v) ==>
      StandsAs(config, result, v))
  }

  /** Nothing dangles: what an emitted shape refers to is emitted or in the prelude. */
  ghost predicate NoneDangle(result: map<string, SnapshotShape>) {
    forall k, n :: k in result && Mentions(result[k], n) ==> n in result || Prelude(n)
  }

  /** Every kept shape is defined and its traits re-encode. */
  ghost predicate AllGood(config: Config, kept: set<string>) {
    forall v :: v in kept ==> v in config.model && config.ShapeTraitsOk(config.model[v])
  }

  lemma EmittedIsMirrored(config: Config, result: map<string, SnapshotShape>, kept: set<string>)
    requires EmittedExactly(config, result, kept) && AllGood(config, kept)
    ensures ResultMirrors(config, result, kept)
  {
    forall k | k in result ensures EntryMirrors(config, result[k], kept, k) {
      var v := MirroredBy(config, result, kept, k);
    }
    forall v, k | v in kept && Names(config, v, k) ensures k in result {
      NamesIsRelative(config, v, k);
    }
    forall v | v in kept && OwnsName(config, kept, v) ensures StandsAs(config, result, v) {
      forall k | Names(config, v, k) ensures k in result && Mirrors(config, config.model[v], result[k]) {
        NamesIsRelative(config, v, k);
        var w := MirroredBy(config, result, kept, k);
      }
    }
  }

  lemma MirroredBy(config: Config, result: map<string, SnapshotShape>, kept: set<string>, k: string) returns (v: string)
    requires EmittedExactly(config, result, kept) && AllGood(config, kept) && k in result
    ensures v in kept && v in config.model && Names(config, v, k) && Mirrors(config, config.model[v], result[k])
  {
    v :| v in kept && config.Relative(v) == k && result[k] == Snapshot(config, v);
    NamesIsRelative(config, v, k);
    EmittedMirrors(config, config.model[v]);
  }

  /** A prelude shape is written in full in the snapshot of a service that is not. */
  lemma PreludeInFull(config: Config, t: string, n: string)
    requires !Prelude(config.namespace + "#") && Prelude(t) && Names(config, t, n)
    ensures n == t
  {
    if t == config.namespace + "#" + n { PreludeNamespace(config.namespace, n); }
  }

  lemma PreludeNamespace(namespace: string, n: string)
    requires Prelude(namespace + "#" + n)
    ensures Prelude(namespace + "#")
  {
    var prefix, api, t := namespace + "#", "smithy.api#", namespace + "#" + n;
    assert t[|prefix| - 1] == '#' && t[..|api|] == api;
    assert forall i :: 0 <= i < |api| && t[i] == '#' ==> i == |api| - 1;
    assert prefix == t[..|prefix|];
    assert prefix[..|api|] == api;
  }

  lemma ClosedDangles(config: Config, root: string, result: map<string, SnapshotShape>, kept: set<string>)
    requires ResultMirrors(config, result, kept) && IsClosure(config, root, kept)
    requires HasPrefix(root, config.namespace + "#")
    requires forall v, t :: v in kept && v in config.model && t in Targets(config.model[v]) ==>
      Prelude(t) || config.Relative(t) in result
    ensures NoneDangle(result)
  {
    forall k, n | k in result && Mentions(result[k], n) ensures n in result || Prelude(n) {
      assert EntryMirrors(config, result[k], kept, k);
      var v :| v in kept && v in config.model && Names(config, v, k) && Mirrors(config, config.model[v], result[k]);
      var t := MentionedIsTarget(config, config.model[v], result[k], n);
      NamesIsRelative(config, t, n);
      if Prelude(t) && !Prelude(config.namespace + "#") { PreludeInFull(config, t, n); }
      if Prelude(config.namespace + "#") { NothingKept(config, root, kept); }
    }
  }

  /** A service shape in the prelude reaches nothing outside it. */
  lemma NothingKept(config: Config, root: string, kept: set<string>)
    requires IsClosure(config, root, kept) && Prelude(root)
    ensures kept == {}
  {
    forall v ensures v !in kept {
      if v in kept {
        assert Closed(config.model, {});
        ClosedHoldsReachable(config.model, {}, root, v);
      }
    }
  }

  /** `pruneService`. It fails exactly when the walk can reach a shape that is
      undefined or holds a kept trait that does not re-encode. */
  method PruneService(config: Config, root: string)
    returns (result: Option<map<string, SnapshotShape>>, ghost kept: set<string>)
    ensures result.Some? <==> forall v :: Reachable(config.model, root, v) ==> !config.Bad(v)
    ensures result.Some? ==> IsClosure(config, root, kept) && EmittedExactly(config, result.value, kept)
    ensures result.Some? ==> ResultMirrors(config, result.value, kept)
    ensures result.Some? && HasPrefix(root, config.namespace + "#") ==> NoneDangle(result.value)
    ensures result.Some? ==> forall v, t :: v in kept && v in config.model && t in Targets(config.model[v]) ==>
      Prelude(t) || config.Relative(t) in result.value
  {
    ghost var reach := ReachSet(config.model, root);
    ReachIsClosed(config.model, root);
    ReachSelf(config.model, root);
    var pruner := new Pruner(config, reach);
    var err := pruner.Visit(root);
    kept := pruner.visited;
    if err.Some? {
      return None, kept;
    }
    result := Some(pruner.shapes);
    assert kept == pruner.emitted == Listed(pruner.log);
    WalkIsClosure(config, root, kept);
    ReplayEmits(config, pruner.log, kept);
    assert forall t :: Covered(kept, t) ==> Prelude(t) || config.Relative(t) in result.value;
    EmittedIsMirrored(config, result.value, kept);
    if HasPrefix(root, config.namespace + "#") { ClosedDangles(config, root, result.value, kept); }
  }

  lemma WalkIsClosure(config: Config, root: string, kept: set<string>)
    requires Sound(config, ReachSet(config.model, root), kept, kept) && Covered(kept, root)
    ensures IsClosure(config, root, kept)
    ensures forall v :: Reachable(config.model, root, v) ==> !config.Bad(v)
    ensures forall v, t :: v in kept && v in config.model && t in Targets(config.model[v]) ==> Covered(kept, t)
  {
    forall v | v in kept ensures Finished(config, kept, v) && Found(config, ReachSet(config.model, root), v) {
    }
    assert Closed(config.model, kept);
    forall v | Reachable(config.model, root, v) ensures Covered(kept, v) {
      ClosedHoldsReachable(config.model, kept, root, v);
    }
  }

  lemma ReplayEmits(config: Config, log: seq<string>, kept: set<string>)
    requires kept == Listed(log)
    ensures EmittedExactly(config, Replay(config, log), kept)
    ensures forall t :: t in kept ==> config.Relative(t) in Replay(config, log)
  {
    var result := Replay(config, log);
    ReplayExact(config, log);
    assert (set v | v in log :: config.Relative(v)) == (set v | v in kept :: config.Relative(v));
    forall k | k in result
      ensures exists v :: v in kept && config.Relative(v) == k && result[k] == Snapshot(config, v)
    {
      assert FromLog(config, log, result, k);
      var v :| v in log && config.Relative(v) == k && result[k] == Snapshot(config, v);
      assert v in kept;
    }
  }

  lemma ReachIsClosed(model: Model, root: string)
    ensures Successors(model, ReachSet(model, root))
  {
    forall u, v | Reachable(model, root, u) && Refers(model, u, v) ensures Reachable(model, root, v) {
      ReachStep(model, root, u, v);
    }
  }

  /** Entry `k` of a replayed map is the snapshot of a logged shape of that name. */
  ghost predicate FromLog(config: Config, log: seq<string>, m: map<string, SnapshotShape>, k: string)
    requires k in m
  {
    exists v :: v in log && config.Relative(v) == k && m[k] == Snapshot(config, v)
  }

  lemma {:induction false} ReplayExact(config: Config, log: seq<string>)
    ensures var m := Replay(config, log);
      && m.Keys == (set v | v in log :: config.Relative(v))
      && forall k {:trigger FromLog(config, log, m, k)} :: k in m ==> FromLog(config, log, m, k)
  {
    if log != [] {
      var init, last := log[..|log| - 1], log[|log| - 1];
      ReplayExact(config, init);
      assert log == init + [last];
      var before, m := Replay(config, init), Replay(config, log);
      assert (set v | v in log :: config.Relative(v)) ==
             (set v | v in init :: config.Relative(v)) + {config.Relative(last)};
      forall k | k in m ensures FromLog(config, log, m, k) {
        if k == config.Relative(last) {
          assert last in log;
        } else {
          assert FromLog(config, init, before, k);
          var v :| v in init && config.Relative(v) == k && before[k] == Snapshot(config, v);
          assert v in log;
        }
      }
    }
  }

  // ----- names -----

  /** Two shapes get one name exactly when one is the other's bare name. */
  lemma RelativeCollision(config: Config, a: string, b: string)
    requires a != b
    ensures config.Relative(a) == config.Relative(b) <==>
      var prefix := config.namespace + "#";
      (a == prefix + b && !HasPrefix(b, prefix)) || (b == prefix + a && !HasPrefix(a, prefix))
  {
    var prefix := config.namespace + "#";
    if HasPrefix(a, prefix) { assert a == prefix + a[|prefix|..]; }
    if HasPrefix(b, prefix) { assert b == prefix + b[|prefix|..]; }
    if a == prefix + b { assert a[|prefix|..] == b && HasPrefix(a, prefix); }
    if b == prefix + a { assert b[|prefix|..] == a && HasPrefix(b, prefix); }
  }

  /** A shape ID names a namespace and a shape: it has a `#`, and one only. */
  ghost predicate WellFormedId(id: string) {
    exists i :: 0 <= i < |id| && id[i] == '#' && '#' !in id[..i] && '#' !in id[i + 1..]
  }

  /** Well-formed shape IDs never share a name. */
  lemma WellFormedNamesDiffer(config: Config, a: string, b: string)
    requires WellFormedId(a) && WellFormedId(b) && a != b
    ensures config.Relative(a) != config.Relative(b)
  {
    RelativeCollision(config, a, b);
    var prefix := config.namespace + "#";
    if a == prefix + b { TwoHashes(config.namespace, b, a); }
    if b == prefix + a { TwoHashes(config.namespace, a, b); }
  }

  lemma TwoHashes(namespace: string, id: string, longer: string)
    requires WellFormedId(id) && longer == namespace + "#" + id
    ensures !WellFormedId(longer)
  {
    var j :| 0 <= j < |id| && id[j] == '#';
    var n := |namespace|;
    assert longer[n] == '#' && longer[n + 1 + j] == '#';
    forall i | 0 <= i < |longer| && longer[i] == '#' ensures '#' in longer[..i] || '#' in longer[i + 1..] {
      if i <= n {
        assert longer[i + 1..][n + j - i] == '#';
      } else {
        assert longer[..i][n] == '#';
      }
    }
  }

  /** So with well-formed IDs every kept shape stands under its name as it is. */
  lemma WellFormedStand(config: Config, result: map<string, SnapshotShape>, kept: set<string>, v: string)
    requires ResultMirrors(config, result, kept) && v in kept && forall w :: w in kept ==> WellFormedId(w)
    ensures StandsAs(config, result, v)
  {
    forall w, n | w in kept && Names(config, v, n) && Names(config, w, n) ensures w == v {
      NamesIsRelative(config, v, n);
      NamesIsRelative(config, w, n);
      if w != v { WellFormedNamesDiffer(config, v, w); }
    }
    assert OwnsName(config, kept, v);
  }

  /** The result does not depend on any iteration order: with well-formed IDs,
      two runs that both succeed leave the same map. */
  lemma PruneIsDeterministic(config: Config, root: string, r1: map<string, SnapshotShape>, k1: set<string>,
                             r2: map<string, SnapshotShape>, k2: set<string>)
    requires IsClosure(config, root, k1) && IsClosure(config, root, k2)
    requires EmittedExactly(config, r1, k1) && EmittedExactly(config, r2, k2)
    requires forall v :: v in k1 ==> WellFormedId(v)
    ensures r1 == r2
  {
    SameClosure(config, root, k1, k2);
    EmissionFixed(config, r1, r2, k1);
  }

  lemma SameClosure(config: Config, root: string, k1: set<string>, k2: set<string>)
    requires IsClosure(config, root, k1) && IsClosure(config, root, k2)
    ensures k1 == k2
  {
  }

  lemma EmissionFixed(config: Config, r1: map<string, SnapshotShape>, r2: map<string, SnapshotShape>, kept: set<string>)
    requires EmittedExactly(config, r1, kept) && EmittedExactly(config, r2, kept)
    requires forall v :: v in kept ==> WellFormedId(v)
    ensures r1 == r2
  {
    assert r1.Keys == r2.Keys;
    forall k | k in r1.Keys ensures r1[k] == r2[k] {
      var v :| v in kept && config.Relative(v) == k && r1[k] == Snapshot(config, v);
      ValueFixed(config, r2, kept, v, k);
    }
  }

  lemma ValueFixed(config: Config, result: map<string, SnapshotShape>, kept: set<string>, v: string, k: string)
    requires k in result && v in kept && config.Relative(v) == k
    requires exists w :: w in kept && config.Relative(w) == k && result[k] == Snapshot(config, w)
    requires forall v :: v in kept ==> WellFormedId(v)
    ensures result[k] == Snapshot(config, v)
  {
    var w :| w in kept && config.Relative(w) == k && result[k] == Snapshot(config, w);
    if v != w { WellFormedNamesDiffer(config, v, w); }
  }

  /** Only allowlisted traits are left on a shape and its members. */
  lemma OnlyAllowedTraits(config: Config, id: string)
    requires id in config.model && config.ShapeTraitsOk(config.model[id])
    ensures var shape := Snapshot(config, id);
      && shape.traits.Keys <= config.allow
      && (forall k :: 0 <= k < |shape.carrierTraits| ==> shape.carrierTraits[k].Keys <= config.allow)
      && (forall n :: n in shape.members ==> shape.members[n].traits.Keys <= config.allow)
  {
    var raw := config.model[id];
    assert Snapshot(config, id) == config.EmitShape(raw);
    forall k | 0 <= k < |raw.carriers| ensures config.EmitCarrierTraits(raw.carriers[k]).Keys <= config.allow {
      if raw.carriers[k].Some? {
        assert raw.carriers[k] in raw.carriers;
      }
    }
  }

  // ----- sets -----

  lemma SubsetSmaller<T>(a: set<T>, b: set<T>, x: T)
    requires a <= b && x in b && x !in a
    ensures |a| < |b|
  {
    SubsetNoLarger(a, b - {x});
  }

  lemma {:induction false} SubsetNoLarger<T>(a: set<T>, b: set<T>)
    requires a <= b
    ensures |a| <= |b|
  {
    assert b == a + (b - a);
  }
}
