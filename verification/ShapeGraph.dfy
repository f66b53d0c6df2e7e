/** Raw Smithy shapes, the references they hold, and reachability between them
    (the input of pruneService in cmd/awsmodelgen/shapes.go). */
module ShapeGraph {
  import opened Order
  import opened Wrappers

  /** A trait value is raw JSON text. */
  type Traits = map<string, string>

  datatype Member = Member(target: string, traits: Traits)

  /** A shape as parsed. Roles of one kind sit at fixed positions: `links` are
      input, output, create, put, read, update, delete and list; `carriers` are
      member, key and value; `lists` are errors, operations, collection
      operations and resources; `maps` are identifiers and properties. */
  datatype RawShape = RawShape(
    kind: string, version: string,
    links: seq<Option<string>>, carriers: seq<Option<Member>>, lists: seq<seq<string>>,
    maps: seq<map<string, string>>, members: map<string, Member>, traits: Traits)

  type Model = map<string, RawShape>

  predicate HasPrefix(s: string, prefix: string) { prefix <= s }

  /** Shapes of the Smithy prelude are targets, never definitions. */
  predicate Prelude(id: string) { HasPrefix(id, "smithy.api#") }

  ghost function LinkTargets(links: seq<Option<string>>): set<string> {
    set l | l in links && l.Some? :: l.value
  }

  ghost function CarrierTargets(carriers: seq<Option<Member>>): set<string> {
    set c | c in carriers && c.Some? :: c.value.target
  }

  ghost function ListTargets(lists: seq<seq<string>>): set<string> {
    set list, t | list in lists && t in list :: t
  }

  ghost function MapTargets(maps: seq<map<string, string>>): set<string> {
    set m, t | m in maps && t in m.Values :: t
  }

  ghost function MemberTargets(members: map<string, Member>): set<string> {
    set name | name in members :: members[name].target
  }

  /** Every shape a raw shape refers to. */
  ghost function Targets(raw: RawShape): set<string> {
    LinkTargets(raw.links) + CarrierTargets(raw.carriers) + ListTargets(raw.lists)
    + MapTargets(raw.maps) + MemberTargets(raw.members)
  }

  ghost predicate Refers(model: Model, u: string, v: string) {
    u in model && !Prelude(u) && v in Targets(model[u])
  }

  /** `p` lists the shapes passed on the way from `a` to `b`, `a` first when it is not `b`. */
  ghost predicate IsRefPath(model: Model, p: seq<string>, a: string, b: string) {
    if p == [] then a == b
    else
      var last := p[|p| - 1];
      IsRefPath(model, p[..|p| - 1], a, last) && Refers(model, last, b)
  }

  ghost predicate Reachable(model: Model, a: string, b: string) {
    exists p :: IsRefPath(model, p, a, b)
  }

  lemma ReachSelf(model: Model, a: string)
    ensures Reachable(model, a, a)
  {
    assert IsRefPath(model, [], a, a);
  }

  lemma ReachStep(model: Model, a: string, b: string, c: string)
    requires Reachable(model, a, b) && Refers(model, b, c)
    ensures Reachable(model, a, c)
  {
    var p :| IsRefPath(model, p, a, b);
    assert (p + [b])[..|p|] == p;
    assert IsRefPath(model, p + [b], a, c);
  }

  /** Following references out of `s` leads back into `s` or to the prelude. */
  ghost predicate Closed(model: Model, s: set<string>) {
    forall v :: v in s ==>
      v in model && !Prelude(v) && forall t :: t in Targets(model[v]) ==> Prelude(t) || t in s
  }

  lemma {:induction false} ClosedHoldsPath(model: Model, s: set<string>, p: seq<string>, a: string, b: string)
    requires Closed(model, s) && IsRefPath(model, p, a, b)
    requires Prelude(a) || a in s
    ensures Prelude(b) || b in s
    decreases |p|
  {
    if p != [] {
      ClosedHoldsPath(model, s, p[..|p| - 1], a, p[|p| - 1]);
    }
  }

  /** A closed set that holds the start holds everything reachable from it. */
  lemma ClosedHoldsReachable(model: Model, s: set<string>, a: string, b: string)
    requires Closed(model, s) && Reachable(model, a, b)
    requires Prelude(a) || a in s
    ensures Prelude(b) || b in s
  {
    var p :| IsRefPath(model, p, a, b);
    ClosedHoldsPath(model, s, p, a, b);
  }
}
