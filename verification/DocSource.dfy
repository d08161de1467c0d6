/** The dependency graph's input, read from the joined policy; the map compiled
    from it has an entry for every component that the rules may visit. */
module DocSource {
  import opened Wrappers
  import opened Xml
  import opened DocRules
  import opened DocTransfer
  import opened DocPlaces
  import opened DocOrder
  import DepGraph

  function Get(n: Node, attr: string): string {
    if attr in n.attrs then n.attrs[attr] else ""
  }

  /** All children with the tag. */
  function FindAll(kids: seq<Node>, tag: string): (found: seq<Node>)
    ensures forall n :: n in found <==> n in kids && n.tag == tag
  {
    if kids == [] then []
    else (if kids[0].tag == tag then [kids[0]] else []) + FindAll(kids[1..], tag)
  }

  /** The children with the tag, of all nodes. */
  function Grandchildren(nodes: seq<Node>, tag: string): (found: seq<Node>)
    ensures forall n :: n in found <==> exists m :: m in nodes && n in m.kids && n.tag == tag
  {
    if nodes == [] then [] else FindAll(nodes[0].kids, tag) + Grandchildren(nodes[1..], tag)
  }

  function Refs(nodes: seq<Node>): seq<string> {
    if nodes == [] then [] else [Get(nodes[0], "ref")] + Refs(nodes[1..])
  }

  function UnitOf(n: Node): DepGraph.Unit {
    var depends := FindAll(n.kids, "depends");
    DepGraph.Unit(Get(n, "name"),
                  if depends == [] then None
                  else Some(Refs(FindAll(depends[0].kids, "library"))))
  }

  function UnitsOf(nodes: seq<Node>): (units: seq<DepGraph.Unit>)
    ensures forall n :: n in nodes ==> UnitOf(n) in units
    ensures forall u :: u in units ==> exists n :: n in nodes && u == UnitOf(n)
  {
    if nodes == [] then [] else [UnitOf(nodes[0])] + UnitsOf(nodes[1..])
  }

  function InstancesOf(nodes: seq<Node>): seq<DepGraph.Instance> {
    if nodes == [] then []
    else
      var component := FindAll(nodes[0].kids, "component");
      [DepGraph.Instance(Get(nodes[0], "name"),
                         if component == [] then None else Some(Get(component[0], "ref")))]
      + InstancesOf(nodes[1..])
  }

  function PolicyOf(source: Node): DepGraph.Policy {
    var components := FindAll(source.kids, "components");
    DepGraph.Policy(UnitsOf(Grandchildren(components, "library")),
                    UnitsOf(Grandchildren(components, "component")),
                    InstancesOf(Grandchildren(FindAll(source.kids, "subjects"), "subject")))
  }

  /** The compiled map leaves no component out, so that no traversal with it
      stops. */
  lemma CompiledMapSuffices(source: Node, m: map<string, set<string>>, c2s: Subjects)
    requires forall n :: n in m <==> DepGraph.IsNamed(PolicyOf(source), n)
    requires c2s.Keys == m.Keys
    ensures RunRules(source.kids, SystemMap(), map[], c2s).Ok?
  {
    hide SystemMap;
    forall n | n in source.kids && n.tag == "components" ensures Covers(c2s, n) {
      forall c | c in n.kids && c.tag in {"component", "library"} && "name" in c.attrs
        ensures c.attrs["name"] in c2s
      {
        ComponentIsNamed(source, n, c);
      }
    }
    RulesNeverFail(source.kids, c2s);
  }

  lemma ComponentIsNamed(source: Node, components: Node, c: Node)
    requires components in source.kids && components.tag == "components" && c in components.kids
    requires c.tag in {"component", "library"} && "name" in c.attrs
    ensures DepGraph.IsNamed(PolicyOf(source), c.attrs["name"])
  {
    ComponentIsListed(source, components, c);
    NamedByUnit(PolicyOf(source), UnitOf(c), c.tag == "library");
    assert UnitOf(c).name == c.attrs["name"];
    hide *;
  }

  lemma NamedByUnit(p: DepGraph.Policy, u: DepGraph.Unit, library: bool)
    requires u in if library then p.libraries else p.components
    ensures DepGraph.IsNamed(p, u.name)
  {
  }

  lemma ComponentIsListed(source: Node, components: Node, c: Node)
    requires components in source.kids && components.tag == "components" && c in components.kids
    requires c.tag in {"component", "library"}
    ensures var p := PolicyOf(source);
      UnitOf(c) in if c.tag == "library" then p.libraries else p.components
  {
    hide UnitOf, FindAll, InstancesOf, Grandchildren, UnitsOf;
    assert components in FindAll(source.kids, "components");
    assert c in Grandchildren(FindAll(source.kids, "components"), c.tag);
  }

  /** The sets of a map, visited in some order. */
  ghost predicate Visits(c2s: Subjects, m: map<string, set<string>>) {
    c2s.Keys == m.Keys && forall n :: n in m ==> multiset(c2s[n]) == multiset(m[n])
  }

  /** However the sets of the compiled map are visited, the transfer has the same
      result, and never stops. */
  lemma AnyVisitTransfersAlike(
      source: Node, target: Node, m: map<string, set<string>>, a: Subjects, b: Subjects)
    requires forall n :: n in m <==> DepGraph.IsNamed(PolicyOf(source), n)
    requires Visits(a, m) && Visits(b, m)
    ensures Transferred(source, target, a).Done?
    ensures Transferred(source, target, a) == Transferred(source, target, b)
    ensures AllClean(source, a) <==> AllClean(source, b)
  {
    CompiledMapSuffices(source, m, a);
    assert SameEntries(a, b);
    hide RunRules, SystemMap, Below, AllClean;
    TransferOrderDoesNotShow(source, target, a, b);
  }
}
