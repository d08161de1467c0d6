/** Which subjects use a component or library: the dependency graph of the
    policy and the closure computed over it. */
module DepGraph {
  import opened Wrappers

  datatype Kind = Library | Component | Subject

  datatype Vertex = Vertex(name: string, kind: Kind)

  /** A path of one or more edges from a to b; all vertices after the first are
      nodes of the graph. */
  ghost predicate IsPath(nodes: set<Vertex>, edges: set<(Vertex, Vertex)>, path: seq<Vertex>) {
    && |path| >= 2
    && forall i :: 0 <= i < |path| - 1 ==> Follows(nodes, edges, path, i)
  }

  ghost predicate Follows(nodes: set<Vertex>, edges: set<(Vertex, Vertex)>, path: seq<Vertex>, i: nat)
    requires i + 1 < |path|
  {
    path[i + 1] in nodes && (path[i], path[i + 1]) in edges
  }

  ghost predicate Reaches(nodes: set<Vertex>, edges: set<(Vertex, Vertex)>, a: Vertex, b: Vertex) {
    exists path :: IsPath(nodes, edges, path) && path[0] == a && path[|path| - 1] == b
  }

  lemma ReachesByEdge(nodes: set<Vertex>, edges: set<(Vertex, Vertex)>, a: Vertex, b: Vertex)
    requires b in nodes && (a, b) in edges
    ensures Reaches(nodes, edges, a, b)
  {
    var path := [a, b];
    assert Follows(nodes, edges, path, 0);
    assert IsPath(nodes, edges, path);
  }

  lemma ReachesByStep(nodes: set<Vertex>, edges: set<(Vertex, Vertex)>, a: Vertex, b: Vertex, c: Vertex)
    requires Reaches(nodes, edges, a, b) && c in nodes && (b, c) in edges
    ensures Reaches(nodes, edges, a, c)
  {
    var path :| IsPath(nodes, edges, path) && path[0] == a && path[|path| - 1] == b;
    var longer := path + [c];
    forall i | 0 <= i < |longer| - 1 ensures Follows(nodes, edges, longer, i) {
      if i < |path| - 1 {
        assert Follows(nodes, edges, path, i);
      }
    }
    assert IsPath(nodes, edges, longer);
  }

  /** A set that holds all peers of a and of its own members holds everything
      that a reaches. */
  lemma {:induction false} ClosedHoldsAll(
      nodes: set<Vertex>, edges: set<(Vertex, Vertex)>, path: seq<Vertex>, closed: set<Vertex>)
    requires IsPath(nodes, edges, path)
    requires forall x :: x in nodes && (path[0], x) in edges ==> x in closed
    requires forall y, x :: y in closed && x in nodes && (y, x) in edges ==> x in closed
    ensures path[|path| - 1] in closed
  {
    assert Follows(nodes, edges, path, 0);
    if |path| > 2 {
      var rest := path[1..];
      forall i | 0 <= i < |rest| - 1 ensures Follows(nodes, edges, rest, i) {
        assert Follows(nodes, edges, path, i + 1);
      }
      ClosedHoldsAll(nodes, edges, rest, closed);
    }
  }

  class Graph {
    var nodes: set<Vertex>
    var edges: set<(Vertex, Vertex)>

    constructor ()
      ensures nodes == {} && edges == {}
    {
      nodes, edges := {}, {};
    }

    function GetPeers(node: Vertex): set<Vertex>
      reads this
    {
      set x | x in nodes && (node, x) in edges
    }

    /** The frontier's peers are added until they add nothing any more. */
    method GetReachableNodes(node: Vertex) returns (reachable: set<Vertex>)
      ensures forall x :: x in reachable <==> Reaches(nodes, edges, node, x)
    {
      reachable := GetPeers(node);
      var newest := reachable;
      forall x | x in reachable ensures Reaches(nodes, edges, node, x) {
        ReachesByEdge(nodes, edges, node, x);
      }
      while newest != {}
        invariant GetPeers(node) <= reachable <= nodes && newest <= reachable
        invariant forall x :: x in reachable ==> Reaches(nodes, edges, node, x)
        invariant forall y :: y in reachable - newest ==> GetPeers(y) <= reachable
        decreases |nodes| - |reachable|
      {
        var working := PeersOfAll(newest);
        if working <= reachable {
          break;
        }
        Grows(nodes, reachable, working);
        forall x | x in working ensures Reaches(nodes, edges, node, x) {
          var y :| y in newest && x in GetPeers(y);
          ReachesByStep(nodes, edges, node, y, x);
        }
        reachable, newest := reachable + working, working;
      }
      forall x | Reaches(nodes, edges, node, x) ensures x in reachable {
        var path :| IsPath(nodes, edges, path) && path[0] == node && path[|path| - 1] == x;
        forall y, z | y in reachable && z in nodes && (y, z) in edges ensures z in reachable {
          assert z in GetPeers(y);
        }
        assert forall z :: z in nodes && (node, z) in edges ==> z in GetPeers(node);
        ClosedHoldsAll(nodes, edges, path, reachable);
      }
    }

    /** The union of the peers, in whatever order the set is visited. */
    method PeersOfAll(from: set<Vertex>) returns (working: set<Vertex>)
      ensures forall x :: x in working <==> exists y :: y in from && x in GetPeers(y)
    {
      working := {};
      var todo := from;
      while todo != {}
        invariant todo <= from
        invariant forall x :: x in working <==> exists y :: y in from - todo && x in GetPeers(y)
        decreases |todo|
      {
        var x :| x in todo;
        working := working + GetPeers(x);
        todo := todo - {x};
      }
    }
  }

  lemma Grows(nodes: set<Vertex>, reachable: set<Vertex>, working: set<Vertex>)
    requires reachable <= nodes && working <= nodes && !(working <= reachable)
    ensures |reachable| < |reachable + working| <= |nodes|
  {
    var x :| x in working && x !in reachable;
    SubsetSize(reachable + {x}, reachable + working);
    SubsetSize(reachable + working, nodes);
  }

  lemma {:induction false} SubsetSize(a: set<Vertex>, b: set<Vertex>)
    requires a <= b
    ensures |a| <= |b|
  {
    if a != {} {
      var x :| x in a;
      SubsetSize(a - {x}, b - {x});
    }
  }

  // ----- the policy -----

  /** A library or component with the libraries it depends on, if it has a
      depends element; a subject with the component it instantiates. */
  datatype Unit = Unit(name: string, depends: Option<seq<string>>)
  datatype Instance = Instance(name: string, component: Option<string>)
  datatype Policy = Policy(libraries: seq<Unit>, components: seq<Unit>, subjects: seq<Instance>)

  ghost predicate IsVertex(p: Policy, v: Vertex) {
    match v.kind
    case Library => exists u :: u in p.libraries && u.name == v.name
    case Component => exists u :: u in p.components && u.name == v.name
    case Subject => exists s :: s in p.subjects && s.name == v.name
  }

  ghost predicate DependsOn(u: Unit, name: string, library: string) {
    u.name == name && u.depends.Some? && library in u.depends.value
  }

  ghost predicate IsEdge(p: Policy, a: Vertex, b: Vertex) {
    match a.kind
    case Library => b.kind.Library? && exists u :: u in p.libraries && DependsOn(u, a.name, b.name)
    case Component => b.kind.Library? && exists u :: u in p.components && DependsOn(u, a.name, b.name)
    case Subject => b.kind.Component? && b.name != "" && exists s :: s in p.subjects && Instantiates(s, a.name, b.name)
  }

  ghost predicate Instantiates(s: Instance, name: string, component: string) {
    s.name == name && s.component == Some(component)
  }

  /** The subject instantiates the component of that name, or depends on the
      library of that name, directly or through other libraries. */
  ghost predicate Uses(p: Policy, subject: string, name: string) {
    exists path, kind :: UsesBy(p, path, subject, name, kind)
  }

  ghost predicate UsesBy(p: Policy, path: seq<Vertex>, subject: string, name: string, kind: Kind) {
    && |path| >= 2 && path[0] == Vertex(subject, Subject) && path[|path| - 1] == Vertex(name, kind)
    && IsVertex(p, path[0])
    && forall i :: 0 <= i < |path| - 1 ==> Step(p, path, i)
  }

  ghost predicate Step(p: Policy, path: seq<Vertex>, i: nat)
    requires i + 1 < |path|
  {
    IsVertex(p, path[i + 1]) && IsEdge(p, path[i], path[i + 1])
  }

  ghost predicate Describes(nodes: set<Vertex>, edges: set<(Vertex, Vertex)>, p: Policy) {
    && (forall v :: v in nodes <==> IsVertex(p, v))
    && (forall a, b :: (a, b) in edges <==> IsEdge(p, a, b))
  }

  /** The names that have an entry in the map. */
  ghost predicate IsNamed(p: Policy, name: string) {
    IsVertex(p, Vertex(name, Library)) || IsVertex(p, Vertex(name, Component))
  }

  lemma UsesIsReach(nodes: set<Vertex>, edges: set<(Vertex, Vertex)>, p: Policy, subject: string, v: Vertex)
    requires Describes(nodes, edges, p)
    ensures IsVertex(p, Vertex(subject, Subject)) && Reaches(nodes, edges, Vertex(subject, Subject), v)
      <==> exists path :: UsesBy(p, path, subject, v.name, v.kind)
  {
    if IsVertex(p, Vertex(subject, Subject)) && Reaches(nodes, edges, Vertex(subject, Subject), v) {
      var path :| IsPath(nodes, edges, path)
        && path[0] == Vertex(subject, Subject) && path[|path| - 1] == v;
      forall i | 0 <= i < |path| - 1 ensures Step(p, path, i) {
        assert Follows(nodes, edges, path, i);
      }
      assert UsesBy(p, path, subject, v.name, v.kind);
    }
    if path: seq<Vertex> :| UsesBy(p, path, subject, v.name, v.kind) {
      forall i | 0 <= i < |path| - 1 ensures Follows(nodes, edges, path, i) {
        assert Step(p, path, i);
      }
      assert IsPath(nodes, edges, path);
    }
  }

  /** What a subject reaches is a component or a library. */
  lemma ReachedIsNamed(nodes: set<Vertex>, edges: set<(Vertex, Vertex)>, p: Policy, a: Vertex, v: Vertex)
    requires Describes(nodes, edges, p) && Reaches(nodes, edges, a, v)
    ensures !v.kind.Subject? && IsNamed(p, v.name) && v in nodes
  {
    var path :| IsPath(nodes, edges, path) && path[0] == a && path[|path| - 1] == v;
    assert Follows(nodes, edges, path, |path| - 2);
    assert IsEdge(p, path[|path| - 2], v);
  }

  method AddUnits(g: Graph, units: seq<Unit>, kind: Kind, m: map<string, set<string>>)
    returns (m': map<string, set<string>>)
    modifies g
    ensures forall v :: v in g.nodes <==> v in old(g.nodes) || UnitVertex(units, kind, v)
    ensures forall a, b :: (a, b) in g.edges <==> (a, b) in old(g.edges) || UnitEdge(units, kind, a, b)
    ensures forall n :: n in m' <==> n in m || exists u :: u in units && u.name == n
    ensures (forall n :: n in m ==> m[n] == {}) ==> forall n :: n in m' ==> m'[n] == {}
  {
    m' := m;
    for k := 0 to |units|
      invariant forall v :: v in g.nodes <==> v in old(g.nodes) || UnitVertex(units[..k], kind, v)
      invariant forall a, b :: (a, b) in g.edges <==>
        (a, b) in old(g.edges) || UnitEdge(units[..k], kind, a, b)
      invariant forall n :: n in m' <==> n in m || exists u :: u in units[..k] && u.name == n
      invariant (forall n :: n in m ==> m[n] == {}) ==> forall n :: n in m' ==> m'[n] == {}
    {
      var u := units[k];
      m' := m'[u.name := {}];
      g.nodes := g.nodes + {Vertex(u.name, kind)};
      ghost var before := g.edges;
      AddDependencies(g, u, kind);
      assert units[..k + 1] == units[..k] + [u];
      forall a, b ensures (a, b) in g.edges <==> (a, b) in old(g.edges) || UnitEdge(units[..k + 1], kind, a, b) {
        assert (a, b) in before <==> (a, b) in old(g.edges) || UnitEdge(units[..k], kind, a, b);
        UnitEdgeSnoc(units[..k], u, kind, a, b);
      }
    }
    assert units[..|units|] == units;
  }

  lemma UnitEdgeSnoc(units: seq<Unit>, u: Unit, kind: Kind, a: Vertex, b: Vertex)
    ensures UnitEdge(units + [u], kind, a, b) <==>
      UnitEdge(units, kind, a, b) || UnitEdge([u], kind, a, b)
  {
  }

  method AddDependencies(g: Graph, u: Unit, kind: Kind)
    modifies g`edges
    ensures forall a, b :: (a, b) in g.edges <==>
      (a, b) in old(g.edges) || (a.kind == kind && b.kind.Library? && DependsOn(u, a.name, b.name))
  {
    if u.depends.Some? {
      var refs := u.depends.value;
      for k := 0 to |refs|
        invariant forall a, b :: (a, b) in g.edges <==>
          (a, b) in old(g.edges) || (a == Vertex(u.name, kind) && b.kind.Library? && b.name in refs[..k])
      {
        g.edges := g.edges + {(Vertex(u.name, kind), Vertex(refs[k], Library))};
      }
    }
  }

  ghost predicate UnitVertex(units: seq<Unit>, kind: Kind, v: Vertex) {
    v.kind == kind && exists u :: u in units && u.name == v.name
  }

  ghost predicate UnitEdge(units: seq<Unit>, kind: Kind, a: Vertex, b: Vertex) {
    a.kind == kind && b.kind.Library? && exists u :: u in units && DependsOn(u, a.name, b.name)
  }

  method AddSubjects(g: Graph, subjects: seq<Instance>)
    modifies g
    ensures forall v :: v in g.nodes <==> v in old(g.nodes) || SubjectVertex(subjects, v)
    ensures forall a, b :: (a, b) in g.edges <==> (a, b) in old(g.edges) || SubjectEdge(subjects, a, b)
  {
    for k := 0 to |subjects|
      invariant forall v :: v in g.nodes <==> v in old(g.nodes) || SubjectVertex(subjects[..k], v)
      invariant forall a, b :: (a, b) in g.edges <==>
        (a, b) in old(g.edges) || SubjectEdge(subjects[..k], a, b)
    {
      var s := subjects[k];
      g.nodes := g.nodes + {Vertex(s.name, Subject)};
      if s.component.Some? && s.component.value != "" {
        g.edges := g.edges + {(Vertex(s.name, Subject), Vertex(s.component.value, Component))};
      }
      assert subjects[..k + 1] == subjects[..k] + [s];
      forall a, b
        ensures (a, b) in g.edges <==> (a, b) in old(g.edges) || SubjectEdge(subjects[..k + 1], a, b)
      {
        SubjectEdgeSnoc(subjects[..k], s, a, b);
        EdgeOfSubject(s, a, b);
      }
    }
    assert subjects[..|subjects|] == subjects;
  }

  lemma EdgeOfSubject(s: Instance, a: Vertex, b: Vertex)
    ensures SubjectEdge([s], a, b) <==>
      && s.component.Some? && s.component.value != ""
      && a == Vertex(s.name, Subject) && b == Vertex(s.component.value, Component)
  {
    assert s in [s];
  }

  lemma SubjectEdgeSnoc(subjects: seq<Instance>, s: Instance, a: Vertex, b: Vertex)
    ensures SubjectEdge(subjects + [s], a, b) <==>
      SubjectEdge(subjects, a, b) || SubjectEdge([s], a, b)
  {
  }

  ghost predicate SubjectVertex(subjects: seq<Instance>, v: Vertex) {
    v.kind.Subject? && exists s :: s in subjects && s.name == v.name
  }

  ghost predicate SubjectEdge(subjects: seq<Instance>, a: Vertex, b: Vertex) {
    && a.kind.Subject? && b.kind.Component? && b.name != ""
    && exists s :: s in subjects && Instantiates(s, a.name, b.name)
  }

  /** The entries so far: those of the subjects that have been resolved. */
  ghost predicate Resolved(
      m: map<string, set<string>>, p: Policy, nodes: set<Vertex>, edges: set<(Vertex, Vertex)>,
      done: set<Vertex>)
  {
    && (forall n :: n in m <==> IsNamed(p, n))
    && forall n, s :: n in m ==> (s in m[n] <==> ResolvedFor(nodes, edges, done, s, n))
  }

  ghost predicate ResolvedFor(
      nodes: set<Vertex>, edges: set<(Vertex, Vertex)>, done: set<Vertex>, s: string, n: string)
  {
    exists v :: Vertex(s, Subject) in done && Reaches(nodes, edges, Vertex(s, Subject), v) && v.name == n
  }

  /** The entry of a subject: the subject's name is added under every name that
      it reaches. */
  method AddReached(m: map<string, set<string>>, subject: string, reached: set<Vertex>)
    returns (m': map<string, set<string>>)
    requires forall v :: v in reached ==> v.name in m
    ensures m'.Keys == m.Keys
    ensures forall n, s :: n in m ==>
      (s in m'[n] <==> s in m[n] || (s == subject && exists v :: v in reached && v.name == n))
  {
    m' := m;
    var todo := reached;
    while todo != {}
      invariant todo <= reached && m'.Keys == m.Keys
      invariant forall n, s :: n in m ==>
        (s in m'[n] <==> s in m[n] || (s == subject && exists v :: v in reached - todo && v.name == n))
      decreases |todo|
    {
      var v :| v in todo;
      m' := m'[v.name := m'[v.name] + {subject}];
      todo := todo - {v};
    }
  }

  /** The map from component and library names to the subjects that use them. */
  method CompileComponentToSubjectsMap(p: Policy) returns (m: map<string, set<string>>)
    ensures forall n :: n in m <==> IsNamed(p, n)
    ensures forall n, s :: n in m ==> (s in m[n] <==> Uses(p, s, n))
  {
    var g := new Graph();
    m := AddUnits(g, p.libraries, Library, map[]);
    m := AddUnits(g, p.components, Component, m);
    AddSubjects(g, p.subjects);
    assert Describes(g.nodes, g.edges, p);
    m := ResolveAll(g, p, m);
    forall n, s | n in m ensures s in m[n] <==> Uses(p, s, n) {
      ResolvedIsUses(g.nodes, g.edges, p, s, n);
    }
  }

  lemma ResolvedIsUses(nodes: set<Vertex>, edges: set<(Vertex, Vertex)>, p: Policy, s: string, n: string)
    requires Describes(nodes, edges, p)
    ensures Uses(p, s, n) <==>
      ResolvedFor(nodes, edges, (set v | v in nodes && v.kind.Subject?), s, n)
  {
    forall v: Vertex
      ensures IsVertex(p, Vertex(s, Subject)) && Reaches(nodes, edges, Vertex(s, Subject), v)
        <==> exists path :: UsesBy(p, path, s, v.name, v.kind)
    {
      UsesIsReach(nodes, edges, p, s, v);
    }
    if Uses(p, s, n) {
      var path, kind :| UsesBy(p, path, s, n, kind);
      var v := Vertex(n, kind);
      assert Reaches(nodes, edges, Vertex(s, Subject), v);
    }
  }

  method ResolveAll(g: Graph, p: Policy, empty: map<string, set<string>>) returns (m: map<string, set<string>>)
    requires Describes(g.nodes, g.edges, p)
    requires forall n :: n in empty <==> IsNamed(p, n)
    requires forall n :: n in empty ==> empty[n] == {}
    ensures Resolved(m, p, g.nodes, g.edges, set v | v in g.nodes && v.kind.Subject?)
  {
    ResolvedNone(empty, p, g.nodes, g.edges);
    hide *;
    m := empty;
    var todo := set v | v in g.nodes && v.kind.Subject?;
    ghost var subjects, done := todo, {};
    while todo != {}
      invariant done + todo == subjects && forall v :: v in todo ==> v.kind.Subject?
      invariant Resolved(m, p, g.nodes, g.edges, done)
      decreases |todo|
    {
      var v :| v in todo;
      var reached := g.GetReachableNodes(v);
      ReachedHasEntry(m, p, g.nodes, g.edges, done, v, reached);
      ghost var before := m;
      m := AddReached(m, v.name, reached);
      ResolvedStep(before, m, p, g.nodes, g.edges, done, v, reached);
      todo, done := todo - {v}, done + {v};
    }
    assert done == subjects;
  }

  lemma ResolvedNone(m: map<string, set<string>>, p: Policy, nodes: set<Vertex>, edges: set<(Vertex, Vertex)>)
    requires forall n :: n in m <==> IsNamed(p, n)
    requires forall n :: n in m ==> m[n] == {}
    ensures Resolved(m, p, nodes, edges, {})
  {
  }

  lemma ReachedHasEntry(
      m: map<string, set<string>>, p: Policy, nodes: set<Vertex>, edges: set<(Vertex, Vertex)>,
      done: set<Vertex>, v: Vertex, reached: set<Vertex>)
    requires Resolved(m, p, nodes, edges, done) && Describes(nodes, edges, p)
    requires forall x :: x in reached <==> Reaches(nodes, edges, v, x)
    ensures forall x :: x in reached ==> x.name in m
  {
    forall x | x in reached ensures x.name in m {
      ReachedIsNamed(nodes, edges, p, v, x);
    }
  }

  lemma ResolvedStep(
      m: map<string, set<string>>, m': map<string, set<string>>, p: Policy,
      nodes: set<Vertex>, edges: set<(Vertex, Vertex)>, done: set<Vertex>, v: Vertex, reached: set<Vertex>)
    requires Resolved(m, p, nodes, edges, done) && v.kind.Subject? && m'.Keys == m.Keys
    requires forall x :: x in reached <==> Reaches(nodes, edges, v, x)
    requires forall n, s :: n in m ==>
      (s in m'[n] <==> s in m[n] || (s == v.name && exists x :: x in reached && x.name == n))
    ensures Resolved(m', p, nodes, edges, done + {v})
  {
    assert v == Vertex(v.name, Subject);
    forall n, s | n in m' ensures s in m'[n] <==> ResolvedFor(nodes, edges, done + {v}, s, n) {
      assert s in m[n] <==> ResolvedFor(nodes, edges, done, s, n);
    }
  }
}
