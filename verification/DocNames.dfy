/** The documentation transfer in terms of tags, attributes and values: with
    clean names every element of the target gets the documents that are addressed
    to elements of its name. */
module DocNames {
  import opened Wrappers
  import opened Xml
  import opened PathKeys
  import opened DocTrie
  import opened DocRules
  import opened DocTransfer
  import opened DocPlaces

  /** What an element is called: by its tag, or by its tag and the value of an
      attribute. */
  datatype Name = Tagged(tag: string) | Valued(tag: string, attr: string, value: string)

  function Spelling(name: Name): string {
    match name
    case Tagged(tag) => tag
    case Valued(tag, attr, value) => KeyFor(tag, attr, value)
  }

  predicate Legible(name: Name) {
    Plain(name.tag) && (name.Valued? ==> Plain(name.attr) && Clean(name.value))
  }

  predicate Bears(n: Node, name: Name) {
    n.tag == name.tag && (name.Valued? ==> HasValue(n, name.tag, name.attr, name.value))
  }

  /** Splitting the spelling of a name finds the elements that bear it. */
  lemma SpellingIsName(n: Node, name: Name)
    requires Legible(name)
    ensures Hits(n, Spelling(name)) <==> Bears(n, name)
  {
    match name {
      case Tagged(tag) => TagKey(n, tag);
      case Valued(tag, attr, value) => MatchesExactlyIffClean(tag, attr, value);
    }
    hide ApplyKey, KeyFor, Plain, Clean;
  }

  // ----- routes by name -----

  /** A path spells out one name for each of its steps. */
  predicate Spells(names: seq<Name>, path: seq<string>) {
    |names| == |path| && forall i :: 0 <= i < |names| ==> Legible(names[i]) && path[i] == Spelling(names[i])
  }

  /** The elements along the route bear the names. */
  predicate BearAlong(n: Node, route: seq<nat>, names: seq<Name>)
    requires IsRoute(n, route)
    decreases |route|
  {
    if route == [] || names == [] then route == [] && names == []
    else Bears(n.kids[route[0]], names[0]) && BearAlong(n.kids[route[0]], route[1..], names[1..])
  }

  lemma {:induction false} LeadsByName(n: Node, route: seq<nat>, path: seq<string>, names: seq<Name>)
    requires IsRoute(n, route) && Spells(names, path)
    ensures LeadsTo(n, route, path) <==> BearAlong(n, route, names)
    decreases |route|
  {
    if route != [] && path != [] {
      var c := n.kids[route[0]];
      SpellingIsName(c, names[0]);
      hide Hits, Bears, Legible, Spelling;
      assert Spells(names[1..], path[1..]);
      LeadsByName(c, route[1..], path[1..], names[1..]);
    }
  }

  /** The document is for elements with the names of those along the route. */
  ghost predicate AddressedTo(i: Insertion, n: Node, route: seq<nat>)
    requires IsRoute(n, route)
  {
    exists names :: Spells(names, i.path) && BearAlong(n, route, names)
  }

  /** The documents addressed to the end of the route, in their order. */
  ghost function MeantByName(n: Node, ins: seq<Insertion>, route: seq<nat>): seq<Node>
    requires IsRoute(n, route)
  {
    if ins == [] then []
    else (if AddressedTo(ins[0], n, route) then [ins[0].doc] else []) + MeantByName(n, ins[1..], route)
  }

  ghost predicate IsSpelled(path: seq<string>) {
    exists names :: Spells(names, path)
  }

  ghost predicate SpelledOut(ins: seq<Insertion>) {
    forall i :: 0 <= i < |ins| ==> IsSpelled(ins[i].path)
  }

  lemma {:induction false} MeantAlike(n: Node, ins: seq<Insertion>, route: seq<nat>)
    requires IsRoute(n, route) && SpelledOut(ins)
    ensures MeantByName(n, ins, route) == Meant(n, ins, route)
  {
    if ins != [] {
      LeadsIffAddressed(n, ins[0], route);
      hide IsSpelled, LeadsTo, AddressedTo;
      MeantAlike(n, ins[1..], route);
    }
  }

  lemma LeadsIffAddressed(n: Node, i: Insertion, route: seq<nat>)
    requires IsRoute(n, route) && IsSpelled(i.path)
    ensures LeadsTo(n, route, i.path) <==> AddressedTo(i, n, route)
  {
    hide Spells, LeadsTo, BearAlong;
    forall names | Spells(names, i.path) ensures LeadsTo(n, route, i.path) <==> BearAlong(n, route, names) {
      LeadsByName(n, route, i.path, names);
    }
  }

  // ----- all paths of the transfer are spelled out -----

  lemma KeyIsSpelling(p: Place, key: string) returns (name: Name)
    requires PlainPlace(p) && IsKeyOf(p, key)
    ensures Legible(name) && key == Spelling(name)
  {
    hide Plain, Clean, KeyFor;
    match p.attr {
      case None => name := Tagged(p.tag);
      case Some(attr) =>
        var value :| Clean(value) && key == KeyFor(p.tag, attr, value);
        name := Valued(p.tag, attr, value);
    }
  }

  lemma {:induction false} HeldIsSpelled(t: Trie, places: seq<Place>, path: seq<string>) returns (names: seq<Name>)
    requires Fits(t, places) && Separated(places) && Leaves(t, path) != []
    ensures Spells(names, path)
    decreases |path|
  {
    names := [];
    if path != [] {
      var c, p := HeldBelow(t, places, path);
      var name := KeyIsSpelling(p, path[0]);
      hide *;
      var rest := HeldIsSpelled(c.sub, p.below, path[1..]);
      names := [name] + rest;
      SpellsMore(name, rest, path);
    }
  }

  lemma SpellsMore(name: Name, rest: seq<Name>, path: seq<string>)
    requires path != [] && Legible(name) && path[0] == Spelling(name) && Spells(rest, path[1..])
    ensures Spells([name] + rest, path)
  {
    hide Legible, Spelling;
  }

  lemma HeldBelow(t: Trie, places: seq<Place>, path: seq<string>) returns (c: Child, p: Place)
    requires Fits(t, places) && Separated(places) && path != [] && Leaves(t, path) != []
    ensures c in t.children && Leaves(c.sub, path[1..]) != []
    ensures p in places && PlainPlace(p) && IsKeyOf(p, path[0]) && Separated(p.below) && Fits(c.sub, p.below)
  {
    hide IsKeyOf, Plain;
    EmptyHoldsNothing(path[1..]);
    c := t.children[IndexOf(t.children, path[0])];
    p :| p in places && IsKeyOf(p, c.key) && Fits(c.sub, p.below);
  }

  lemma FittingIsSpelled(t: Trie, places: seq<Place>, ins: seq<Insertion>)
    requires Fits(t, places) && Separated(places) && Holds(t, ins)
    ensures SpelledOut(ins)
  {
    hide Fits, Separated, Leaves, At, Spells;
    forall i | 0 <= i < |ins| ensures IsSpelled(ins[i].path) {
      AtHas(ins, ins[i]);
      assert Leaves(t, ins[i].path) == At(ins, ins[i].path);
      var names := HeldIsSpelled(t, places, ins[i].path);
    }
  }

  /** The documents that the transfer inserts below the root of the target. */
  function Transfers(source: Node, c2s: Subjects): seq<Insertion>
    requires RunRules(source.kids, SystemMap(), map[], c2s).Ok?
  {
    Below("system", RunRules(source.kids, SystemMap(), map[], c2s).value)
  }

  /** With clean names each document is addressed by tags, attributes and values. */
  lemma TransfersAreSpelled(source: Node, c2s: Subjects)
    requires AllClean(source, c2s) && RunRules(source.kids, SystemMap(), map[], c2s).Ok?
    ensures SpelledOut(Transfers(source, c2s))
  {
    var ins := RunRules(source.kids, SystemMap(), map[], c2s).value;
    BuildHolds([]);
    FillRulesHolds(EMPTY, source.kids, SystemMap(), map[], c2s, []);
    NothingAhead(ins);
    var t := FillRules(EMPTY, source.kids, SystemMap(), map[], c2s).value;
    SystemPlacesSeparated();
    SystemMapPlaced();
    assert Fits(EMPTY, SystemPlaces());
    FillRulesFits(EMPTY, source.kids, SystemMap(), map[], c2s, SystemPlaces());
    var system := SystemPlaces()[0];
    assert IsKeyOf(system, "system") && system.below == InSystem();
    hide *;
    SubFits(t, SystemPlaces(), system, "system");
    BelowHolds(t, ins, "system");
    FittingIsSpelled(Sub(t, "system"), InSystem(), Transfers(source, c2s));
  }

  /** The whole transfer by name: every element of the target keeps its tag and
      its attributes, and ahead of the children it had it gets exactly the
      documents addressed to elements called like it and those above it. */
  lemma ElementsGetTheirDocs(source: Node, target: Node, c2s: Subjects, route: seq<nat>)
    requires AllClean(source, c2s) && Transferred(source, target, c2s).Done? && IsRoute(target, route)
    ensures RunRules(source.kids, SystemMap(), map[], c2s).Ok?
    ensures var root, ins := Transferred(source, target, c2s).root, Transfers(source, c2s);
      && SpelledOut(ins) && IsRoute(root, Moved(target, ins, route))
      && var was, now, docs :=
           NodeAt(target, route), NodeAt(root, Moved(target, ins, route)), MeantByName(target, ins, route);
         && now.tag == was.tag && now.attrs == was.attrs
         && |now.kids| == |docs| + |was.kids| && now.kids[..|docs|] == docs
  {
    var ins := Transfers(source, c2s);
    assert Transferred(source, target, c2s) == Done(Annotate(target, ins));
    hide *;
    TransfersAreSpelled(source, c2s);
    MeantAlike(target, ins, route);
    EveryTargetGetsItsDocs(target, ins, route);
  }

  /** For every name that is not clean there is a document in which an element
      that bears it does not get its documents, or another element does, or the
      transfer stops. */
  lemma UncleanNamesGoAstray(tag: string, attr: string, value: string, doc: Node)
    requires Plain(tag) && Plain(attr) && !Clean(value)
    ensures exists c: Node ::
      var ins := [Insertion([KeyFor(tag, attr, value)], doc)];
      || ApplyKey(c, KeyFor(tag, attr, value)).IndexError?
      || (Meant(Node("system", map[], [c]), ins, [0]) == [doc] <==> !HasValue(c, tag, attr, value))
  {
    var c := Astray(tag, attr, value);
    hide *;
    MeantForChild(c, KeyFor(tag, attr, value), doc);
  }

  /** An element that is found although it has another value, or is not found
      although it has this one. */
  lemma Astray(tag: string, attr: string, value: string) returns (c: Node)
    requires Plain(tag) && Plain(attr) && !Clean(value)
    ensures ApplyKey(c, KeyFor(tag, attr, value)).IndexError?
      || (Hits(c, KeyFor(tag, attr, value)) <==> !HasValue(c, tag, attr, value))
  {
    ReadBackIff(value);
    var read := ReadBack(value);
    hide ReadBack, KeyFor, Readable, Plain, ApplyKey;
    var actual := if read.Some? && read.value != "" && read.value[0] == '$' then value + "$" else value;
    assert |value + "$"| > |value|;
    c := Node(tag, map[attr := actual], []);
    KeyOutcome(c, tag, attr, value);
  }

  lemma MeantForChild(c: Node, key: string, doc: Node)
    ensures Meant(Node("system", map[], [c]), [Insertion([key], doc)], [0]) == if Hits(c, key) then [doc] else []
  {
    hide Hits;
  }
}

