/** Why one pass over the target is enough: the keys of the targets are laid out
    so that siblings exclude each other, as long as all names are clean. */
module DocPlaces {
  import opened Wrappers
  import opened Xml
  import opened PathKeys
  import opened DocTrie
  import opened DocRules
  import opened DocTransfer

  /** A place below which documents go: a tag, for named places the attribute
      that tells them apart, and the places below. */
  datatype Place = Place(tag: string, attr: Option<string>, below: seq<Place>)

  /** Siblings have different tags; all names are plain. */
  predicate Separated(places: seq<Place>)
    decreases places
  {
    && (forall i, j :: 0 <= i < j < |places| ==> places[i].tag != places[j].tag)
    && forall p :: p in places ==>
         && Plain(p.tag) && (p.attr.Some? ==> Plain(p.attr.value)) && Separated(p.below)
  }

  ghost predicate IsKeyOf(p: Place, key: string) {
    match p.attr
    case None => key == p.tag
    case Some(attr) => exists value :: Clean(value) && key == KeyFor(p.tag, attr, value)
  }

  ghost predicate Fits(t: Trie, places: seq<Place>)
    decreases t
  {
    && (forall i, j :: 0 <= i < j < |t.children| ==> t.children[i].key != t.children[j].key)
    && forall c :: c in t.children ==> exists p :: p in places && IsKeyOf(p, c.key) && Fits(c.sub, p.below)
  }

  predicate PlainPlace(p: Place) {
    Plain(p.tag) && (p.attr.Some? ==> Plain(p.attr.value))
  }

  lemma KeyMatchesTag(p: Place, key: string, n: Node)
    requires PlainPlace(p) && IsKeyOf(p, key) && Hits(n, key)
    ensures n.tag == p.tag
  {
    match p.attr {
      case None => TagKey(n, p.tag);
      case Some(attr) =>
        var value :| Clean(value) && key == KeyFor(p.tag, attr, value);
        MatchesExactlyIffClean(p.tag, attr, value);
    }
    hide ApplyKey, KeyFor, Plain, Clean;
  }

  lemma KeysOfPlaceExclude(p: Place, a: string, b: string, n: Node)
    requires PlainPlace(p) && IsKeyOf(p, a) && IsKeyOf(p, b) && a != b
    ensures !(Hits(n, a) && Hits(n, b))
  {
    hide ApplyKey, KeyFor, Plain, Clean;
    match p.attr {
      case None =>
      case Some(attr) =>
        var v :| Clean(v) && a == KeyFor(p.tag, attr, v);
        var w :| Clean(w) && b == KeyFor(p.tag, attr, w);
        ValuesExclude(n, p.tag, attr, v, w);
    }
  }

  /** In a trie that fits separated places, siblings exclude each other on every
      document. */
  lemma {:induction false} FittingIsExclusive(n: Node, t: Trie, places: seq<Place>)
    requires Fits(t, places) && Separated(places)
    ensures Exclusive(n, t)
    decreases n
  {
    forall c | c in n.kids
      ensures OneKey(c, t.children)
      ensures forall k :: 0 <= k < |t.children| && Hits(c, t.children[k].key) ==>
        Exclusive(c, t.children[k].sub)
    {
      OneKeyFits(c, t, places);
      forall k | 0 <= k < |t.children| ensures Exclusive(c, t.children[k].sub) {
        assert t.children[k] in t.children;
        var p :| p in places && IsKeyOf(p, t.children[k].key) && Fits(t.children[k].sub, p.below);
        FittingIsExclusive(c, t.children[k].sub, p.below);
      }
    }
  }

  lemma OneKeyFits(c: Node, t: Trie, places: seq<Place>)
    requires Fits(t, places) && Separated(places)
    ensures OneKey(c, t.children)
  {
    forall i, j | 0 <= i < j < |t.children|
      ensures !(Hits(c, t.children[i].key) && Hits(c, t.children[j].key))
    {
      var a, b := t.children[i], t.children[j];
      assert a in t.children && b in t.children;
      var p :| p in places && IsKeyOf(p, a.key) && Fits(a.sub, p.below);
      var q :| q in places && IsKeyOf(q, b.key) && Fits(b.sub, q.below);
      if Hits(c, a.key) && Hits(c, b.key) {
        KeyMatchesTag(p, a.key, c);
        KeyMatchesTag(q, b.key, c);
        assert p == q;
        KeysOfPlaceExclude(p, a.key, b.key, c);
      }
    }
  }

  /** A key belongs to one place only. */
  lemma KeyHasOnePlace(places: seq<Place>, p: Place, q: Place, key: string)
    requires Separated(places) && p in places && q in places
    requires IsKeyOf(p, key) && IsKeyOf(q, key)
    ensures p == q
  {
    var n: Node;
    match p.attr {
      case None =>
        n := Node(p.tag, map[], []);
        TagKey(n, p.tag);
      case Some(attr) =>
        var value :| Clean(value) && key == KeyFor(p.tag, attr, value);
        n := Node(p.tag, map[attr := value], []);
        assert HasValue(n, p.tag, attr, value);
        MatchesExactlyIffClean(p.tag, attr, value);
    }
    assert Hits(n, key);
    KeyMatchesTag(q, key, n);
    hide ApplyKey, KeyFor, Plain, Clean;
  }

  // ----- the traversal keeps to the places -----

  predicate SameClass(p: Place, t: Target) {
    p.tag == t.tag && p.attr == if t.Fixed? then None else Some(t.attr)
  }

  predicate Allowed(target: seq<Target>, places: seq<Place>)
    decreases |target|
  {
    target == [] || exists p :: p in places && SameClass(p, target[0]) && Allowed(target[1..], p.below)
  }

  /** Whatever is substituted for the step's parameter is clean. */
  predicate CleanStep(t: Target, binds: Bindings, c2s: Subjects) {
    !t.Fixed? && t.param in binds ==>
      if t.ByName? then Clean(binds[t.param])
      else binds[t.param] in c2s ==> forall s :: s in c2s[binds[t.param]] ==> Clean(s)
  }

  predicate CleanTarget(target: seq<Target>, binds: Bindings, c2s: Subjects) {
    forall t :: t in target ==> CleanStep(t, binds, c2s)
  }

  lemma KeysArePlaced(p: Place, t: Target, binds: Bindings, c2s: Subjects)
    requires SameClass(p, t) && CleanStep(t, binds, c2s) && Keys(t, binds, c2s).Ok?
    ensures forall k :: k in Keys(t, binds, c2s).value ==> IsKeyOf(p, k)
  {
    hide Clean, KeyFor;
  }

  lemma IncludeFits(t: Trie, places: seq<Place>, p: Place, key: string)
    requires Fits(t, places) && p in places && IsKeyOf(p, key)
    ensures Fits(IncludeChild(t, key), places)
  {
    assert Fits(EMPTY, p.below);
    hide IsKeyOf;
  }

  lemma WithSubFits(t: Trie, places: seq<Place>, p: Place, key: string, sub: Trie)
    requires Fits(t, places) && p in places && IsKeyOf(p, key) && Fits(sub, p.below)
    requires IndexOf(t.children, key) < |t.children|
    ensures Fits(WithSub(t, key, sub), places)
  {
    hide IsKeyOf;
    var t' := WithSub(t, key, sub);
    var i := IndexOf(t.children, key);
    assert forall k :: 0 <= k < |t.children| ==> t'.children[k].key == t.children[k].key;
    forall c | c in t'.children ensures exists q :: q in places && IsKeyOf(q, c.key) && Fits(c.sub, q.below) {
      var k :| 0 <= k < |t'.children| && t'.children[k] == c;
      if k != i {
        assert t.children[k] in t.children;
      }
    }
  }

  lemma SubFits(t: Trie, places: seq<Place>, p: Place, key: string)
    requires Fits(t, places) && Separated(places) && p in places && IsKeyOf(p, key)
    ensures Fits(Sub(t, key), p.below)
  {
    var i := IndexOf(t.children, key);
    if i < |t.children| {
      var c := t.children[i];
      assert c in t.children;
      var q :| q in places && IsKeyOf(q, c.key) && Fits(c.sub, q.below);
      KeyHasOnePlace(places, p, q, key);
    }
    hide IsKeyOf;
  }

  lemma {:induction false} AddOutputFits(
      t: Trie, target: seq<Target>, doc: Node, binds: Bindings, c2s: Subjects, places: seq<Place>)
    requires Fits(t, places) && Separated(places) && Allowed(target, places)
    requires CleanTarget(target, binds, c2s) && AddOutput(t, target, doc, binds, c2s).Ok?
    ensures Fits(AddOutput(t, target, doc, binds, c2s).value, places)
    decreases |target|, 1, 0
  {
    if target == [] {
      assert t.(leaves := t.leaves + [doc]).children == t.children;
    } else {
      var p :| p in places && SameClass(p, target[0]) && Allowed(target[1..], p.below);
      KeysArePlaced(p, target[0], binds, c2s);
      assert CleanTarget(target[1..], binds, c2s);
      hide Keys, Fits, IsKeyOf, Separated, SameClass, Allowed, CleanTarget;
      AddKeysFits(t, Keys(target[0], binds, c2s).value, target[1..], doc, binds, c2s, places, p);
      hide AddKeys;
    }
  }

  lemma {:induction false} AddKeysFits(
      t: Trie, keys: seq<string>, target: seq<Target>, doc: Node, binds: Bindings, c2s: Subjects,
      places: seq<Place>, p: Place)
    requires Fits(t, places) && Separated(places) && p in places && Allowed(target, p.below)
    requires forall k :: k in keys ==> IsKeyOf(p, k)
    requires CleanTarget(target, binds, c2s) && AddKeys(t, keys, target, doc, binds, c2s).Ok?
    ensures Fits(AddKeys(t, keys, target, doc, binds, c2s).value, places)
    decreases |target| + 1, 0, |keys|
  {
    if keys != [] {
      assert Separated(p.below);
      assert keys[0] in keys;
      hide Fits, IsKeyOf, Separated, Allowed, CleanTarget;
      var key, t' := keys[0], IncludeChild(t, keys[0]);
      IncludeFits(t, places, p, key);
      SubFits(t', places, p, key);
      AddOutputFits(Sub(t', key), target, doc, binds, c2s, p.below);
      var sub := AddOutput(Sub(t', key), target, doc, binds, c2s).value;
      hide AddOutput;
      WithSubFits(t', places, p, key, sub);
      hide IncludeChild, Sub, WithSub;
      AddKeysFits(WithSub(t', key, sub), keys[1..], target, doc, binds, c2s, places, p);
    }
  }

  /** All values are clean that the rules substitute into a target path when
      they come to a document. Names that no document depends on may be anything. */
  predicate CleanRun(kids: seq<Node>, rules: seq<Rule>, binds: Bindings, c2s: Subjects)
    decreases kids, 0
  {
    kids == [] || (CleanChild(kids[0], rules, binds, c2s) && CleanRun(kids[1..], rules, binds, c2s))
  }

  predicate CleanChild(c: Node, rules: seq<Rule>, binds: Bindings, c2s: Subjects)
    decreases c, 2
  {
    forall i :: 0 <= i < |rules| ==> CleanRule(c, rules[i], binds, c2s)
  }

  predicate CleanRule(c: Node, rule: Rule, binds: Bindings, c2s: Subjects)
    decreases c, 1, 0
  {
    rule.key != [] && Matches(c, rule.key[0]) ==>
      var binds' := binds + Binding(c, rule.key[0]);
      if |rule.key| > 1 then CleanRun(c.kids, [Rule(rule.key[1..], rule.action)], binds', c2s)
      else
        match rule.action
        case Traverse(rules) => CleanRun(c.kids, rules, binds', c2s)
        case AddToOutput(target) => CleanTarget(target, binds', c2s)
  }

  predicate Placed(action: Action, places: seq<Place>)
    decreases action, 1
  {
    match action
    case Traverse(rules) => forall r :: r in rules ==> Placed(r.action, places)
    case AddToOutput(target) => Allowed(target, places)
  }

  lemma {:induction false} FillRulesFits(
      t: Trie, kids: seq<Node>, rules: seq<Rule>, binds: Bindings, c2s: Subjects, places: seq<Place>)
    requires Fits(t, places) && Separated(places)
    requires CleanRun(kids, rules, binds, c2s)
    requires forall r :: r in rules ==> Placed(r.action, places)
    requires FillRules(t, kids, rules, binds, c2s).Ok?
    ensures Fits(FillRules(t, kids, rules, binds, c2s).value, places)
    decreases kids, 0
  {
    if kids != [] {
      hide Fits, Separated, Placed, CleanChild;
      FillChildFits(t, kids[0], rules, binds, c2s, places);
      var t' := FillChild(t, kids[0], rules, binds, c2s);
      hide FillChild;
      FillRulesFits(t'.value, kids[1..], rules, binds, c2s, places);
    }
  }

  lemma {:induction false} FillChildFits(
      t: Trie, c: Node, rules: seq<Rule>, binds: Bindings, c2s: Subjects, places: seq<Place>)
    requires Fits(t, places) && Separated(places)
    requires CleanChild(c, rules, binds, c2s)
    requires forall r :: r in rules ==> Placed(r.action, places)
    requires FillChild(t, c, rules, binds, c2s).Ok?
    ensures Fits(FillChild(t, c, rules, binds, c2s).value, places)
    decreases c, 2, |rules|
  {
    if rules != [] {
      hide Fits, Separated, Placed, CleanRule;
      FillRuleFits(t, c, rules[0], binds, c2s, places);
      var t' := FillRule(t, c, rules[0], binds, c2s);
      hide FillRule;
      FillChildFits(t'.value, c, rules[1..], binds, c2s, places);
    }
  }

  lemma {:induction false} FillRuleFits(
      t: Trie, c: Node, rule: Rule, binds: Bindings, c2s: Subjects, places: seq<Place>)
    requires Fits(t, places) && Separated(places)
    requires CleanRule(c, rule, binds, c2s) && Placed(rule.action, places)
    requires FillRule(t, c, rule, binds, c2s).Ok?
    ensures Fits(FillRule(t, c, rule, binds, c2s).value, places)
    decreases c, 1, 0
  {
    if rule.key != [] && Matches(c, rule.key[0]) {
      var binds' := binds + Binding(c, rule.key[0]);
      hide Fits, Clean, Separated;
      if |rule.key| > 1 {
        FillRulesFits(t, c.kids, [Rule(rule.key[1..], rule.action)], binds', c2s, places);
      } else {
        match rule.action {
          case Traverse(rules) => FillRulesFits(t, c.kids, rules, binds', c2s, places);
          case AddToOutput(target) => AddOutputFits(t, target, c, binds', c2s, places);
        }
      }
    }
  }

  // ----- the places of the shipped rules -----

  function SubjectPlaces(): seq<Place> {
    [Place("memory", None, [Place("memory", Some("logical"), [])])]
  }

  function InSystem(): seq<Place> {
    [Place("memory", None, [Place("memory", Some("name"), [])]),
     Place("subjects", None, [Place("subject", Some("name"), SubjectPlaces())])]
  }

  function SystemPlaces(): seq<Place> {
    [Place("system", None, InSystem())]
  }

  lemma PlainNames()
    ensures Plain("system") && Plain("memory") && Plain("subjects") && Plain("subject")
    ensures Plain("name") && Plain("logical")
  {
  }

  lemma SystemPlacesSeparated()
    ensures Separated(SystemPlaces()) && Separated(InSystem())
  {
    PlainNames();
    assert Separated([]);
    var m, l := Place("memory", Some("name"), []), Place("memory", Some("logical"), []);
    assert Separated([m]) && Separated([l]);
    assert Separated(SubjectPlaces());
    var s := Place("subject", Some("name"), SubjectPlaces());
    assert Separated([s]);
    hide Plain, SubjectPlaces;
    assert Separated(InSystem());
  }

  lemma Descend(target: seq<Target>, places: seq<Place>, p: Place)
    requires target != [] && p in places && SameClass(p, target[0]) && Allowed(target[1..], p.below)
    ensures Allowed(target, places)
  {
  }

  lemma BelowSubject(t: Target, param: string)
    requires SameClass(Place("subject", Some("name"), SubjectPlaces()), t)
    ensures Allowed(Subject(t), SystemPlaces())
    ensures Allowed(Subject(t) + [Fixed("memory"), ByName("memory", "logical", param)], SystemPlaces())
  {
    var deep := [Fixed("memory"), ByName("memory", "logical", param)];
    var l, m := Place("memory", Some("logical"), []), SubjectPlaces()[0];
    assert deep[1..] == [ByName("memory", "logical", param)] && deep[1..][1..] == [];
    Descend(deep[1..], m.below, l);
    Descend(deep, SubjectPlaces(), m);
    BelowSubjects(t, []);
    BelowSubjects(t, deep);
    assert Subject(t) + [] == Subject(t);
  }

  lemma BelowSubjects(t: Target, rest: seq<Target>)
    requires SameClass(Place("subject", Some("name"), SubjectPlaces()), t)
    requires Allowed(rest, SubjectPlaces())
    ensures Allowed(Subject(t) + rest, SystemPlaces())
  {
    var s := Place("subject", Some("name"), SubjectPlaces());
    hide SubjectPlaces;
    var all := Subject(t) + rest;
    assert all[1..][1..][1..] == rest;
    Descend(all[1..][1..], InSystem()[1].below, s);
    Descend(all[1..], InSystem(), InSystem()[1]);
    Descend(all, SystemPlaces(), SystemPlaces()[0]);
  }

  lemma TraversePlaced(rules: seq<Rule>, places: seq<Place>)
    requires forall i :: 0 <= i < |rules| ==> Placed(rules[i].action, places)
    ensures Placed(Traverse(rules), places)
  {
  }

  /** All rules of a map but the first go to one document, and that to a target
      that is allowed. */
  predicate GoesTo(rules: seq<Rule>, docs: seq<Target>, below: seq<Rule>, deeper: seq<Target>) {
    && rules != [] && rules[0].action == AddToOutput(docs)
    && (forall i :: 0 < i < |rules| ==> rules[i].action == Traverse(below))
    && |below| == 1 && below[0].action == AddToOutput(deeper)
  }

  lemma MapPlaced(rules: seq<Rule>, docs: seq<Target>, below: seq<Rule>, deeper: seq<Target>, places: seq<Place>)
    requires GoesTo(rules, docs, below, deeper) && Allowed(docs, places) && Allowed(deeper, places)
    ensures forall i :: 0 <= i < |rules| ==> Placed(rules[i].action, places)
  {
    hide Allowed;
    TraversePlaced(below, places);
  }

  lemma MapsGoTo()
    ensures GoesTo(SubjectMap(), Subject(ByName("subject", "name", "subject_name")), SubjMemMap(),
                   Subject(ByName("subject", "name", "subject_name"))
                   + [Fixed("memory"), ByName("memory", "logical", "subj_mem_logical")])
    ensures GoesTo(CompMap(), Subject(BySubjects("subject", "name", COMPONENT)), CompMemMap(),
                   Subject(BySubjects("subject", "name", COMPONENT))
                   + [Fixed("memory"), ByName("memory", "logical", "comp_mem_logical")])
  {
    hide Subject;
  }

  lemma MapsPlaced()
    ensures Placed(Traverse(SubjectMap()), SystemPlaces()) && Placed(Traverse(CompMap()), SystemPlaces())
  {
    var memory := Fixed("memory");
    var s, c := ByName("subject", "name", "subject_name"), BySubjects("subject", "name", COMPONENT);
    BelowSubject(s, "subj_mem_logical");
    BelowSubject(c, "comp_mem_logical");
    hide *;
    MapsGoTo();
    MapPlaced(SubjectMap(), Subject(s), SubjMemMap(),
              Subject(s) + [memory, ByName("memory", "logical", "subj_mem_logical")], SystemPlaces());
    MapPlaced(CompMap(), Subject(c), CompMemMap(),
              Subject(c) + [memory, ByName("memory", "logical", "comp_mem_logical")], SystemPlaces());
    TraversePlaced(SubjectMap(), SystemPlaces());
    TraversePlaced(CompMap(), SystemPlaces());
  }

  lemma TopTargets()
    ensures Allowed([Fixed("system")], SystemPlaces())
    ensures Allowed([Fixed("system"), Fixed("subjects")], SystemPlaces())
    ensures Allowed([Fixed("system"), Fixed("memory"), ByName("memory", "name", "mem_name")], SystemPlaces())
  {
    var system, memory, subjects := SystemPlaces()[0], InSystem()[0], InSystem()[1];
    var a, b := [Fixed("system")], [Fixed("system"), Fixed("subjects")];
    var c := [Fixed("system"), Fixed("memory"), ByName("memory", "name", "mem_name")];
    assert a[1..] == [] && b[1..][1..] == [] && c[1..][1..][1..] == [];
    Descend(a, SystemPlaces(), system);
    Descend(b[1..], InSystem(), subjects);
    Descend(b, SystemPlaces(), system);
    Descend(c[1..][1..], memory.below, Place("memory", Some("name"), []));
    Descend(c[1..], InSystem(), memory);
    Descend(c, SystemPlaces(), system);
  }

  lemma SystemMapPlaced()
    ensures forall r :: r in SystemMap() ==> Placed(r.action, SystemPlaces())
  {
    MapsPlaced();
    TopTargets();
    hide SystemPlaces, Allowed, SubjectMap, CompMap;
    TraversePlaced(ComponentsMap(), SystemPlaces());
    TraversePlaced(SubjectsMap(), SystemPlaces());
    hide ComponentsMap, SubjectsMap;
  }

  // ----- the whole transfer -----

  /** The insertions below a first key. */
  function Below(key: string, ins: seq<Insertion>): seq<Insertion> {
    if ins == [] then []
    else (if ins[0].path != [] && ins[0].path[0] == key
          then [Insertion(ins[0].path[1..], ins[0].doc)] else []) + Below(key, ins[1..])
  }

  lemma {:induction false} AtBelow(key: string, ins: seq<Insertion>, path: seq<string>)
    ensures At(Below(key, ins), path) == At(ins, [key] + path)
  {
    if ins != [] {
      AtBelow(key, ins[1..], path);
      FirstDown(ins[0].path, key, path);
      Uncons(ins);
      AtFirst(ins[0], ins[1..], [key] + path);
      if ins[0].path != [] && ins[0].path[0] == key {
        assert Below(key, ins) == [Insertion(ins[0].path[1..], ins[0].doc)] + Below(key, ins[1..]);
        AtFirst(Insertion(ins[0].path[1..], ins[0].doc), Below(key, ins[1..]), path);
      } else {
        assert Below(key, ins) == Below(key, ins[1..]);
      }
      hide At, Below;
    }
  }

  lemma BelowHolds(t: Trie, ins: seq<Insertion>, key: string)
    requires Holds(t, ins)
    ensures Holds(Sub(t, key), Below(key, ins))
  {
    forall path ensures Leaves(Sub(t, key), path) == At(Below(key, ins), path) {
      AtBelow(key, ins, path);
      assert Leaves(t, [key] + path) == At(ins, [key] + path);
      assert ([key] + path)[1..] == path;
    }
  }

  lemma {:induction false} BelowDocs(key: string, ins: seq<Insertion>)
    requires AllDocs(ins)
    ensures AllDocs(Below(key, ins))
  {
    if ins != [] {
      assert ins[0] in ins;
      BelowDocs(key, ins[1..]);
    }
  }

  lemma KeyNotBroken(p: Place, key: string)
    requires PlainPlace(p) && IsKeyOf(p, key)
    ensures !Broken(key)
  {
    forall n: Node ensures !ApplyKey(n, key).IndexError? {
      match p.attr {
        case None => TagKey(n, p.tag);
        case Some(attr) =>
          var value :| Clean(value) && key == KeyFor(p.tag, attr, value);
          MatchesExactlyIffClean(p.tag, attr, value);
      }
    }
    hide ApplyKey, KeyFor, Plain, Clean;
  }

  lemma {:induction false} FittingNotBroken(t: Trie, places: seq<Place>)
    requires Fits(t, places) && Separated(places)
    ensures !SomeBroken(t)
    decreases t
  {
    forall k | 0 <= k < |t.children| ensures !BrokenChild(t.children[k]) {
      var c := t.children[k];
      assert c in t.children;
      var p :| p in places && IsKeyOf(p, c.key) && Fits(c.sub, p.below);
      KeyNotBroken(p, c.key);
      FittingNotBroken(c.sub, p.below);
    }
  }

  lemma EmptyBelow(t: Trie, ins: seq<Insertion>, key: string)
    requires Holds(t, ins) && IndexOf(t.children, key) == |t.children|
    ensures Below(key, ins) == []
  {
    BelowHolds(t, ins, key);
    var below := Below(key, ins);
    if below != [] {
      AtHas(below, below[0]);
      assert Leaves(Sub(t, key), below[0].path) == At(below, below[0].path);
      EmptyHoldsNothing(below[0].path);
    }
  }

  datatype Outcome = Done(root: Node) | Stopped(error: Error) | IndexFailure

  /** All names that the shipped rules put into target paths are clean. */
  predicate AllClean(source: Node, c2s: Subjects) {
    CleanRun(source.kids, SystemMap(), map[], c2s)
  }

  /** Every element of the target gets the documents whose path leads to it. */
  function Transferred(source: Node, target: Node, c2s: Subjects): Outcome {
    var run := RunRules(source.kids, SystemMap(), map[], c2s);
    if run.Err? then Stopped(run.error) else Done(Annotate(target, Below("system", run.value)))
  }

  /** Transfer the doc elements of the source into the target: with clean names
      every element of the target gets exactly the documents whose path leads to
      it, and without them the target is what it was. */
  method TransferDocs(source: Node, target: Node, c2s: Subjects) returns (r: Outcome)
    ensures Transferred(source, target, c2s).Stopped? ==> r == Transferred(source, target, c2s)
    ensures (forall n :: n in source.kids && n.tag == "components" ==> Covers(c2s, n)) ==> !r.Stopped?
    ensures AllClean(source, c2s) ==> r == Transferred(source, target, c2s)
    ensures r.Done? && AllClean(source, c2s) && NoDocs(target) ==> StripDocs(r.root) == target
  {
    ghost var run := RunRules(source.kids, SystemMap(), map[], c2s);
    var expansion := new Expansion();
    var status := expansion.Traverse(source.kids, SystemMap(), map[], c2s);
    BuildHolds([]);
    FillRulesHolds(EMPTY, source.kids, SystemMap(), map[], c2s, []);
    if forall n :: n in source.kids && n.tag == "components" ==> Covers(c2s, n) {
      RulesNeverFail(source.kids, c2s);
    }
    hide SystemMap, RunRules, FillRules, Holds, AllClean, Covers, NoDocs, StripDocs, Annotate, Below, Sub;
    if status.Err? {
      return Stopped(status.error);
    }
    var t := expansion.root;
    NothingAhead(run.value);
    if IndexOf(t.children, "system") < |t.children| {
      var ok, root := ApplyTargetExpansion(target, Sub(t, "system"));
      if AllClean(source, c2s) {
        SystemApplied(source, target, c2s, t, run.value);
      }
      return if ok then Done(root) else IndexFailure;
    }
    NothingApplied(source, target, c2s, t, run.value);
    return Done(target);
  }

  lemma NothingAhead(ins: seq<Insertion>)
    ensures [] + ins == ins
  {
  }

  lemma SystemApplied(source: Node, target: Node, c2s: Subjects, t: Trie, ins: seq<Insertion>)
    requires FillRules(EMPTY, source.kids, SystemMap(), map[], c2s) == Ok(t)
    requires RunRules(source.kids, SystemMap(), map[], c2s) == Ok(ins) && Holds(t, ins)
    requires AllClean(source, c2s)
    ensures !SomeBroken(Sub(t, "system"))
    ensures Apply(target, Sub(t, "system")) == Annotate(target, Below("system", ins))
    ensures NoDocs(target) ==> StripDocs(Annotate(target, Below("system", ins))) == target
  {
    SystemPlacesSeparated();
    SystemMapPlaced();
    assert Fits(EMPTY, SystemPlaces());
    FillRulesFits(EMPTY, source.kids, SystemMap(), map[], c2s, SystemPlaces());
    var system := SystemPlaces()[0];
    assert IsKeyOf(system, "system") && system.below == InSystem();
    SystemMapOnlyDocs();
    RunsInsertDocs(source.kids, SystemMap(), map[], c2s);
    hide SystemMap, RunRules, FillRules, Holds, InSystem, Separated, Fits, Apply, Annotate, Below, Sub;
    SubFits(t, SystemPlaces(), system, "system");
    FittingIsExclusive(target, Sub(t, "system"), InSystem());
    FittingNotBroken(Sub(t, "system"), InSystem());
    BelowHolds(t, ins, "system");
    ApplyIsAnnotate(target, Sub(t, "system"), Below("system", ins));
    BelowDocs("system", ins);
    if NoDocs(target) {
      ErasingRestores(target, Below("system", ins));
    }
  }

  lemma NothingApplied(source: Node, target: Node, c2s: Subjects, t: Trie, ins: seq<Insertion>)
    requires Holds(t, ins) && IndexOf(t.children, "system") == |t.children|
    ensures Annotate(target, Below("system", ins)) == target
    ensures NoDocs(target) ==> StripDocs(target) == target
  {
    EmptyBelow(t, ins, "system");
    AnnotateNothing(target);
    if NoDocs(target) {
      ErasingRestores(target, []);
    }
  }
}
