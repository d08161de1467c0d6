/** The transfer with the rules that the script ships: every doc element of the
    joined policy ends up at its places in the target policy. */
module DocTransfer {
  import opened Wrappers
  import opened Xml
  import opened PathKeys
  import opened DocTrie
  import opened DocRules

  // ----- the rule interpreter -----

  function Then(a: Result<seq<Insertion>, Error>, b: Result<seq<Insertion>, Error>): Result<seq<Insertion>, Error> {
    if a.Err? then a else if b.Err? then b else Ok(a.value + b.value)
  }

  /** All children against all rules, in document order. */
  function RunRules(kids: seq<Node>, rules: seq<Rule>, binds: Bindings, c2s: Subjects)
    : Result<seq<Insertion>, Error>
    decreases kids, 0
  {
    if kids == [] then Ok([])
    else Then(RunChild(kids[0], rules, binds, c2s), RunRules(kids[1..], rules, binds, c2s))
  }

  function RunChild(c: Node, rules: seq<Rule>, binds: Bindings, c2s: Subjects): Result<seq<Insertion>, Error>
    decreases c, 2, |rules|
  {
    if rules == [] then Ok([])
    else Then(RunRule(c, rules[0], binds, c2s), RunChild(c, rules[1..], binds, c2s))
  }

  /** A rule with more than one step goes on below the child with the rest. */
  function RunRule(c: Node, rule: Rule, binds: Bindings, c2s: Subjects): Result<seq<Insertion>, Error>
    decreases c, 1, 0
  {
    if rule.key == [] || !Matches(c, rule.key[0]) then Ok([])
    else
      var binds' := binds + Binding(c, rule.key[0]);
      if |rule.key| > 1 then RunRules(c.kids, [Rule(rule.key[1..], rule.action)], binds', c2s)
      else
        match rule.action
        case Traverse(rules) => RunRules(c.kids, rules, binds', c2s)
        case AddToOutput(target) => Output(target, c, binds', c2s)
  }

  function Output(target: seq<Target>, doc: Node, binds: Bindings, c2s: Subjects): Result<seq<Insertion>, Error> {
    var paths := Concrete(target, binds, c2s);
    if paths.Err? then Err(paths.error) else Ok(Everywhere(paths.value, doc))
  }

  // ----- filling the trie while traversing -----

  /** What the script does: each action works on the trie that the one before
      has left, and an error stops everything. */
  function FillRules(t: Trie, kids: seq<Node>, rules: seq<Rule>, binds: Bindings, c2s: Subjects): Result<Trie, Error>
    decreases kids, 0
  {
    if kids == [] then Ok(t)
    else
      var t' := FillChild(t, kids[0], rules, binds, c2s);
      if t'.Err? then t' else FillRules(t'.value, kids[1..], rules, binds, c2s)
  }

  function FillChild(t: Trie, c: Node, rules: seq<Rule>, binds: Bindings, c2s: Subjects): Result<Trie, Error>
    decreases c, 2, |rules|
  {
    if rules == [] then Ok(t)
    else
      var t' := FillRule(t, c, rules[0], binds, c2s);
      if t'.Err? then t' else FillChild(t'.value, c, rules[1..], binds, c2s)
  }

  function FillRule(t: Trie, c: Node, rule: Rule, binds: Bindings, c2s: Subjects): Result<Trie, Error>
    decreases c, 1, 0
  {
    if rule.key == [] || !Matches(c, rule.key[0]) then Ok(t)
    else
      var binds' := binds + Binding(c, rule.key[0]);
      if |rule.key| > 1 then FillRules(t, c.kids, [Rule(rule.key[1..], rule.action)], binds', c2s)
      else
        match rule.action
        case Traverse(rules) => FillRules(t, c.kids, rules, binds', c2s)
        case AddToOutput(target) => AddOutput(t, target, c, binds', c2s)
  }

  /** The expansion, which the actions of the rules fill. */
  class Expansion {
    var root: Trie

    constructor ()
      ensures root == EMPTY
    {
      root := EMPTY;
    }

    ghost predicate Became(t: Result<Trie, Error>, r: Result<bool, Error>)
      reads this
    {
      if t.Err? then r == Err(t.error) else r.Ok? && root == t.value
    }

    /** The loop over the children and over the rules. */
    method Traverse(kids: seq<Node>, rules: seq<Rule>, binds: Bindings, c2s: Subjects)
      returns (r: Result<bool, Error>)
      modifies this
      ensures Became(FillRules(old(root), kids, rules, binds, c2s), r)
      decreases kids, 0
    {
      ghost var start := root;
      var i := 0;
      while i < |kids|
        invariant i <= |kids|
        invariant FillRules(root, kids[i..], rules, binds, c2s) == FillRules(start, kids, rules, binds, c2s)
      {
        assert kids[i..][0] == kids[i] && kids[i..][1..] == kids[i + 1..];
        r := ApplyRules(kids[i], rules, binds, c2s);
        if r.Err? {
          return;
        }
        i := i + 1;
      }
      return Ok(true);
    }

    method ApplyRules(c: Node, rules: seq<Rule>, binds: Bindings, c2s: Subjects) returns (r: Result<bool, Error>)
      modifies this
      ensures Became(FillChild(old(root), c, rules, binds, c2s), r)
      decreases c, 2, |rules|
    {
      ghost var start := root;
      var i := 0;
      while i < |rules|
        invariant i <= |rules|
        invariant FillChild(root, c, rules[i..], binds, c2s) == FillChild(start, c, rules, binds, c2s)
      {
        assert rules[i..][0] == rules[i] && rules[i..][1..] == rules[i + 1..];
        r := ApplyOne(c, rules[i], binds, c2s);
        if r.Err? {
          return;
        }
        i := i + 1;
      }
      return Ok(true);
    }

    method ApplyOne(c: Node, rule: Rule, binds: Bindings, c2s: Subjects) returns (r: Result<bool, Error>)
      modifies this
      ensures Became(FillRule(old(root), c, rule, binds, c2s), r)
      decreases c, 1, 0
    {
      if rule.key == [] || !Matches(c, rule.key[0]) {
        return Ok(true);
      }
      var binds' := binds + Binding(c, rule.key[0]);
      if |rule.key| > 1 {
        r := Traverse(c.kids, [Rule(rule.key[1..], rule.action)], binds', c2s);
        return;
      }
      match rule.action
      case Traverse(rules) => r := this.Traverse(c.kids, rules, binds', c2s);
      case AddToOutput(target) =>
        var t := AddOutput(root, target, c, binds', c2s);
        if t.Err? {
          return Err(t.error);
        }
        root := t.value;
        return Ok(true);
    }
  }

  /** The trie holds what it held and then the insertions of the rules; or both
      stop with the same error. */
  ghost predicate Collects(out: Result<Trie, Error>, before: seq<Insertion>, ins: Result<seq<Insertion>, Error>) {
    if ins.Err? then out == Err(ins.error) else out.Ok? && Holds(out.value, before + ins.value)
  }

  lemma {:induction false} FillRulesHolds(
      t: Trie, kids: seq<Node>, rules: seq<Rule>, binds: Bindings, c2s: Subjects, before: seq<Insertion>)
    requires Holds(t, before)
    ensures Collects(FillRules(t, kids, rules, binds, c2s), before, RunRules(kids, rules, binds, c2s))
    decreases kids, 0
  {
    hide Holds;
    AppendNothing(before);
    if kids != [] {
      FillChildHolds(t, kids[0], rules, binds, c2s, before);
      var t', first := FillChild(t, kids[0], rules, binds, c2s), RunChild(kids[0], rules, binds, c2s);
      hide FillChild, RunChild;
      if first.Ok? {
        FillRulesHolds(t'.value, kids[1..], rules, binds, c2s, before + first.value);
        var rest := RunRules(kids[1..], rules, binds, c2s);
        if rest.Ok? {
          Assoc(before, first.value, rest.value);
        }
      }
    }
  }

  lemma {:induction false} FillChildHolds(
      t: Trie, c: Node, rules: seq<Rule>, binds: Bindings, c2s: Subjects, before: seq<Insertion>)
    requires Holds(t, before)
    ensures Collects(FillChild(t, c, rules, binds, c2s), before, RunChild(c, rules, binds, c2s))
    decreases c, 2, |rules|
  {
    hide Holds;
    AppendNothing(before);
    if rules != [] {
      FillRuleHolds(t, c, rules[0], binds, c2s, before);
      var t', first := FillRule(t, c, rules[0], binds, c2s), RunRule(c, rules[0], binds, c2s);
      hide FillRule, RunRule;
      if first.Ok? {
        FillChildHolds(t'.value, c, rules[1..], binds, c2s, before + first.value);
        var rest := RunChild(c, rules[1..], binds, c2s);
        if rest.Ok? {
          Assoc(before, first.value, rest.value);
        }
      }
    }
  }

  lemma {:induction false} FillRuleHolds(
      t: Trie, c: Node, rule: Rule, binds: Bindings, c2s: Subjects, before: seq<Insertion>)
    requires Holds(t, before)
    ensures Collects(FillRule(t, c, rule, binds, c2s), before, RunRule(c, rule, binds, c2s))
    decreases c, 1, 0
  {
    AppendNothing(before);
    if rule.key != [] && Matches(c, rule.key[0]) {
      var binds' := binds + Binding(c, rule.key[0]);
      if |rule.key| > 1 {
        FillRulesHolds(t, c.kids, [Rule(rule.key[1..], rule.action)], binds', c2s, before);
      } else {
        match rule.action {
          case Traverse(rules) => FillRulesHolds(t, c.kids, rules, binds', c2s, before);
          case AddToOutput(target) => AddOutputHolds(t, target, c, binds', c2s, before);
        }
      }
    }
    hide Holds;
  }

  lemma AppendNothing(ins: seq<Insertion>)
    ensures ins + [] == ins
  {
  }

  lemma AddOutputHolds(t: Trie, target: seq<Target>, doc: Node, binds: Bindings, c2s: Subjects,
                       before: seq<Insertion>)
    requires Holds(t, before)
    ensures var out, ins := AddOutput(t, target, doc, binds, c2s), Output(target, doc, binds, c2s);
      if ins.Err? then out == Err(ins.error)
      else out.Ok? && Holds(out.value, before + ins.value)
  {
    var out, ins := AddOutput(t, target, doc, binds, c2s), Output(target, doc, binds, c2s);
    hide AddOutput, Concrete;
    AddOutputInserts(t, target, doc, binds, c2s, []);
    if ins.Ok? {
      forall at ensures Leaves(out.value, at) == At(before + ins.value, at) {
        AddOutputInserts(t, target, doc, binds, c2s, at);
        AtCat(before, ins.value, at);
      }
    }
  }

  // ----- the rules of the script -----

  const COMPONENT := "component_name"

  function Subject(target: Target): seq<Target> {
    [Fixed("system"), Fixed("subjects"), target]
  }

  function SubjMemMap(): seq<Rule> {
    [Rule([Tag("doc")], AddToOutput(
      Subject(ByName("subject", "name", "subject_name"))
      + [Fixed("memory"), ByName("memory", "logical", "subj_mem_logical")]))]
  }

  function Logical(tag: string, param: string): Pattern {
    Bind(tag, "logical", param)
  }

  function SubjectMap(): seq<Rule> {
    var below := Traverse(SubjMemMap());
    [Rule([Tag("doc")], AddToOutput(Subject(ByName("subject", "name", "subject_name")))),
     Rule([Tag("memory"), Logical("memory", "subj_mem_logical")], below),
     Rule([Tag("component"), Logical("map", "subj_mem_logical")], below),
     Rule([Tag("channels"), Logical("reader", "subj_mem_logical")], below),
     Rule([Tag("channels"), Logical("writer", "subj_mem_logical")], below)]
  }

  function CompMemMap(): seq<Rule> {
    [Rule([Tag("doc")], AddToOutput(
      Subject(BySubjects("subject", "name", COMPONENT))
      + [Fixed("memory"), ByName("memory", "logical", "comp_mem_logical")]))]
  }

  function CompMap(): seq<Rule> {
    var below := Traverse(CompMemMap());
    var memory, reader, writer := Logical("memory", "comp_mem_logical"),
      Logical("reader", "comp_mem_logical"), Logical("writer", "comp_mem_logical");
    [Rule([Tag("doc")], AddToOutput(Subject(BySubjects("subject", "name", COMPONENT)))),
     Rule([Tag("requires"), Tag("memory"), memory], below),
     Rule([Tag("requires"), Tag("memory"), Tag("array"), memory], below),
     Rule([Tag("requires"), Tag("channels"), reader], below),
     Rule([Tag("requires"), Tag("channels"), writer], below),
     Rule([Tag("requires"), Tag("channels"), Tag("array"), reader], below),
     Rule([Tag("requires"), Tag("channels"), Tag("array"), writer], below)]
  }

  function ComponentsMap(): seq<Rule> {
    [Rule([Bind("component", "name", COMPONENT)], Traverse(CompMap())),
     Rule([Bind("library", "name", COMPONENT)], Traverse(CompMap()))]
  }

  function SubjectsMap(): seq<Rule> {
    [Rule([Tag("doc")], AddToOutput([Fixed("system"), Fixed("subjects")])),
     Rule([Bind("subject", "name", "subject_name")], Traverse(SubjectMap()))]
  }

  function SystemMap(): seq<Rule> {
    [Rule([Tag("doc")], AddToOutput([Fixed("system")])),
     Rule([Tag("memory"), Bind("memory", "name", "mem_name"), Tag("doc")],
          AddToOutput([Fixed("system"), Fixed("memory"), ByName("memory", "name", "mem_name")])),
     Rule([Tag("components")], Traverse(ComponentsMap())),
     Rule([Tag("subjects")], Traverse(SubjectsMap()))]
  }

  // ----- every parameter is resolved -----

  function Params(p: Pattern): set<string> {
    if p.Bind? then {p.param} else {}
  }

  function KeyParams(key: seq<Pattern>): set<string> {
    set i | 0 <= i < |key| && key[i].Bind? :: key[i].param
  }

  /** Every parameter of a target is bound on the way to it, and the mapping to
      subjects is used for the component name only, which is not bound again. */
  predicate ScopedAction(action: Action, bound: set<string>)
    decreases action, 1
  {
    match action
    case Traverse(rules) => forall r :: r in rules ==> ScopedRule(r, bound)
    case AddToOutput(target) => ScopedTarget(target, bound)
  }

  predicate ScopedRule(rule: Rule, bound: set<string>)
    decreases rule, 0
  {
    COMPONENT !in KeyParams(rule.key) && ScopedAction(rule.action, bound + KeyParams(rule.key))
  }

  predicate Scoped(rules: seq<Rule>, bound: set<string>) {
    forall r :: r in rules ==> ScopedRule(r, bound)
  }

  predicate ScopedTarget(target: seq<Target>, bound: set<string>) {
    forall i :: 0 <= i < |target| ==>
      && (!target[i].Fixed? ==> target[i].param in bound)
      && (target[i].BySubjects? ==> target[i].param == COMPONENT)
  }

  ghost predicate Resolves(binds: Bindings, c2s: Subjects, bound: set<string>) {
    bound <= binds.Keys && (COMPONENT in bound ==> binds[COMPONENT] in c2s)
  }

  lemma {:induction false} TargetResolves(target: seq<Target>, binds: Bindings, c2s: Subjects, bound: set<string>)
    requires ScopedTarget(target, bound) && Resolves(binds, c2s, bound)
    ensures Concrete(target, binds, c2s).Ok?
  {
    if target != [] {
      forall i | 0 <= i < |target[1..]|
        ensures !target[1..][i].Fixed? ==> target[1..][i].param in bound
        ensures target[1..][i].BySubjects? ==> target[1..][i].param == COMPONENT
      {
        assert target[1..][i] == target[i + 1];
      }
      TargetResolves(target[1..], binds, c2s, bound);
    }
  }

  lemma {:induction false} ScopedRun(
      kids: seq<Node>, rules: seq<Rule>, binds: Bindings, c2s: Subjects, bound: set<string>)
    requires Scoped(rules, bound) && Resolves(binds, c2s, bound)
    ensures RunRules(kids, rules, binds, c2s).Ok?
    decreases kids, 0
  {
    if kids != [] {
      ScopedChild(kids[0], rules, binds, c2s, bound);
      ScopedRun(kids[1..], rules, binds, c2s, bound);
    }
  }

  lemma {:induction false} ScopedChild(
      c: Node, rules: seq<Rule>, binds: Bindings, c2s: Subjects, bound: set<string>)
    requires Scoped(rules, bound) && Resolves(binds, c2s, bound)
    ensures RunChild(c, rules, binds, c2s).Ok?
    decreases c, 2, |rules|
  {
    if rules != [] {
      ScopedOne(c, rules[0], binds, c2s, bound);
      ScopedChild(c, rules[1..], binds, c2s, bound);
    }
  }

  lemma RestOfKey(rule: Rule, bound: set<string>)
    requires ScopedRule(rule, bound) && rule.key != []
    ensures ScopedRule(Rule(rule.key[1..], rule.action), bound + Params(rule.key[0]))
    ensures COMPONENT !in Params(rule.key[0])
  {
    var all, rest := KeyParams(rule.key), KeyParams(rule.key[1..]);
    forall x ensures x in all <==> x in rest + Params(rule.key[0]) {
      if x in rest {
        var i :| 0 <= i < |rule.key[1..]| && rule.key[1..][i].Bind? && rule.key[1..][i].param == x;
        assert rule.key[i + 1].param == x;
      }
      if x in all {
        var i :| 0 <= i < |rule.key| && rule.key[i].Bind? && rule.key[i].param == x;
        assert i > 0 ==> rule.key[1..][i - 1].param == x;
      }
    }
    assert bound + Params(rule.key[0]) + rest == bound + all;
  }

  lemma {:induction false} ScopedOne(c: Node, rule: Rule, binds: Bindings, c2s: Subjects, bound: set<string>)
    requires ScopedRule(rule, bound) && Resolves(binds, c2s, bound)
    ensures RunRule(c, rule, binds, c2s).Ok?
    decreases c, 1, 0
  {
    if rule.key != [] && Matches(c, rule.key[0]) {
      var binds', bound' := binds + Binding(c, rule.key[0]), bound + Params(rule.key[0]);
      RestOfKey(rule, bound);
      assert Resolves(binds', c2s, bound');
      var rest := Rule(rule.key[1..], rule.action);
      if |rule.key| > 1 {
        ScopedRun(c.kids, [rest], binds', c2s, bound');
      } else {
        assert KeyParams(rest.key) == {} && bound' + {} == bound';
        match rule.action {
          case Traverse(rules) => ScopedRun(c.kids, rules, binds', c2s, bound');
          case AddToOutput(target) => TargetResolves(target, binds', c2s, bound');
        }
      }
    }
  }

  /** Below a key without parameters, or with one that no target uses for a
      component, a rule is scoped like its action. */
  lemma RuleScoped(rule: Rule, bound: set<string>, params: set<string>)
    requires KeyParams(rule.key) == params && COMPONENT !in params && ScopedAction(rule.action, bound + params)
    ensures ScopedRule(rule, bound)
  {
  }

  lemma OnlyScoped(rule: Rule, bound: set<string>)
    requires ScopedRule(rule, bound)
    ensures ScopedAction(Traverse([rule]), bound)
  {
  }

  lemma NoParams(key: seq<Pattern>)
    requires forall i :: 0 <= i < |key| ==> key[i].Tag?
    ensures KeyParams(key) == {} && forall bound: set<string> :: bound + {} == bound
  {
  }

  /** A rule for the documents of the memory regions below. */
  lemma MemoryScoped(rule: Rule, bound: set<string>, below: Rule, target: seq<Target>, param: string)
    requires rule.action == Traverse([below]) && below.action == AddToOutput(target)
    requires (forall i :: 0 <= i < |below.key| ==> below.key[i].Tag?) && param != COMPONENT
    requires KeyParams(rule.key) == {param} && ScopedTarget(target, bound + {param})
    ensures ScopedRule(rule, bound)
  {
    NoParams(below.key);
    hide ScopedTarget;
    assert ScopedAction(below.action, bound + {param} + {});
    hide KeyParams;
    RuleScoped(below, bound + {param}, {});
    OnlyScoped(below, bound + {param});
    RuleScoped(rule, bound, {param});
  }

  lemma CompMapScoped(bound: set<string>)
    requires COMPONENT in bound
    ensures Scoped(CompMap(), bound)
  {
    var below, param := CompMemMap()[0], "comp_mem_logical";
    hide ScopedRule;
    forall r | r in CompMap() ensures ScopedRule(r, bound) {
      if r.action.Traverse? {
        var last := |r.key| - 1;
        assert r.key[last].Bind? && r.key[last].param == param;
        assert forall i :: 0 <= i < last ==> r.key[i].Tag?;
        assert KeyParams(r.key) == {param};
        MemoryScoped(r, bound, below, below.action.target, param);
      } else {
        NoParams(r.key);
        RuleScoped(r, bound, {});
      }
    }
  }

  lemma SubjectMapScoped(bound: set<string>)
    requires "subject_name" in bound
    ensures Scoped(SubjectMap(), bound)
  {
    var below, param := SubjMemMap()[0], "subj_mem_logical";
    hide ScopedRule;
    forall r | r in SubjectMap() ensures ScopedRule(r, bound) {
      if r.action.Traverse? {
        assert r.key[1].Bind? && r.key[1].param == param && r.key[0].Tag? && |r.key| == 2;
        assert KeyParams(r.key) == {param};
        MemoryScoped(r, bound, below, below.action.target, param);
      } else {
        NoParams(r.key);
        RuleScoped(r, bound, {});
      }
    }
  }

  lemma SubjectsMapScoped()
    ensures Scoped(SubjectsMap(), {})
  {
    SubjectMapScoped({"subject_name"});
    var d, t := SubjectsMap()[0], SubjectsMap()[1];
    assert t.key[0].param == "subject_name";
    assert KeyParams(d.key) == {} && KeyParams(t.key) == {"subject_name"};
    assert "subject_name" != COMPONENT && {} + {"subject_name"} == {"subject_name"};
    hide SubjectMap;
    assert ScopedRule(d, {}) && ScopedRule(t, {});
  }

  /** Every component and library has an entry in the map to subjects. */
  predicate Covers(c2s: Subjects, components: Node) {
    forall c :: c in components.kids && c.tag in {"component", "library"} && "name" in c.attrs ==>
      c.attrs["name"] in c2s
  }

  lemma ComponentRuns(c: Node, rule: Rule, c2s: Subjects)
    requires rule in ComponentsMap()
    requires c.tag in {"component", "library"} && "name" in c.attrs ==> c.attrs["name"] in c2s
    ensures RunRule(c, rule, map[], c2s).Ok?
  {
    assert |rule.key| == 1 && rule.key[0].Bind? && rule.action == Traverse(CompMap());
    assert rule.key[0].attr == "name" && rule.key[0].param == COMPONENT;
    hide CompMap;
    if Matches(c, rule.key[0]) {
      var binds := map[] + Binding(c, rule.key[0]);
      assert Resolves(binds, c2s, {COMPONENT});
      CompMapScoped({COMPONENT});
      ScopedRun(c.kids, CompMap(), binds, c2s, {COMPONENT});
    }
  }

  lemma {:induction false} ComponentsRun(kids: seq<Node>, c2s: Subjects)
    requires forall c :: c in kids && c.tag in {"component", "library"} && "name" in c.attrs ==>
      c.attrs["name"] in c2s
    ensures RunRules(kids, ComponentsMap(), map[], c2s).Ok?
  {
    if kids != [] {
      var c, rules := kids[0], ComponentsMap();
      assert c in kids;
      ComponentRuns(c, rules[0], c2s);
      ComponentRuns(c, rules[1], c2s);
      assert rules[1..] == [rules[1]] && rules[1..][1..] == [];
      hide RunRule, ComponentsMap;
      assert RunChild(c, [], map[], c2s).Ok?;
      assert RunChild(c, rules[1..], map[], c2s).Ok?;
      ComponentsRun(kids[1..], c2s);
    }
  }

  /** With the map that covers all components the traversal never stops with an
      unresolved parameter or a missing mapping, whatever the policy. */
  lemma {:induction false} RulesNeverFail(kids: seq<Node>, c2s: Subjects)
    requires forall n :: n in kids && n.tag == "components" ==> Covers(c2s, n)
    ensures RunRules(kids, SystemMap(), map[], c2s).Ok?
  {
    if kids != [] {
      assert kids[0] in kids;
      SystemRulesRun(kids[0], c2s);
      RulesNeverFail(kids[1..], c2s);
      hide SystemMap;
    }
  }

  lemma SystemRulesRun(n: Node, c2s: Subjects)
    requires n.tag == "components" ==> Covers(c2s, n)
    ensures RunChild(n, SystemMap(), map[], c2s).Ok?
  {
    var rules := SystemMap();
    SystemRule(n, 0, c2s);
    SystemRule(n, 1, c2s);
    SystemRule(n, 2, c2s);
    SystemRule(n, 3, c2s);
    hide RunRule, SystemMap;
    assert RunChild(n, rules[4..], map[], c2s).Ok?;
    RunChildFrom(n, rules, 3, c2s);
    RunChildFrom(n, rules, 2, c2s);
    RunChildFrom(n, rules, 1, c2s);
    RunChildFrom(n, rules, 0, c2s);
    assert rules[0..] == rules;
  }

  lemma RunChildFrom(n: Node, rules: seq<Rule>, i: nat, c2s: Subjects)
    requires i < |rules| && RunRule(n, rules[i], map[], c2s).Ok?
    requires RunChild(n, rules[i + 1..], map[], c2s).Ok?
    ensures RunChild(n, rules[i..], map[], c2s).Ok?
  {
    assert rules[i..][1..] == rules[i + 1..] && rules[i..][0] == rules[i];
    hide RunRule;
  }

  lemma SystemRule(n: Node, i: nat, c2s: Subjects)
    requires i < 4 && (n.tag == "components" ==> Covers(c2s, n))
    ensures |SystemMap()| == 4 && RunRule(n, SystemMap()[i], map[], c2s).Ok?
  {
    var rule := SystemMap()[i];
    if i == 2 {
      if n.tag == "components" {
        ComponentsRun(n.kids, c2s);
        assert map[] + Binding(n, rule.key[0]) == map[];
      }
    } else {
      SubjectsMapScoped();
      assert KeyParams(rule.key) == if i == 1 then {"mem_name"} else {} by {
        if i == 1 {
          assert rule.key[1].param == "mem_name";
        }
      }
      assert "mem_name" != COMPONENT;
      var none: set<string> := {};
      assert none + KeyParams(rule.key) == KeyParams(rule.key);
      hide SubjectsMap;
      assert ScopedRule(rule, {});
      ScopedOne(n, rule, map[], c2s, {});
    }
  }

  // ----- only doc elements are transferred -----

  predicate OnlyDocAction(key: seq<Pattern>, action: Action)
    decreases action, 1
  {
    match action
    case Traverse(rules) => forall r :: r in rules ==> OnlyDocs(r)
    case AddToOutput(target) => key != [] && key[|key| - 1].tag == "doc"
  }

  predicate OnlyDocs(rule: Rule)
    decreases rule, 0
  {
    OnlyDocAction(rule.key, rule.action)
  }

  lemma {:induction false} EverywhereIsDoc(paths: seq<seq<string>>, doc: Node)
    requires doc.tag == "doc"
    ensures AllDocs(Everywhere(paths, doc))
  {
    if paths != [] {
      EverywhereIsDoc(paths[1..], doc);
    }
  }

  lemma AllDocsCat(a: seq<Insertion>, b: seq<Insertion>)
    requires AllDocs(a) && AllDocs(b)
    ensures AllDocs(a + b)
  {
  }

  lemma {:induction false} RunsInsertDocs(kids: seq<Node>, rules: seq<Rule>, binds: Bindings, c2s: Subjects)
    requires RunRules(kids, rules, binds, c2s).Ok? && forall r :: r in rules ==> OnlyDocs(r)
    ensures AllDocs(RunRules(kids, rules, binds, c2s).value)
    decreases kids, 0
  {
    if kids != [] {
      ChildInsertsDocs(kids[0], rules, binds, c2s);
      RunsInsertDocs(kids[1..], rules, binds, c2s);
      hide OnlyDocs, RunChild;
      AllDocsCat(RunChild(kids[0], rules, binds, c2s).value, RunRules(kids[1..], rules, binds, c2s).value);
    }
  }

  lemma {:induction false} ChildInsertsDocs(c: Node, rules: seq<Rule>, binds: Bindings, c2s: Subjects)
    requires RunChild(c, rules, binds, c2s).Ok? && forall r :: r in rules ==> OnlyDocs(r)
    ensures AllDocs(RunChild(c, rules, binds, c2s).value)
    decreases c, 2, |rules|
  {
    if rules != [] {
      assert rules[0] in rules;
      RuleInsertsDocs(c, rules[0], binds, c2s);
      ChildInsertsDocs(c, rules[1..], binds, c2s);
      hide OnlyDocs, RunRule;
      AllDocsCat(RunRule(c, rules[0], binds, c2s).value, RunChild(c, rules[1..], binds, c2s).value);
    }
  }

  lemma {:induction false} RuleInsertsDocs(c: Node, rule: Rule, binds: Bindings, c2s: Subjects)
    requires RunRule(c, rule, binds, c2s).Ok? && OnlyDocs(rule)
    ensures AllDocs(RunRule(c, rule, binds, c2s).value)
    decreases c, 1, 0
  {
    if rule.key != [] && Matches(c, rule.key[0]) {
      var binds' := binds + Binding(c, rule.key[0]);
      if |rule.key| > 1 {
        RunsInsertDocs(c.kids, [Rule(rule.key[1..], rule.action)], binds', c2s);
      } else {
        match rule.action {
          case Traverse(rules) => RunsInsertDocs(c.kids, rules, binds', c2s);
          case AddToOutput(target) => EverywhereIsDoc(Concrete(target, binds', c2s).value, c);
        }
      }
    }
  }

  lemma SystemMapOnlyDocs()
    ensures forall r :: r in SystemMap() ==> OnlyDocs(r)
  {
    forall r | r in SubjMemMap() + CompMemMap() ensures OnlyDocs(r) {
    }
    forall r | r in SubjectMap() ensures OnlyDocs(r) {
      assert forall m :: m in SubjMemMap() ==> m in SubjMemMap() + CompMemMap();
    }
    forall r | r in CompMap() ensures OnlyDocs(r) {
      assert forall m :: m in CompMemMap() ==> m in SubjMemMap() + CompMemMap();
    }
    hide SubjectMap, CompMap;
    forall r | r in ComponentsMap() + SubjectsMap() ensures OnlyDocs(r) {
    }
    forall r | r in SystemMap() ensures OnlyDocs(r) {
      assert forall m :: m in ComponentsMap() || m in SubjectsMap() ==> m in ComponentsMap() + SubjectsMap();
    }
  }
}
