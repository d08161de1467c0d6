/** The transfer does not depend on the order in which a set of subjects is
    visited. */
module DocOrder {
  import opened Wrappers
  import opened Xml
  import opened PathKeys
  import opened DocTrie
  import opened DocRules
  import opened DocTransfer
  import opened DocPlaces

  // ----- insertions that no element can tell apart -----

  /** The documents inserted at any of the given paths, in order. */
  ghost function Picked(ins: seq<Insertion>, at: iset<seq<string>>): seq<Node> {
    if ins == [] then []
    else (if ins[0].path in at then [ins[0].doc] else []) + Picked(ins[1..], at)
  }

  /** At all places, one or several, the same documents arrive in the same order. */
  ghost predicate Alike(x: seq<Insertion>, y: seq<Insertion>) {
    forall at :: Picked(x, at) == Picked(y, at)
  }

  lemma PickedFirst(i: Insertion, ins: seq<Insertion>, at: iset<seq<string>>)
    ensures Picked([i] + ins, at) == (if i.path in at then [i.doc] else []) + Picked(ins, at)
  {
    assert ([i] + ins)[1..] == ins;
  }

  lemma {:induction false} PickedCat(a: seq<Insertion>, b: seq<Insertion>, at: iset<seq<string>>)
    ensures Picked(a + b, at) == Picked(a, at) + Picked(b, at)
  {
    if a == [] {
      assert a + b == b;
    } else {
      Uncons(a);
      Assoc([a[0]], a[1..], b);
      PickedCat(a[1..], b, at);
      PickedFirst(a[0], a[1..] + b, at);
      PickedFirst(a[0], a[1..], at);
      hide Picked;
    }
  }

  ghost function Top(): iset<seq<string>> {
    iset{[]}
  }

  lemma {:induction false} HereIsPicked(ins: seq<Insertion>)
    ensures Here(ins) == Picked(ins, Top())
  {
    if ins != [] {
      HereIsPicked(ins[1..]);
    }
  }

  /** The paths that go on at a child, and then lead to one of the given ones. */
  ghost function Through(c: Node, at: iset<seq<string>>): iset<seq<string>> {
    iset path: seq<string> | path != [] && Hits(c, path[0]) && path[1..] in at
  }

  lemma {:induction false} DownIsPicked(c: Node, ins: seq<Insertion>, at: iset<seq<string>>)
    ensures Picked(Down(c, ins), at) == Picked(ins, Through(c, at))
  {
    if ins != [] {
      DownIsPicked(c, ins[1..], at);
      StepIsPicked(c, ins[0], at);
      assert Down(c, ins) == Step(c, ins[0]) + Down(c, ins[1..]);
      hide *;
      PickedCat(Step(c, ins[0]), Down(c, ins[1..]), at);
      Uncons(ins);
      PickedCat([ins[0]], ins[1..], Through(c, at));
    }
  }

  lemma StepIsPicked(c: Node, i: Insertion, at: iset<seq<string>>)
    ensures Picked(Step(c, i), at) == Picked([i], Through(c, at))
  {
    hide Hits;
    assert [i][1..] == [];
    if i.path != [] && Hits(c, i.path[0]) {
      assert [Insertion(i.path[1..], i.doc)][1..] == [];
    }
  }

  ghost function Behind(key: string, at: iset<seq<string>>): iset<seq<string>> {
    iset path: seq<string> | path != [] && path[0] == key && path[1..] in at
  }

  lemma {:induction false} BelowIsPicked(key: string, ins: seq<Insertion>, at: iset<seq<string>>)
    ensures Picked(Below(key, ins), at) == Picked(ins, Behind(key, at))
  {
    if ins != [] {
      BelowIsPicked(key, ins[1..], at);
      var i := ins[0];
      if i.path != [] && i.path[0] == key {
        PickedFirst(Insertion(i.path[1..], i.doc), Below(key, ins[1..]), at);
      } else {
        assert Below(key, ins) == Below(key, ins[1..]);
      }
    }
  }

  /** So every element of every document gets the same. */
  lemma {:induction false} AlikeAnnotates(n: Node, x: seq<Insertion>, y: seq<Insertion>)
    requires Alike(x, y)
    ensures Annotate(n, x) == Annotate(n, y)
    decreases n
  {
    HereIsPicked(x);
    HereIsPicked(y);
    assert Picked(x, Top()) == Picked(y, Top());
    forall i | 0 <= i < |n.kids| ensures AnnotateEach(n.kids, x)[i] == AnnotateEach(n.kids, y)[i] {
      var c := n.kids[i];
      forall at ensures Picked(Down(c, x), at) == Picked(Down(c, y), at) {
        DownIsPicked(c, x, at);
        DownIsPicked(c, y, at);
      }
      AlikeAnnotates(c, Down(c, x), Down(c, y));
    }
    assert AnnotateEach(n.kids, x) == AnnotateEach(n.kids, y);
    hide Picked, Down, Here;
  }

  lemma AlikeBelow(key: string, x: seq<Insertion>, y: seq<Insertion>)
    requires Alike(x, y)
    ensures Alike(Below(key, x), Below(key, y))
  {
    forall at ensures Picked(Below(key, x), at) == Picked(Below(key, y), at) {
      BelowIsPicked(key, x, at);
      BelowIsPicked(key, y, at);
    }
  }

  lemma AlikeCat(a: seq<Insertion>, b: seq<Insertion>, x: seq<Insertion>, y: seq<Insertion>)
    requires Alike(a, x) && Alike(b, y)
    ensures Alike(a + b, x + y)
  {
    forall at ensures Picked(a + b, at) == Picked(x + y, at) {
      PickedCat(a, b, at);
      PickedCat(x, y, at);
    }
  }

  // ----- one document at permuted paths -----

  ghost function Count(paths: seq<seq<string>>, at: iset<seq<string>>): nat {
    if paths == [] then 0 else (if paths[0] in at then 1 else 0) + Count(paths[1..], at)
  }

  ghost predicate SameCounts(a: seq<seq<string>>, b: seq<seq<string>>) {
    forall at :: Count(a, at) == Count(b, at)
  }

  function Copies(doc: Node, n: nat): seq<Node> {
    if n == 0 then [] else [doc] + Copies(doc, n - 1)
  }

  lemma {:induction false} EverywhereIsPicked(paths: seq<seq<string>>, doc: Node, at: iset<seq<string>>)
    ensures Picked(Everywhere(paths, doc), at) == Copies(doc, Count(paths, at))
  {
    if paths != [] {
      EverywhereIsPicked(paths[1..], doc, at);
      PickedFirst(Insertion(paths[0], doc), Everywhere(paths[1..], doc), at);
    }
  }

  lemma {:induction false} CountCat(a: seq<seq<string>>, b: seq<seq<string>>, at: iset<seq<string>>)
    ensures Count(a + b, at) == Count(a, at) + Count(b, at)
  {
    if a == [] {
      assert a + b == b;
    } else {
      assert (a + b)[0] == a[0] && (a + b)[1..] == a[1..] + b;
      CountCat(a[1..], b, at);
    }
  }

  ghost function After(key: string, at: iset<seq<string>>): iset<seq<string>> {
    iset path: seq<string> | [key] + path in at
  }

  lemma {:induction false} CountEach(key: string, paths: seq<seq<string>>, at: iset<seq<string>>)
    ensures Count(Each(key, paths), at) == Count(paths, After(key, at))
  {
    if paths != [] {
      CountEach(key, paths[1..], at);
      assert Each(key, paths)[1..] == Each(key, paths[1..]);
    }
  }

  lemma CountFirst(key: string, keys: seq<string>, paths: seq<seq<string>>, at: iset<seq<string>>)
    ensures Count(Prefixed([key] + keys, paths), at)
      == Count(paths, After(key, at)) + Count(Prefixed(keys, paths), at)
  {
    assert ([key] + keys)[1..] == keys;
    CountCat(Each(key, paths), Prefixed(keys, paths), at);
    CountEach(key, paths, at);
  }

  /** Wherever a key is among the keys, it contributes the same. */
  lemma {:induction false} CountMiddle(
      front: seq<string>, key: string, back: seq<string>, paths: seq<seq<string>>, at: iset<seq<string>>)
    ensures Count(Prefixed(front + [key] + back, paths), at)
      == Count(paths, After(key, at)) + Count(Prefixed(front + back, paths), at)
  {
    hide Count, Prefixed;
    CountFirst(key, back, paths, at);
    if front == [] {
      assert front + [key] + back == [key] + back && front + back == back;
    } else {
      var first, rest := front[0], front[1..];
      CountMiddle(rest, key, back, paths, at);
      assert front + [key] + back == [first] + (rest + [key] + back);
      assert front + back == [first] + (rest + back);
      CountFirst(first, rest + [key] + back, paths, at);
      CountFirst(first, rest + back, paths, at);
    }
  }

  lemma MiddleOut<T>(front: seq<T>, x: T, back: seq<T>)
    ensures multiset(front + [x] + back) == multiset(front + back) + multiset{x}
  {
  }

  lemma Around<T>(b: seq<T>, i: nat)
    requires i < |b|
    ensures b[..i] + [b[i]] + b[i + 1..] == b
  {
  }

  lemma Cancel<T>(x: multiset<T>, y: multiset<T>, e: T)
    requires x + multiset{e} == y + multiset{e}
    ensures x == y
  {
    assert x == (x + multiset{e}) - multiset{e};
  }

  lemma FirstOut<T>(a: seq<T>)
    requires a != []
    ensures multiset(a) == multiset(a[1..]) + multiset{a[0]}
  {
    assert a == [a[0]] + a[1..];
  }

  lemma SomewhereIn<T>(x: T, b: seq<T>) returns (i: nat)
    requires x in multiset(b)
    ensures i < |b| && b[i] == x
  {
    i :| 0 <= i < |b| && b[i] == x;
  }

  lemma Found<T>(a: seq<T>, b: seq<T>) returns (i: nat)
    requires multiset(a) == multiset(b) && a != []
    ensures i < |b| && b[i] == a[0] && b == b[..i] + [a[0]] + b[i + 1..]
    ensures multiset(a[1..]) == multiset(b[..i] + b[i + 1..])
  {
    FirstOut(a);
    i := SomewhereIn(a[0], b);
    Around(b, i);
    MiddleOut(b[..i], a[0], b[i + 1..]);
    Cancel(multiset(a[1..]), multiset(b[..i] + b[i + 1..]), a[0]);
  }

  lemma {:induction false} KeysPermute(
      a: seq<string>, b: seq<string>, p: seq<seq<string>>, q: seq<seq<string>>, at: iset<seq<string>>)
    requires multiset(a) == multiset(b) && SameCounts(p, q)
    ensures Count(Prefixed(a, p), at) == Count(Prefixed(b, q), at)
  {
    if a == [] {
      assert |multiset(a)| == |multiset(b)|;
    } else {
      var i := Found(a, b);
      KeysPermute(a[1..], b[..i] + b[i + 1..], p, q, at);
      CountFirst(a[0], a[1..], p, at);
      assert [a[0]] + a[1..] == a;
      CountMiddle(b[..i], a[0], b[i + 1..], q, at);
      assert Count(p, After(a[0], at)) == Count(q, After(a[0], at));
      hide Count, Prefixed;
    }
  }

  // ----- maps with the same subjects in another order -----

  /** The same components with the same subjects, visited in another order. */
  ghost predicate SameEntries(a: Subjects, b: Subjects) {
    a.Keys == b.Keys && forall n :: n in a ==> multiset(a[n]) == multiset(b[n])
  }

  lemma {:induction false} KeysForPermute(tag: string, attr: string, a: seq<string>, b: seq<string>)
    requires multiset(a) == multiset(b)
    ensures multiset(KeysFor(tag, attr, a)) == multiset(KeysFor(tag, attr, b))
  {
    if a == [] {
      assert |multiset(a)| == |multiset(b)|;
    } else {
      var i := Found(a, b);
      KeysForPermute(tag, attr, a[1..], b[..i] + b[i + 1..]);
      FirstKey(tag, attr, a);
      FirstOut(KeysFor(tag, attr, a));
      KeysForMiddle(tag, attr, b[..i], a[0], b[i + 1..]);
      hide *;
    }
  }

  lemma KeysForMiddle(tag: string, attr: string, front: seq<string>, value: string, back: seq<string>)
    ensures multiset(KeysFor(tag, attr, front + [value] + back))
      == multiset(KeysFor(tag, attr, front + back)) + multiset{KeyFor(tag, attr, value)}
  {
    hide *;
    var f, key, g := KeysFor(tag, attr, front), KeyFor(tag, attr, value), KeysFor(tag, attr, back);
    assert KeysFor(tag, attr, front + [value] + back) == f + [key] + g;
    assert KeysFor(tag, attr, front + back) == f + g;
    MiddleOut(f, key, g);
  }

  lemma FirstKey(tag: string, attr: string, values: seq<string>)
    requires values != []
    ensures KeysFor(tag, attr, values) == [KeyFor(tag, attr, values[0])] + KeysFor(tag, attr, values[1..])
  {
  }

  lemma KeysAlike(t: Target, binds: Bindings, a: Subjects, b: Subjects)
    requires SameEntries(a, b)
    ensures var x, y := Keys(t, binds, a), Keys(t, binds, b);
      if x.Err? then x == y else y.Ok? && multiset(x.value) == multiset(y.value)
  {
    if t.BySubjects? && t.param in binds && binds[t.param] in a {
      KeysForPermute(t.tag, t.attr, a[binds[t.param]], b[binds[t.param]]);
    }
  }

  ghost predicate SamePaths(x: Result<seq<seq<string>>, Error>, y: Result<seq<seq<string>>, Error>) {
    if x.Err? then x == y else y.Ok? && SameCounts(x.value, y.value)
  }

  lemma {:induction false} ConcreteAlike(target: seq<Target>, binds: Bindings, a: Subjects, b: Subjects)
    requires SameEntries(a, b)
    ensures SamePaths(Concrete(target, binds, a), Concrete(target, binds, b))
  {
    if target != [] {
      KeysAlike(target[0], binds, a, b);
      ConcreteAlike(target[1..], binds, a, b);
      var x, y := Keys(target[0], binds, a), Keys(target[0], binds, b);
      if x.Ok? {
        assert |multiset(x.value)| == |multiset(y.value)|;
        hide Keys, Concrete;
        PrefixAlike(x.value, y.value, Concrete(target[1..], binds, a), Concrete(target[1..], binds, b));
      }
    }
  }

  lemma PrefixAlike(
      a: seq<string>, b: seq<string>, p: Result<seq<seq<string>>, Error>, q: Result<seq<seq<string>>, Error>)
    requires multiset(a) == multiset(b) && |a| == |b| && SamePaths(p, q)
    ensures SamePaths(PrefixAll(a, p), PrefixAll(b, q))
  {
    if p.Ok? {
      forall at ensures Count(Prefixed(a, p.value), at) == Count(Prefixed(b, q.value), at) {
        KeysPermute(a, b, p.value, q.value, at);
      }
    }
    hide Count, Prefixed;
  }

  ghost predicate AlikeRuns(x: Result<seq<Insertion>, Error>, y: Result<seq<Insertion>, Error>) {
    if x.Err? then x == y else y.Ok? && Alike(x.value, y.value)
  }

  lemma OutputAlike(target: seq<Target>, doc: Node, binds: Bindings, a: Subjects, b: Subjects)
    requires SameEntries(a, b)
    ensures AlikeRuns(Output(target, doc, binds, a), Output(target, doc, binds, b))
  {
    ConcreteAlike(target, binds, a, b);
    var p, q := Concrete(target, binds, a), Concrete(target, binds, b);
    hide Concrete;
    if p.Ok? {
      forall at ensures Picked(Everywhere(p.value, doc), at) == Picked(Everywhere(q.value, doc), at) {
        EverywhereIsPicked(p.value, doc, at);
        EverywhereIsPicked(q.value, doc, at);
        assert Count(p.value, at) == Count(q.value, at);
      }
    }
  }

  lemma ThenAlike(a: Result<seq<Insertion>, Error>, b: Result<seq<Insertion>, Error>,
                  x: Result<seq<Insertion>, Error>, y: Result<seq<Insertion>, Error>)
    requires AlikeRuns(a, x) && AlikeRuns(b, y)
    ensures AlikeRuns(Then(a, b), Then(x, y))
  {
    if a.Ok? && b.Ok? {
      AlikeCat(a.value, b.value, x.value, y.value);
    }
    hide Alike;
  }

  lemma {:induction false} RunRulesAlike(kids: seq<Node>, rules: seq<Rule>, binds: Bindings, a: Subjects, b: Subjects)
    requires SameEntries(a, b)
    ensures AlikeRuns(RunRules(kids, rules, binds, a), RunRules(kids, rules, binds, b))
    decreases kids, 0
  {
    if kids != [] {
      hide SameEntries, AlikeRuns, Then;
      RunChildAlike(kids[0], rules, binds, a, b);
      RunRulesAlike(kids[1..], rules, binds, a, b);
      ThenAlike(RunChild(kids[0], rules, binds, a), RunRules(kids[1..], rules, binds, a),
                RunChild(kids[0], rules, binds, b), RunRules(kids[1..], rules, binds, b));
    }
  }

  lemma {:induction false} RunChildAlike(c: Node, rules: seq<Rule>, binds: Bindings, a: Subjects, b: Subjects)
    requires SameEntries(a, b)
    ensures AlikeRuns(RunChild(c, rules, binds, a), RunChild(c, rules, binds, b))
    decreases c, 2, |rules|
  {
    if rules != [] {
      hide SameEntries, AlikeRuns, Then;
      RunRuleAlike(c, rules[0], binds, a, b);
      RunChildAlike(c, rules[1..], binds, a, b);
      ThenAlike(RunRule(c, rules[0], binds, a), RunChild(c, rules[1..], binds, a),
                RunRule(c, rules[0], binds, b), RunChild(c, rules[1..], binds, b));
    }
  }

  lemma {:induction false} RunRuleAlike(c: Node, rule: Rule, binds: Bindings, a: Subjects, b: Subjects)
    requires SameEntries(a, b)
    ensures AlikeRuns(RunRule(c, rule, binds, a), RunRule(c, rule, binds, b))
    decreases c, 1, 0
  {
    if rule.key != [] && Matches(c, rule.key[0]) {
      var binds' := binds + Binding(c, rule.key[0]);
      if |rule.key| > 1 {
        RunRulesAlike(c.kids, [Rule(rule.key[1..], rule.action)], binds', a, b);
      } else {
        match rule.action {
          case Traverse(rules) => RunRulesAlike(c.kids, rules, binds', a, b);
          case AddToOutput(target) => OutputAlike(target, c, binds', a, b);
        }
      }
      hide AlikeRuns, Output;
    }
  }

  /** In whatever order the sets of subjects are visited: the rules stop with the
      same error, or every element of every document gets the same documents in
      the same order. */
  lemma OrderDoesNotShow(
      kids: seq<Node>, rules: seq<Rule>, binds: Bindings, a: Subjects, b: Subjects, n: Node)
    requires SameEntries(a, b)
    ensures var x, y := RunRules(kids, rules, binds, a), RunRules(kids, rules, binds, b);
      if x.Err? then x == y else y.Ok? && Annotate(n, x.value) == Annotate(n, y.value)
  {
    RunRulesAlike(kids, rules, binds, a, b);
    var x, y := RunRules(kids, rules, binds, a), RunRules(kids, rules, binds, b);
    if x.Ok? {
      AlikeAnnotates(n, x.value, y.value);
    }
    hide RunRules, Annotate;
  }

  lemma {:induction false} CleanRunAlike(kids: seq<Node>, rules: seq<Rule>, binds: Bindings, a: Subjects, b: Subjects)
    requires SameEntries(a, b) && CleanRun(kids, rules, binds, a)
    ensures CleanRun(kids, rules, binds, b)
    decreases kids, 0
  {
    if kids != [] {
      forall i | 0 <= i < |rules| ensures CleanRule(kids[0], rules[i], binds, b) {
        CleanRuleAlike(kids[0], rules[i], binds, a, b);
      }
      CleanRunAlike(kids[1..], rules, binds, a, b);
    }
  }

  lemma {:induction false} CleanRuleAlike(c: Node, rule: Rule, binds: Bindings, a: Subjects, b: Subjects)
    requires SameEntries(a, b) && CleanRule(c, rule, binds, a)
    ensures CleanRule(c, rule, binds, b)
    decreases c, 1, 0
  {
    if rule.key != [] && Matches(c, rule.key[0]) {
      var binds' := binds + Binding(c, rule.key[0]);
      if |rule.key| > 1 {
        CleanRunAlike(c.kids, [Rule(rule.key[1..], rule.action)], binds', a, b);
      } else {
        match rule.action {
          case Traverse(rules) => CleanRunAlike(c.kids, rules, binds', a, b);
          case AddToOutput(target) => CleanTargetAlike(target, binds', a, b);
        }
      }
    }
    hide CleanTarget, SameEntries;
  }

  lemma CleanTargetAlike(target: seq<Target>, binds: Bindings, a: Subjects, b: Subjects)
    requires SameEntries(a, b) && CleanTarget(target, binds, a)
    ensures CleanTarget(target, binds, b)
  {
    forall t | t in target ensures CleanStep(t, binds, b) {
      assert CleanStep(t, binds, a);
      if t.BySubjects? && t.param in binds && binds[t.param] in a {
        var x, y := a[binds[t.param]], b[binds[t.param]];
        forall s | s in y ensures Clean(s) {
          assert s in multiset(y) && s in multiset(x);
        }
      }
      hide Clean;
    }
  }

  /** The result of the whole transfer, and whether the names in it are clean,
      do not depend on the order either. */
  lemma TransferOrderDoesNotShow(source: Node, target: Node, a: Subjects, b: Subjects)
    requires SameEntries(a, b)
    ensures Transferred(source, target, a) == Transferred(source, target, b)
    ensures AllClean(source, a) <==> AllClean(source, b)
  {
    hide SystemMap, RunRules, Annotate, Below, CleanRun;
    RunRulesAlike(source.kids, SystemMap(), map[], a, b);
    var x, y := RunRules(source.kids, SystemMap(), map[], a), RunRules(source.kids, SystemMap(), map[], b);
    if x.Ok? {
      AlikeBelow("system", x.value, y.value);
      AlikeAnnotates(target, Below("system", x.value), Below("system", y.value));
    }
    if AllClean(source, a) {
      CleanRunAlike(source.kids, SystemMap(), map[], a, b);
    }
    if AllClean(source, b) {
      CleanRunAlike(source.kids, SystemMap(), map[], b, a);
    }
  }
}
