/** The rules of the documentation transfer: which doc elements of the joined
    policy are inserted at which paths of the target policy. */
module DocRules {
  import opened Wrappers
  import opened Xml
  import opened PathKeys
  import opened DocTrie

  // ----- rules -----

  /** One step of a rule's key: a tag, or a tag with a wildcard attribute. */
  datatype Pattern = Tag(tag: string) | Bind(tag: string, attr: string, param: string)

  /** One step of a target path: fixed, with the value of a parameter, or once
      for every subject that uses the component a parameter names. */
  datatype Target =
    | Fixed(tag: string)
    | ByName(tag: string, attr: string, param: string)
    | BySubjects(tag: string, attr: string, param: string)

  datatype Action = Traverse(rules: seq<Rule>) | AddToOutput(target: seq<Target>)
  datatype Rule = Rule(key: seq<Pattern>, action: Action)

  datatype Error = Unresolved(param: string) | NoMapping(component: string)

  type Bindings = map<string, string>

  /** Component and library names with the subjects that use them, in the order
      in which the set happens to be visited. */
  type Subjects = map<string, seq<string>>

  predicate Matches(n: Node, p: Pattern) {
    n.tag == p.tag && (p.Bind? ==> p.attr in n.attrs)
  }

  function Binding(n: Node, p: Pattern): Bindings
    requires Matches(n, p)
  {
    if p.Bind? then map[p.param := n.attrs[p.attr]] else map[]
  }

  // ----- the printed form -----

  predicate PlainPattern(p: Pattern) {
    Plain(p.tag) && (p.Bind? ==> Plain(p.attr) && Plain(p.param))
  }

  function PrintPattern(p: Pattern): string {
    match p
    case Tag(tag) => tag
    case Bind(tag, attr, param) => KeyFor(tag, attr, "$" + param)
  }

  function PrintKey(key: seq<Pattern>): string
    requires key != []
  {
    if |key| == 1 then PrintPattern(key[0]) else PrintPattern(key[0]) + "/" + PrintKey(key[1..])
  }

  lemma NoSlash(p: Pattern)
    requires PlainPattern(p)
    ensures '/' !in PrintPattern(p)
  {
  }

  lemma PrintedStep(n: Node, p: Pattern)
    requires PlainPattern(p)
    ensures ApplyKey(n, PrintPattern(p)) == StepOutcome(n, p)
  {
    match p {
      case Tag(tag) => TagKey(n, tag);
      case Bind(tag, attr, param) => WildcardBinds(n, tag, attr, param);
    }
    hide ApplyKey, KeyFor, Plain;
  }

  function StepOutcome(n: Node, p: Pattern): Outcome {
    if !Matches(n, p) then NoMatch
    else if p.Bind? then Match(Some((p.param, n.attrs[p.attr])))
    else Match(None)
  }

  /** Interpreting the printed key by splitting strings does what the pattern
      says: one step is matched, the others remain. */
  lemma PrintedKey(n: Node, key: seq<Pattern>)
    requires key != [] && forall i :: 0 <= i < |key| ==> PlainPattern(key[i])
    ensures ApplyKey(n, PrintKey(key)) == StepOutcome(n, key[0])
    ensures Split(PrintKey(key), "/")[1..] == if |key| == 1 then [] else Split(PrintKey(key[1..]), "/")
  {
    var first := PrintPattern(key[0]);
    NoSlash(key[0]);
    FindNone(first, "/");
    PrintedStep(n, key[0]);
    hide Find, PrintPattern, StepOutcome, ApplyLocal, PlainPattern;
    if |key| > 1 {
      SplitAt(first, PrintKey(key[1..]), "/");
    }
    hide Split;
    assert ApplyKey(n, PrintKey(key)) == ApplyKey(n, first);
  }

  function PrintTarget(t: Target): string {
    match t
    case Fixed(tag) => tag
    case ByName(tag, attr, param) => KeyFor(tag, attr, "$" + param)
    case BySubjects(tag, attr, param) => KeyFor(tag, attr, RESOLVE + "($" + param + ")")
  }

  predicate PlainTarget(t: Target) {
    && Plain(t.tag)
    && (!t.Fixed? ==> Plain(t.attr) && Plain(t.param) && ')' !in t.param && !(RESOLVE <= "$" + t.param))
  }

  /** The parameter of the printed step and what it is replaced by. */
  lemma PrintedTarget(t: Target, value: string)
    requires PlainTarget(t)
    ensures t.Fixed? <==> '$' !in PrintTarget(t)
    ensures !t.Fixed? ==> Substitute(PrintTarget(t), value) == Some(KeyFor(t.tag, t.attr, value))
    ensures t.ByName? ==> ParamName("$" + t.param) == Some((false, t.param))
    ensures t.BySubjects? ==> ParamName(RESOLVE + "($" + t.param + ")") == Some((true, t.param))
  {
    match t {
      case Fixed(tag) => PlainHasNoDollar(tag);
      case ByName(tag, attr, param) =>
        PlainHasNoDollar(param);
        SubstituteIsKey(tag, attr, "$" + param, value);
        PlainParam(param);
        DollarInKey(tag, attr, "$" + param);
      case BySubjects(tag, attr, param) =>
        PlainHasNoDollar(param);
        SubstituteIsKey(tag, attr, RESOLVE + "($" + param + ")", value);
        ResolvedParam(param);
        DollarInKey(tag, attr, RESOLVE + "($" + param + ")");
    }
  }

  lemma DollarInKey(tag: string, attr: string, param: string)
    requires param != "" && param[0] == '$'
    ensures '$' in KeyFor(tag, attr, param)
  {
    assert KeyFor(tag, attr, param)[|tag + "[@" + attr + "=\""|] == '$';
  }

  // ----- target paths -----

  /** The keys that a step stands for. */
  function Keys(t: Target, binds: Bindings, c2s: Subjects): Result<seq<string>, Error> {
    match t
    case Fixed(tag) => Ok([tag])
    case ByName(tag, attr, param) =>
      if param !in binds then Err(Unresolved(param)) else Ok([KeyFor(tag, attr, binds[param])])
    case BySubjects(tag, attr, param) =>
      if param !in binds then Err(Unresolved(param))
      else if binds[param] !in c2s then Err(NoMapping(binds[param]))
      else Ok(KeysFor(tag, attr, c2s[binds[param]]))
  }

  function KeysFor(tag: string, attr: string, values: seq<string>): (keys: seq<string>)
    ensures |keys| == |values|
    ensures forall i :: 0 <= i < |keys| ==> keys[i] == KeyFor(tag, attr, values[i])
  {
    if values == [] then [] else [KeyFor(tag, attr, values[0])] + KeysFor(tag, attr, values[1..])
  }

  function Prefixed(keys: seq<string>, paths: seq<seq<string>>): seq<seq<string>> {
    if keys == [] then [] else Each(keys[0], paths) + Prefixed(keys[1..], paths)
  }

  function Each(key: string, paths: seq<seq<string>>): seq<seq<string>> {
    if paths == [] then [] else [[key] + paths[0]] + Each(key, paths[1..])
  }

  /** The paths without parameters that a target path stands for. */
  function Concrete(target: seq<Target>, binds: Bindings, c2s: Subjects): Result<seq<seq<string>>, Error>
  {
    if target == [] then Ok([[]])
    else
      var keys := Keys(target[0], binds, c2s);
      if keys.Err? then Err(keys.error) else PrefixAll(keys.value, Concrete(target[1..], binds, c2s))
  }

  function PrefixAll(keys: seq<string>, rest: Result<seq<seq<string>>, Error>): Result<seq<seq<string>>, Error> {
    if keys == [] then Ok([]) else if rest.Err? then rest else Ok(Prefixed(keys, rest.value))
  }

  /** What the script does: it adds the keys level by level, also those that no
      document follows below. */
  function AddOutput(t: Trie, target: seq<Target>, doc: Node, binds: Bindings, c2s: Subjects): Result<Trie, Error>
    decreases |target|, 1, 0
  {
    if target == [] then Ok(t.(leaves := t.leaves + [doc]))
    else
      var keys := Keys(target[0], binds, c2s);
      if keys.Err? then Err(keys.error) else AddKeys(t, keys.value, target[1..], doc, binds, c2s)
  }

  function AddKeys(t: Trie, keys: seq<string>, target: seq<Target>, doc: Node, binds: Bindings, c2s: Subjects)
    : Result<Trie, Error>
    decreases |target| + 1, 0, |keys|
  {
    if keys == [] then Ok(t)
    else
      var t' := IncludeChild(t, keys[0]);
      var sub := AddOutput(Sub(t', keys[0]), target, doc, binds, c2s);
      if sub.Err? then sub
      else AddKeys(WithSub(t', keys[0], sub.value), keys[1..], target, doc, binds, c2s)
  }

  lemma {:induction false} AtCat(a: seq<Insertion>, b: seq<Insertion>, path: seq<string>)
    ensures At(a + b, path) == At(a, path) + At(b, path)
  {
    if a == [] {
      assert a + b == b;
    } else {
      AtCat(a[1..], b, path);
      Uncons(a);
      Assoc([a[0]], a[1..], b);
      AtFirst(a[0], a[1..] + b, path);
      AtFirst(a[0], a[1..], path);
      hide At;
    }
  }

  lemma {:induction false} EverywhereAppend(a: seq<seq<string>>, b: seq<seq<string>>, doc: Node)
    ensures Everywhere(a + b, doc) == Everywhere(a, doc) + Everywhere(b, doc)
  {
    if a == [] {
      assert a + b == b;
    } else {
      Uncons(a);
      Assoc([a[0]], a[1..], b);
      EverywhereAppend(a[1..], b, doc);
      EverywhereCat([a[0]], a[1..] + b, doc);
      EverywhereCat([a[0]], a[1..], doc);
      Assoc(Everywhere([a[0]], doc), Everywhere(a[1..], doc), Everywhere(b, doc));
      hide Everywhere;
    }
  }

  lemma {:induction false} AtEach(key: string, paths: seq<seq<string>>, doc: Node, path: seq<string>)
    ensures At(Everywhere(Each(key, paths), doc), path) ==
      if path != [] && path[0] == key then At(Everywhere(paths, doc), path[1..]) else []
  {
    if paths != [] {
      var rest := paths[1..];
      AtEach(key, rest, doc, path);
      FirstDown(path, key, paths[0]);
      assert Everywhere(Each(key, paths), doc)
        == [Insertion([key] + paths[0], doc)] + Everywhere(Each(key, rest), doc) by {
        assert Each(key, paths)[1..] == Each(key, rest);
      }
      assert Everywhere(paths, doc) == [Insertion(paths[0], doc)] + Everywhere(rest, doc);
      hide Everywhere, Each, At;
      AtFirst(Insertion([key] + paths[0], doc), Everywhere(Each(key, rest), doc), path);
      if path != [] {
        AtFirst(Insertion(paths[0], doc), Everywhere(rest, doc), path[1..]);
      }
    }
  }

  /** The documents that out has more than t, at one path; or the error. */
  ghost predicate Gains(
      t: Trie, out: Result<Trie, Error>, paths: Result<seq<seq<string>>, Error>, doc: Node, at: seq<string>)
  {
    if paths.Err? then out == Err(paths.error)
    else out.Ok? && Leaves(out.value, at) == Leaves(t, at) + At(Everywhere(paths.value, doc), at)
  }

  /** Level by level or path by path: the trie holds the document at exactly the
      paths that the target stands for, and both fail alike. */
  lemma {:induction false} AddOutputInserts(
      t: Trie, target: seq<Target>, doc: Node, binds: Bindings, c2s: Subjects, at: seq<string>)
    ensures Gains(t, AddOutput(t, target, doc, binds, c2s), Concrete(target, binds, c2s), doc, at)
    decreases |target|, 1, 0
  {
    if target == [] {
      var one: seq<seq<string>> := [[]];
      assert Everywhere(one, doc) == [Insertion([], doc)] by { assert one[1..] == []; }
      AtFirst(Insertion([], doc), [], at);
      assert [Insertion([], doc)] + [] == [Insertion([], doc)];
      assert at != [] ==> Sub(t.(leaves := t.leaves + [doc]), at[0]) == Sub(t, at[0]);
    } else {
      var keys := Keys(target[0], binds, c2s);
      if keys.Ok? {
        AddKeysInserts(t, keys.value, target[1..], doc, binds, c2s, at);
        hide Gains;
      }
      hide AddKeys, Keys, PrefixAll;
    }
  }

  lemma {:induction false} AddKeysInserts(
      t: Trie, keys: seq<string>, target: seq<Target>, doc: Node, binds: Bindings, c2s: Subjects,
      at: seq<string>)
    ensures Gains(t, AddKeys(t, keys, target, doc, binds, c2s),
                  PrefixAll(keys, Concrete(target, binds, c2s)), doc, at)
    decreases |target| + 1, 0, |keys|
  {
    hide Leaves;
    if keys != [] {
      var key, t' := keys[0], IncludeChild(t, keys[0]);
      var paths, sub := Concrete(target, binds, c2s), AddOutput(Sub(t', key), target, doc, binds, c2s);
      AddOutputInserts(Sub(t', key), target, doc, binds, c2s, if at == [] then [] else at[1..]);
      hide AddOutput, Concrete, IncludeChild, Sub, WithSub, At, Everywhere, Each;
      if paths.Ok? {
        var t'' := WithSub(t', key, sub.value);
        AddKeysInserts(t'', keys[1..], target, doc, binds, c2s, at);
        AddedBelow(t, key, sub.value, paths.value, doc, at);
        AddedTwice(Leaves(t, at), key, keys[1..], paths.value, doc, at);
        assert Prefixed([], paths.value) == [];
        assert Prefixed(keys, paths.value) == Each(key, paths.value) + Prefixed(keys[1..], paths.value);
        hide Prefixed;
      }
    }
  }

  lemma AddedTwice(
      before: seq<Node>, key: string, keys: seq<string>, paths: seq<seq<string>>, doc: Node, at: seq<string>)
    ensures before + At(Everywhere(Each(key, paths), doc), at) + At(Everywhere(Prefixed(keys, paths), doc), at)
      == before + At(Everywhere(Each(key, paths) + Prefixed(keys, paths), doc), at)
  {
    var a, b := Each(key, paths), Prefixed(keys, paths);
    EverywhereAppend(a, b, doc);
    AtCat(Everywhere(a, doc), Everywhere(b, doc), at);
    Assoc(before, At(Everywhere(a, doc), at), At(Everywhere(b, doc), at));
    hide *;
  }

  lemma AddedBelow(t: Trie, key: string, sub: Trie, paths: seq<seq<string>>, doc: Node, at: seq<string>)
    requires var deeper := if at == [] then [] else at[1..];
      Leaves(sub, deeper)
      == Leaves(Sub(IncludeChild(t, key), key), deeper) + At(Everywhere(paths, doc), deeper)
    ensures Leaves(WithSub(IncludeChild(t, key), key, sub), at)
      == Leaves(t, at) + At(Everywhere(Each(key, paths), doc), at)
  {
    AtEach(key, paths, doc, at);
    SubOfInclude(t, key, key);
    if at != [] {
      SubOfInclude(t, key, at[0]);
      SubOfWithSub(IncludeChild(t, key), key, sub, at[0]);
    }
    hide At, Everywhere, Each, IncludeChild, Sub;
  }
}
