/** The keys of the documentation transfer: one step of a path, a tag with at
    most one attribute and its value, taken apart by splitting strings. */
module PathKeys {
  import opened Wrappers
  import opened Xml

  // ----- strings as the script cuts them -----

  /** Where the separator occurs first; the length if it does not. */
  function Find(s: string, sep: string): (i: nat)
    requires sep != ""
    ensures i <= |s| && (i < |s| ==> OccursAt(s, sep, i))
    ensures forall k :: 0 <= k < i ==> !OccursAt(s, sep, k)
  {
    if s == "" || OccursAt(s, sep, 0) then 0
    else
      assert forall k :: 0 < k < |s| ==> OccursAt(s, sep, k) == OccursAt(s[1..], sep, k - 1) by {
        forall k | 0 < k < |s| ensures OccursAt(s, sep, k) == OccursAt(s[1..], sep, k - 1) {
          Shift(s, sep, k);
        }
      }
      1 + Find(s[1..], sep)
  }

  predicate OccursAt(s: string, sep: string, i: nat) {
    i + |sep| <= |s| && s[i..i + |sep|] == sep
  }

  lemma Shift(s: string, sep: string, k: nat)
    requires 0 < k < |s|
    ensures OccursAt(s, sep, k) == OccursAt(s[1..], sep, k - 1)
  {
    if k + |sep| <= |s| {
      assert s[1..][k - 1..k - 1 + |sep|] == s[k..k + |sep|];
    }
  }

  predicate Contains(s: string, sep: string)
    requires sep != ""
  {
    Find(s, sep) < |s|
  }

  function Split(s: string, sep: string): (parts: seq<string>)
    requires sep != ""
    ensures |parts| >= 1 && parts[0] == s[..Find(s, sep)]
    ensures |parts| >= 2 <==> Contains(s, sep)
    decreases |s|
  {
    var i := Find(s, sep);
    if i == |s| then [s] else
      assert OccursAt(s, sep, i);
      [s[..i]] + Split(s[i + |sep|..], sep)
  }

  function Cut(s: string, sep: string): string
    requires sep != ""
  {
    s[..Find(s, sep)]
  }

  function ButLast(s: string): string {
    if s == "" then "" else s[..|s| - 1]
  }

  function Replace(s: string, what: string, with: string): string
    requires what != ""
    decreases |s|
  {
    var i := Find(s, what);
    if i == |s| then s else
      assert OccursAt(s, what, i);
      s[..i] + with + Replace(s[i + |what|..], what, with)
  }

  lemma FirstCharacter(s: string, sep: string)
    requires sep != ""
    ensures OccursAt(s, sep, 0) ==> s != "" && s[0] == sep[0]
  {
    if OccursAt(s, sep, 0) {
      assert s[0] == s[0..|sep|][0];
    }
  }

  /** No occurrence starts in a part without the separator's first character. */
  lemma {:induction false} FindSkip(p: string, q: string, sep: string)
    requires sep != "" && sep[0] !in p
    ensures Find(p + q, sep) == |p| + Find(q, sep)
    ensures Cut(p + q, sep) == p + Cut(q, sep)
  {
    if p == "" {
      assert p + q == q;
    } else {
      assert (p + q)[1..] == p[1..] + q;
      FindSkip(p[1..], q, sep);
      FirstCharacter(p + q, sep);
    }
    assert (p + q)[..|p| + Find(q, sep)] == p + q[..Find(q, sep)];
  }

  lemma FindHere(sep: string, q: string)
    requires sep != ""
    ensures Find(sep + q, sep) == 0 && Contains(sep + q, sep)
    ensures Cut(sep + q, sep) == ""
  {
    assert OccursAt(sep + q, sep, 0);
  }

  lemma SplitAt(p: string, q: string, sep: string)
    requires sep != "" && sep[0] !in p
    ensures Split(p + sep + q, sep) == [p] + Split(q, sep)
  {
    hide Find, OccursAt;
    FindSkip(p, sep + q, sep);
    FindHere(sep, q);
    assert p + sep + q == p + (sep + q);
    assert (p + sep + q)[|p| + |sep|..] == q && (p + sep + q)[..|p|] == p;
  }

  lemma FindNone(s: string, sep: string)
    requires sep != "" && sep[0] !in s
    ensures Find(s, sep) == |s| && Split(s, sep) == [s] && Cut(s, sep) == s
  {
    FindSkip(s, "", sep);
    assert s + "" == s;
  }

  lemma ContainsIff(s: string, sep: string)
    requires sep != ""
    ensures Contains(s, sep) <==> exists i :: 0 <= i <= |s| && OccursAt(s, sep, i)
    ensures |Cut(s, sep)| == |s| <==> !Contains(s, sep)
  {
  }

  // ----- one step of the rule interpreter -----

  datatype Outcome =
    | NoMatch
    | Match(binding: Option<(string, string)>)
    | IndexError

  /** The part of apply_rule that looks at the node. */
  function ApplyLocal(node: Node, rule: string): Outcome {
    if node.tag != Split(rule, "[")[0] then NoMatch
    else if '[' !in rule then Match(None)
    else
      var parts := Split(rule, "[@");
      if |parts| < 2 then IndexError
      else ApplyAttribute(node, ButLast(parts[1]))
  }

  function ApplyAttribute(node: Node, attribs: string): Outcome {
    var name := Split(attribs, "=")[0];
    if name !in node.attrs then NoMatch
    else
      var values := Split(attribs, "=\"");
      if |values| < 2 then IndexError
      else Compare(node.attrs[name], ButLast(values[1]))
  }

  function Compare(actual: string, value: string): Outcome {
    if value == "" then IndexError
    else if value[0] == '$' then Match(Some((value[1..], actual)))
    else if actual == value then Match(None)
    else NoMatch
  }

  function ApplyKey(node: Node, key: string): Outcome {
    ApplyLocal(node, Split(key, "/")[0])
  }

  /** A name without the characters that the keys are made of. */
  predicate Plain(s: string) {
    forall c :: c in s ==> c !in {'/', '[', ']', '@', '=', '"', '$'}
  }

  function KeyFor(tag: string, attr: string, value: string): string {
    tag + "[@" + attr + "=\"" + value + "\"]"
  }

  // ----- what a printed key matches -----

  /** The value that is read back out of a key. */
  function ReadBack(value: string): Option<string> {
    var rest := Cut(Cut(value + "\"]", "/"), "[@");
    if rest == "" then None else Some(ButLast(Cut(ButLast(rest), "=\"")))
  }

  function ExpectedOutcome(node: Node, tag: string, attr: string, read: Option<string>): Outcome {
    if node.tag != tag || attr !in node.attrs then NoMatch
    else if read.None? then IndexError
    else Compare(node.attrs[attr], read.value)
  }

  lemma NameOfAttribute(attr: string, rest: string)
    requires Plain(attr)
    ensures Split(attr + "=\"" + rest, "=")[0] == attr
    ensures Split(attr + "=\"" + rest, "=\"") == [attr] + Split(rest, "=\"")
    ensures Split(attr + "=", "=")[0] == attr && Split(attr + "=", "=\"") == [attr + "="]
  {
    NoEquals(attr);
    hide *;
    SplitAt(attr, rest, "=\"");
    Regroup(attr, "=", "\"", rest);
    assert "=" + "\"" == "=\"";
    SplitAt(attr, "\"" + rest, "=");
    Ending(attr, "=");
    SplitAt(attr, "", "=");
    NoQuote(attr);
  }

  lemma Regroup(a: string, b: string, c: string, d: string)
    ensures a + (b + c) + d == a + b + (c + d)
  {
  }

  lemma Ending(a: string, b: string)
    ensures a + b + "" == a + b
  {
  }

  lemma NoEquals(attr: string)
    requires Plain(attr)
    ensures '=' !in attr
  {
  }

  lemma NoQuote(attr: string)
    requires '=' !in attr
    ensures Split(attr + "=", "=\"") == [attr + "="]
  {
    assert !OccursAt("=", "=\"", 0) && Find("=", "=\"") == 1;
    hide OccursAt, Find;
    FindSkip(attr, "=", "=\"");
  }

  lemma AttributePart(node: Node, attr: string, rest: string)
    requires Plain(attr)
    ensures ApplyAttribute(node, ButLast(attr + "=\"" + rest)) ==
      if attr !in node.attrs then NoMatch
      else if rest == "" then IndexError
      else Compare(node.attrs[attr], ButLast(Cut(ButLast(rest), "=\"")))
  {
    hide Find, Compare, Plain;
    var inner := ButLast(rest);
    NameOfAttribute(attr, inner);
    if rest == "" {
      assert ButLast(attr + "=\"" + rest) == attr + "=";
    } else {
      assert ButLast(attr + "=\"" + rest) == attr + "=\"" + inner;
      assert Split(inner, "=\"")[0] == Cut(inner, "=\"");
    }
    hide Split;
  }

  lemma LocalPart(node: Node, tag: string, front: string, rest: string)
    requires Plain(tag) && '[' !in front
    ensures ApplyLocal(node, tag + "[@" + (front + rest)) ==
      if node.tag != tag then NoMatch
      else ApplyAttribute(node, ButLast(front + Cut(rest, "[@")))
  {
    SplitRule(tag, front + rest);
    CutBody(front, rest);
    hide Find, ApplyAttribute, Plain, Split;
  }

  lemma CutBody(front: string, rest: string)
    requires '[' !in front
    ensures Split(front + rest, "[@")[0] == front + Cut(rest, "[@")
  {
    FindSkip(front, rest, "[@");
    hide Find;
  }

  lemma SplitRule(tag: string, body: string)
    requires Plain(tag)
    ensures var rule := tag + "[@" + body;
      && Split(rule, "[")[0] == tag && '[' in rule
      && Split(rule, "[@") == [tag] + Split(body, "[@")
  {
    hide Find;
    var rule := tag + "[@" + body;
    SplitAt(tag, body, "[@");
    assert rule == tag + "[" + ("@" + body);
    SplitAt(tag, "@" + body, "[");
    assert rule[|tag|] == '[';
  }

  lemma KeyOutcome(node: Node, tag: string, attr: string, value: string)
    requires Plain(tag) && Plain(attr)
    ensures ApplyKey(node, KeyFor(tag, attr, value)) == ExpectedOutcome(node, tag, attr, ReadBack(value))
  {
    KeyLocal(tag, attr, value);
    var rest := Cut(value + "\"]", "/");
    assert '[' !in attr + "=\"";
    LocalPart(node, tag, attr + "=\"", rest);
    AttributePart(node, attr, Cut(rest, "[@"));
    hide ApplyAttribute, ApplyLocal, Compare, Find, Plain, KeyFor, Split;
  }

  lemma KeyLocal(tag: string, attr: string, value: string)
    requires Plain(tag) && Plain(attr)
    ensures Split(KeyFor(tag, attr, value), "/")[0]
      == tag + "[@" + (attr + "=\"" + Cut(value + "\"]", "/"))
  {
    var front, back := tag + "[@" + attr + "=\"", value + "\"]";
    NoSlashInFront(tag, attr);
    KeyParts(tag, attr, value);
    hide *;
    FindSkip(front, back, "/");
    FirstPart(front + back, "/");
    Regrouped(tag, "[@", attr, "=\"", Cut(back, "/"));
  }

  lemma NoSlashInFront(tag: string, attr: string)
    requires Plain(tag) && Plain(attr)
    ensures '/' !in tag + "[@" + attr + "=\""
  {
  }

  lemma KeyParts(tag: string, attr: string, value: string)
    ensures KeyFor(tag, attr, value) == tag + "[@" + attr + "=\"" + (value + "\"]")
  {
  }

  lemma Regrouped(a: string, b: string, c: string, d: string, e: string)
    ensures a + b + c + d + e == a + b + (c + d + e)
  {
  }

  lemma FirstPart(s: string, sep: string)
    requires sep != ""
    ensures Split(s, sep)[0] == Cut(s, sep)
  {
  }

  /** Read back is the value itself exactly when nothing in it, or at its seam
      with the closing quote, looks like a separator. */
  predicate Readable(value: string) {
    && '/' !in value && !Contains(value, "[@") && !Contains(value, "=\"")
    && (value != "" ==> value[|value| - 1] != '=')
  }

  /** The values that survive substitution into a key. */
  predicate Clean(value: string) {
    value != "" && value[0] != '$' && Readable(value)
  }

  lemma SlashCut(value: string)
    ensures '/' !in value ==> Cut(value + "\"]", "/") == value + "\"]"
    ensures '/' in value ==> |Cut(value + "\"]", "/")| < |value|
  {
    var s := value + "\"]";
    if '/' in value {
      var i :| 0 <= i < |value| && value[i] == '/';
      assert s[i..i + 1] == "/";
      assert OccursAt(s, "/", i);
    } else {
      FindNone(s, "/");
    }
  }

  lemma TwoCharacters(s: string, sep: string, i: nat)
    requires |sep| == 2
    ensures OccursAt(s, sep, i) <==> i + 2 <= |s| && s[i] == sep[0] && s[i + 1] == sep[1]
  {
    if i + 2 <= |s| {
      assert s[i..i + 2] == [s[i], s[i + 1]];
    }
  }

  lemma BracketCut(value: string)
    ensures !Contains(value, "[@") ==> Cut(value + "\"]", "[@") == value + "\"]"
    ensures Contains(value, "[@") ==> |Cut(value + "\"]", "[@")| < |value|
  {
    var s := value + "\"]";
    forall i | 0 <= i < |s| ensures OccursAt(s, "[@", i) == OccursAt(value, "[@", i) {
      TwoCharacters(s, "[@", i);
      TwoCharacters(value, "[@", i);
    }
    ContainsIff(value, "[@");
    ContainsIff(s, "[@");
  }

  lemma QuoteCut(value: string)
    ensures Contains(value + "\"", "=\"") <==>
      Contains(value, "=\"") || (value != "" && value[|value| - 1] == '=')
  {
    var s := value + "\"";
    forall i | 0 <= i <= |s|
      ensures OccursAt(s, "=\"", i) <==>
        OccursAt(value, "=\"", i) || (i == |value| - 1 && value[i] == '=')
    {
      TwoCharacters(s, "=\"", i);
      TwoCharacters(value, "=\"", i);
    }
    ContainsIff(value, "=\"");
    ContainsIff(s, "=\"");
    if value != "" && value[|value| - 1] == '=' {
      assert OccursAt(s, "=\"", |value| - 1);
    }
    hide Find, Contains;
  }

  lemma ReadBackIff(value: string)
    ensures ReadBack(value) == Some(value) <==> Readable(value)
  {
    var s := value + "\"]";
    SlashCut(value);
    BracketCut(value);
    QuoteCut(value);
    hide Find, Contains;
    var rest := Cut(Cut(s, "/"), "[@");
    if '/' in value || Contains(value, "[@") {
      ShortRest(value);
    } else {
      assert ButLast(s) == value + "\"";
      ContainsIff(value + "\"", "=\"");
      if Contains(value + "\"", "=\"") {
        assert |Cut(value + "\"", "=\"")| <= |value|;
      }
      CutWhole(value + "\"", "=\"");
    }
  }

  lemma CutWhole(s: string, sep: string)
    requires sep != ""
    ensures |Cut(s, sep)| <= |s|
    ensures Contains(s, sep) <==> |Cut(s, sep)| < |s|
    ensures !Contains(s, sep) ==> Cut(s, sep) == s
  {
  }

  lemma ShortRest(value: string)
    requires '/' in value || Contains(value, "[@")
    ensures ReadBack(value) != Some(value)
  {
    var s := value + "\"]";
    SlashCut(value);
    BracketCut(value);
    hide Find;
    var first := Cut(s, "/");
    CutWhole(s, "/");
    CutWhole(first, "[@");
    var rest := Cut(first, "[@");
    CutWhole(ButLast(rest), "=\"");
    assert |rest| < |value|;
  }

  /** The key that a value was substituted into matches exactly the nodes that
      have the value, if and only if the value is clean. */
  lemma MatchesExactlyIffClean(tag: string, attr: string, value: string)
    requires Plain(tag) && Plain(attr)
    ensures Clean(value) <==> forall node: Node ::
      ApplyKey(node, KeyFor(tag, attr, value))
      == if HasValue(node, tag, attr, value) then Match(None) else NoMatch
  {
    ReadBackIff(value);
    hide ReadBack, KeyFor, ApplyKey, Readable, Plain;
    forall node: Node ensures ApplyKey(node, KeyFor(tag, attr, value))
      == ExpectedOutcome(node, tag, attr, ReadBack(value))
    {
      KeyOutcome(node, tag, attr, value);
    }
    var typical := Node(tag, map[attr := value], []);
    assert HasValue(typical, tag, attr, value);
    assert ApplyKey(typical, KeyFor(tag, attr, value)) == Match(None) <==> Clean(value);
  }

  predicate HasValue(node: Node, tag: string, attr: string, value: string) {
    node.tag == tag && attr in node.attrs && node.attrs[attr] == value
  }

  // ----- substitution -----

  const RESOLVE := "$Component_To_Subjects"

  /** The parameter of a target path step: its name, and whether it stands for
      the subjects that use a component. */
  function ParamName(param: string): Option<(bool, string)> {
    if RESOLVE <= param then
      var parts := Split(param, RESOLVE + "($");
      if |parts| < 2 then None else Some((true, Split(parts[1], ")")[0]))
    else
      var parts := Split(param, "$");
      if |parts| < 2 then None else Some((false, parts[1]))
  }

  lemma PlainParam(name: string)
    requires Plain(name) && !(RESOLVE <= "$" + name)
    ensures ParamName("$" + name) == Some((false, name))
  {
    var param := "$" + name;
    assert "" + "$" + name == param;
    SplitAt("", name, "$");
    FindNone(name, "$");
  }

  lemma ResolvedParam(name: string)
    requires Plain(name) && ')' !in name
    ensures ParamName(RESOLVE + "($" + name + ")") == Some((true, name))
  {
    hide Find, Split, Plain;
    var sep := RESOLVE + "($";
    var rest := name + ")";
    assert "" + sep + rest == RESOLVE + "($" + name + ")";
    assert RESOLVE <= "" + sep + rest;
    assert sep[0] == '$';
    SplitAt("", rest, sep);
    assert '$' !in rest by { PlainHasNoDollar(name); }
    FindNone(rest, sep);
    assert name + ")" == name + ")" + "";
    SplitAt(name, "", ")");
  }

  lemma PlainHasNoDollar(name: string)
    requires Plain(name)
    ensures '$' !in name && '"' !in name
  {
  }

  /** The step of a target path after substitution: the parameter is what
      stands between the first two quotes. */
  function Substitute(step: string, value: string): Option<string> {
    var parts := Split(step, "\"");
    if |parts| < 2 || parts[1] == "" then None else Some(Replace(step, parts[1], value))
  }

  lemma ReplaceOnce(front: string, param: string, back: string, value: string)
    requires param != "" && param[0] !in front && param[0] !in back
    ensures Replace(front + param + back, param, value) == front + value + back
  {
    var s := front + param + back;
    hide Find;
    assert s == front + (param + back);
    FindSkip(front, param + back, param);
    FindHere(param, back);
    assert s[|front| + |param|..] == back && s[..|front|] == front;
    ReplaceNothing(back, param, value);
    assert Replace(s, param, value) == front + value + Replace(back, param, value);
  }

  lemma ReplaceNothing(s: string, what: string, with: string)
    requires what != "" && what[0] !in s
    ensures Replace(s, what, with) == s
  {
    FindNone(s, what);
    hide Find;
  }

  /** Substituting a parameter gives the key for the value. */
  lemma SubstituteIsKey(tag: string, attr: string, param: string, value: string)
    requires Plain(tag) && Plain(attr) && param != "" && param[0] == '$' && '"' !in param
    ensures Substitute(KeyFor(tag, attr, param), value) == Some(KeyFor(tag, attr, value))
  {
    var front, back := tag + "[@" + attr + "=\"", "\"]";
    BetweenQuotes(tag, attr, param);
    assert '$' !in front by { PlainHasNoDollar(tag); PlainHasNoDollar(attr); }
    assert KeyFor(tag, attr, param) == front + param + back;
    ReplaceOnce(front, param, back, value);
    hide Find, Replace, Split, Plain;
  }

  lemma BetweenQuotes(tag: string, attr: string, param: string)
    requires Plain(tag) && Plain(attr) && '"' !in param
    ensures var parts := Split(KeyFor(tag, attr, param), "\"");
      |parts| >= 2 && parts[1] == param
  {
    hide Find;
    var start := tag + "[@" + attr + "=";
    assert KeyFor(tag, attr, param) == start + "\"" + (param + "\"" + "]");
    assert '"' !in start by { PlainHasNoDollar(tag); PlainHasNoDollar(attr); }
    SplitAt(start, param + "\"" + "]", "\"");
    SplitAt(param, "]", "\"");
    hide Split, Plain;
  }

  /** A key with a parameter for its value is a wildcard that binds exactly the
      value of the node. */
  lemma WildcardBinds(node: Node, tag: string, attr: string, name: string)
    requires Plain(tag) && Plain(attr) && Plain(name)
    ensures ApplyKey(node, KeyFor(tag, attr, "$" + name)) ==
      if node.tag == tag && attr in node.attrs then Match(Some((name, node.attrs[attr]))) else NoMatch
  {
    KeyOutcome(node, tag, attr, "$" + name);
    PlainReadable("$" + name);
    ReadBackIff("$" + name);
    assert ("$" + name)[1..] == name;
  }

  lemma PlainReadable(value: string)
    requires forall c :: c in value ==> c !in {'/', '[', ']', '@', '=', '"'}
    ensures Readable(value)
  {
    FindNone(value, "[@");
    FindNone(value, "=\"");
  }

  /** Binding undone by substitution: with the value that a wildcard has bound
      at one node, the target step finds exactly the nodes with that value, if
      and only if the value is clean. */
  lemma BindThenSubstitute(
      node: Node, tag: string, attr: string, name: string, target: string, key: string, param: string)
    requires Plain(tag) && Plain(attr) && Plain(name) && Plain(target) && Plain(key)
    requires param != "" && param[0] == '$' && '"' !in param
    requires node.tag == tag && attr in node.attrs
    ensures ApplyKey(node, KeyFor(tag, attr, "$" + name)) == Match(Some((name, node.attrs[attr])))
    ensures Substitute(KeyFor(target, key, param), node.attrs[attr]).Some?
    ensures Clean(node.attrs[attr]) <==> forall n: Node ::
      ApplyKey(n, Substitute(KeyFor(target, key, param), node.attrs[attr]).value)
      == if HasValue(n, target, key, node.attrs[attr]) then Match(None) else NoMatch
  {
    WildcardBinds(node, tag, attr, name);
    SubstituteIsKey(target, key, param, node.attrs[attr]);
    MatchesExactlyIffClean(target, key, node.attrs[attr]);
    hide KeyFor, Substitute, ApplyKey, Clean, Plain;
  }

  /** Two clean values of the same attribute exclude each other. */
  lemma ValuesExclude(node: Node, tag: string, attr: string, a: string, b: string)
    requires Plain(tag) && Plain(attr) && Clean(a) && Clean(b) && a != b
    ensures !(ApplyKey(node, KeyFor(tag, attr, a)).Match? && ApplyKey(node, KeyFor(tag, attr, b)).Match?)
  {
    MatchesExactlyIffClean(tag, attr, a);
    MatchesExactlyIffClean(tag, attr, b);
    hide KeyFor, ApplyKey, Clean, Plain;
  }

  /** A key without an attribute matches by its tag. */
  lemma TagKey(node: Node, tag: string)
    requires Plain(tag)
    ensures ApplyKey(node, tag) == if node.tag == tag then Match(None) else NoMatch
  {
    FindNone(tag, "/");
    FindNone(tag, "[");
  }
}
