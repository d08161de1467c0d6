/** The pending insertions of the documentation transfer, kept in a trie of path
    keys and applied to the target document in one pass. */
module DocTrie {
  import opened Xml
  import opened PathKeys

  /** The nested dictionaries: the new leaves, and the children in the order in
      which their keys were added. */
  datatype Trie = Trie(leaves: seq<Node>, children: seq<Child>)
  datatype Child = Child(key: string, sub: Trie)

  const EMPTY := Trie([], [])

  predicate Hits(n: Node, key: string) {
    ApplyKey(n, key).Match?
  }

  // ----- building -----

  /** The position of the key, or the number of children. */
  function IndexOf(children: seq<Child>, key: string): (i: nat)
    ensures i <= |children| && (i < |children| ==> children[i].key == key)
    ensures forall k :: 0 <= k < i ==> children[k].key != key
  {
    if children == [] || children[0].key == key then 0 else 1 + IndexOf(children[1..], key)
  }

  function IncludeChild(t: Trie, key: string): (t': Trie)
    ensures IndexOf(t'.children, key) < |t'.children|
    ensures |t'.children| <= |t.children| + 1
  {
    if IndexOf(t.children, key) < |t.children| then t
    else
      IndexOfSnoc(t.children, Child(key, EMPTY), key);
      t.(children := t.children + [Child(key, EMPTY)])
  }

  lemma {:induction false} IndexOfSnoc(children: seq<Child>, c: Child, key: string)
    ensures IndexOf(children + [c], key) ==
      if IndexOf(children, key) < |children| then IndexOf(children, key)
      else if key == c.key then |children| else |children| + 1
  {
    if children != [] {
      IndexOfSnoc(children[1..], c, key);
      assert (children + [c])[1..] == children[1..] + [c];
    } else {
      assert [] + [c] == [c] && [c][1..] == [];
    }
  }

  function WithSub(t: Trie, key: string, sub: Trie): Trie
    requires IndexOf(t.children, key) < |t.children|
  {
    t.(children := t.children[IndexOf(t.children, key) := Child(key, sub)])
  }

  function Sub(t: Trie, key: string): Trie {
    var i := IndexOf(t.children, key);
    if i < |t.children| then t.children[i].sub else EMPTY
  }

  /** A new leaf at the end of a path without parameters. */
  function Insert(t: Trie, path: seq<string>, doc: Node): Trie
    decreases |path|
  {
    if path == [] then t.(leaves := t.leaves + [doc])
    else
      var t' := IncludeChild(t, path[0]);
      WithSub(t', path[0], Insert(Sub(t', path[0]), path[1..], doc))
  }

  /** What the trie holds: the leaves at the end of a path. */
  function Leaves(t: Trie, path: seq<string>): seq<Node>
    decreases |path|
  {
    if path == [] then t.leaves else Leaves(Sub(t, path[0]), path[1..])
  }

  lemma {:induction false} WithSubIndex(children: seq<Child>, i: nat, sub: Trie, key: string)
    requires i < |children| && i == IndexOf(children, children[i].key)
    ensures IndexOf(children[i := Child(children[i].key, sub)], key) == IndexOf(children, key)
  {
    var children' := children[i := Child(children[i].key, sub)];
    if children[0].key != key {
      assert i > 0 ==> children'[1..] == children[1..][i - 1 := Child(children[i].key, sub)];
      if i > 0 {
        assert children[1..][i - 1] == children[i];
        WithSubIndex(children[1..], i - 1, sub, key);
      } else {
        assert children'[1..] == children[1..];
      }
    }
  }

  lemma SubOfWithSub(t: Trie, key: string, sub: Trie, other: string)
    requires IndexOf(t.children, key) < |t.children|
    ensures Sub(WithSub(t, key, sub), other) == if other == key then sub else Sub(t, other)
  {
    WithSubIndex(t.children, IndexOf(t.children, key), sub, other);
  }

  lemma SubOfInclude(t: Trie, key: string, other: string)
    ensures Sub(IncludeChild(t, key), other) == Sub(t, other)
    ensures IncludeChild(t, key).leaves == t.leaves
  {
    IndexOfSnoc(t.children, Child(key, EMPTY), other);
  }

  lemma {:induction false} EmptyHoldsNothing(path: seq<string>)
    ensures Leaves(EMPTY, path) == []
    decreases |path|
  {
    if path != [] {
      assert Sub(EMPTY, path[0]) == EMPTY;
      EmptyHoldsNothing(path[1..]);
    }
  }

  /** An insertion adds its document at its path, after those already there, and
      nothing anywhere else. */
  lemma {:induction false} LeavesOfInsert(t: Trie, path: seq<string>, doc: Node, at: seq<string>)
    ensures Leaves(Insert(t, path, doc), at) == Leaves(t, at) + (if at == path then [doc] else [])
    decreases |path|
  {
    if path != [] {
      var key, t' := path[0], IncludeChild(t, path[0]);
      SubOfInclude(t, key, key);
      if at != [] {
        SubOfInclude(t, key, at[0]);
        SubOfWithSub(t', key, Insert(Sub(t', key), path[1..], doc), at[0]);
        assert at == [at[0]] + at[1..] && path == [path[0]] + path[1..];
        if at[0] == key {
          LeavesOfInsert(Sub(t', key), path[1..], doc, at[1..]);
        }
      }
    }
  }

  // ----- applying, as the script does -----

  /** For one child all keys in turn, then the leaves ahead of the children. */
  function Apply(n: Node, t: Trie): Node
    decreases t, 1
  {
    n.(kids := t.leaves + ApplyEach(n.kids, t.children))
  }

  function ApplyEach(kids: seq<Node>, children: seq<Child>): (kids': seq<Node>)
    ensures |kids'| == |kids|
    ensures forall i :: 0 <= i < |kids| ==> kids'[i] == ApplyKeys(kids[i], children)
    decreases children, 1, |kids|
  {
    if kids == [] then [] else [ApplyKeys(kids[0], children)] + ApplyEach(kids[1..], children)
  }

  function ApplyKeys(n: Node, children: seq<Child>): (n': Node)
    ensures n'.tag == n.tag && n'.attrs == n.attrs
    decreases children, 0
  {
    if children == [] then n
    else
      var n' := if Hits(n, children[0].key) then Apply(n, children[0].sub) else n;
      ApplyKeys(n', children[1..])
  }

  // ----- what it means -----

  datatype Insertion = Insertion(path: seq<string>, doc: Node)

  function Here(ins: seq<Insertion>): seq<Node> {
    if ins == [] then [] else Ending(ins[0]) + Here(ins[1..])
  }

  function Ending(i: Insertion): seq<Node> {
    if i.path == [] then [i.doc] else []
  }

  /** The insertions whose path continues at the given child. */
  function Down(c: Node, ins: seq<Insertion>): seq<Insertion> {
    if ins == [] then [] else Step(c, ins[0]) + Down(c, ins[1..])
  }

  function Step(c: Node, i: Insertion): seq<Insertion> {
    if i.path != [] && Hits(c, i.path[0]) then [Insertion(i.path[1..], i.doc)] else []
  }

  /** Every node gets the documents whose path leads to it, in their order,
      ahead of the children it had. */
  function Annotate(n: Node, ins: seq<Insertion>): Node
    decreases n, 1
  {
    n.(kids := Here(ins) + AnnotateEach(n.kids, ins))
  }

  function AnnotateEach(kids: seq<Node>, ins: seq<Insertion>): (kids': seq<Node>)
    ensures |kids'| == |kids|
    ensures forall i :: 0 <= i < |kids| ==> kids'[i] == Annotate(kids[i], Down(kids[i], ins))
    decreases kids, 0
  {
    if kids == [] then []
    else [Annotate(kids[0], Down(kids[0], ins))] + AnnotateEach(kids[1..], ins)
  }

  /** The documents inserted at exactly this path, in order. */
  function At(ins: seq<Insertion>, path: seq<string>): seq<Node> {
    if ins == [] then []
    else (if ins[0].path == path then [ins[0].doc] else []) + At(ins[1..], path)
  }

  function Build(ins: seq<Insertion>): Trie {
    if ins == [] then EMPTY
    else Insert(Build(ins[..|ins| - 1]), ins[|ins| - 1].path, ins[|ins| - 1].doc)
  }

  lemma {:induction false} AtSnoc(ins: seq<Insertion>, i: Insertion, path: seq<string>)
    ensures At(ins + [i], path) == At(ins, path) + (if i.path == path then [i.doc] else [])
  {
    if ins != [] {
      AtSnoc(ins[1..], i, path);
      assert (ins + [i])[1..] == ins[1..] + [i];
    }
  }

  /** The trie holds exactly the insertions. */
  ghost predicate Holds(t: Trie, ins: seq<Insertion>) {
    forall path :: Leaves(t, path) == At(ins, path)
  }

  lemma {:induction false} BuildHolds(ins: seq<Insertion>)
    ensures Holds(Build(ins), ins)
  {
    if ins == [] {
      forall path ensures Leaves(EMPTY, path) == [] {
        EmptyHoldsNothing(path);
      }
    } else {
      var front, last := ins[..|ins| - 1], ins[|ins| - 1];
      BuildHolds(front);
      assert ins == front + [last];
      forall path ensures Leaves(Build(ins), path) == At(ins, path) {
        LeavesOfInsert(Build(front), last.path, last.doc, path);
        AtSnoc(front, last, path);
      }
    }
  }

  /** At every child at most one of the sibling keys matches, all the way down. */
  predicate Exclusive(n: Node, t: Trie)
    decreases n
  {
    forall c :: c in n.kids ==>
      && OneKey(c, t.children)
      && forall k :: 0 <= k < |t.children| && Hits(c, t.children[k].key) ==> Exclusive(c, t.children[k].sub)
  }

  predicate OneKey(c: Node, children: seq<Child>) {
    && (forall i, j :: 0 <= i < j < |children| ==> !(Hits(c, children[i].key) && Hits(c, children[j].key)))
    && forall i, j :: 0 <= i < j < |children| ==> children[i].key != children[j].key
  }

  // ----- one pass is as good as separate insertions -----

  lemma SameMatch(n: Node, n': Node, key: string)
    requires n.tag == n'.tag && n.attrs == n'.attrs
    ensures Hits(n, key) == Hits(n', key)
  {
  }

  lemma {:induction false} NoKeyHits(c: Node, children: seq<Child>)
    requires forall k :: 0 <= k < |children| ==> !Hits(c, children[k].key)
    ensures ApplyKeys(c, children) == c
  {
    if children != [] {
      assert !Hits(c, children[0].key);
      forall k | 0 <= k < |children[1..]| ensures !Hits(c, children[1..][k].key) {
        assert !Hits(c, children[k + 1].key);
      }
      NoKeyHits(c, children[1..]);
    }
  }

  lemma {:induction false} OneKeyHits(c: Node, children: seq<Child>, i: nat)
    requires i < |children| && Hits(c, children[i].key)
    requires forall k :: 0 <= k < |children| && k != i ==> !Hits(c, children[k].key)
    ensures ApplyKeys(c, children) == Apply(c, children[i].sub)
  {
    if i == 0 {
      var c' := Apply(c, children[0].sub);
      forall k | 0 <= k < |children[1..]| ensures !Hits(c', children[1..][k].key) {
        assert !Hits(c, children[k + 1].key);
        SameMatch(c, c', children[k + 1].key);
      }
      NoKeyHits(c', children[1..]);
    } else {
      assert !Hits(c, children[0].key);
      forall k | 0 <= k < |children[1..]| && k != i - 1 ensures !Hits(c, children[1..][k].key) {
        assert !Hits(c, children[k + 1].key);
      }
      OneKeyHits(c, children[1..], i - 1);
    }
  }

  lemma {:induction false} HereIsAt(ins: seq<Insertion>)
    ensures Here(ins) == At(ins, [])
  {
    if ins != [] {
      HereIsAt(ins[1..]);
    }
  }

  lemma {:induction false} DownAt(c: Node, ins: seq<Insertion>, key: string, path: seq<string>)
    requires Hits(c, key)
    requires forall i :: i in ins && i.path != [] && Hits(c, i.path[0]) ==> i.path[0] == key
    ensures At(Down(c, ins), path) == At(ins, [key] + path)
  {
    hide Hits;
    if ins != [] {
      DownAt(c, ins[1..], key, path);
      assert ins[0] in ins;
      FirstDown(ins[0].path, key, path);
      if ins[0].path != [] && Hits(c, ins[0].path[0]) {
        assert Down(c, ins) == [Insertion(ins[0].path[1..], ins[0].doc)] + Down(c, ins[1..]);
        AtFirst(Insertion(ins[0].path[1..], ins[0].doc), Down(c, ins[1..]), path);
      } else {
        assert Down(c, ins) == Down(c, ins[1..]);
      }
    }
  }

  lemma AtFirst(i: Insertion, ins: seq<Insertion>, path: seq<string>)
    ensures At([i] + ins, path) == (if i.path == path then [i.doc] else []) + At(ins, path)
  {
    assert ([i] + ins)[1..] == ins;
  }

  lemma FirstDown(whole: seq<string>, key: string, path: seq<string>)
    ensures whole == [key] + path <==> whole != [] && whole[0] == key && whole[1..] == path
  {
  }

  lemma {:induction false} DownNothing(c: Node, ins: seq<Insertion>)
    requires forall i :: i in ins && i.path != [] ==> !Hits(c, i.path[0])
    ensures Down(c, ins) == []
  {
    if ins != [] {
      assert ins[0] in ins;
      DownNothing(c, ins[1..]);
    }
  }

  lemma {:induction false} AnnotateNothing(n: Node)
    ensures Annotate(n, []) == n
    decreases n
  {
    forall i | 0 <= i < |n.kids| ensures AnnotateEach(n.kids, [])[i] == n.kids[i] {
      AnnotateNothing(n.kids[i]);
    }
    assert AnnotateEach(n.kids, []) == n.kids;
  }

  lemma {:induction false} AtHas(ins: seq<Insertion>, i: Insertion)
    requires i in ins
    ensures At(ins, i.path) != []
  {
    if ins[0] != i {
      AtHas(ins[1..], i);
    }
  }

  /** A key that some insertion starts with is a key of the trie. */
  lemma KeyIsThere(t: Trie, ins: seq<Insertion>, i: Insertion)
    requires Holds(t, ins) && i in ins && i.path != []
    ensures IndexOf(t.children, i.path[0]) < |t.children|
  {
    AtHas(ins, i);
    assert Leaves(t, i.path) == At(ins, i.path);
    if IndexOf(t.children, i.path[0]) == |t.children| {
      EmptyHoldsNothing(i.path[1..]);
    }
  }

  lemma SubHolds(t: Trie, ins: seq<Insertion>, c: Node, k: nat)
    requires Holds(t, ins) && OneKey(c, t.children) && k < |t.children| && Hits(c, t.children[k].key)
    ensures Holds(t.children[k].sub, Down(c, ins))
  {
    var key := t.children[k].key;
    forall i | i in ins && i.path != [] && Hits(c, i.path[0]) ensures i.path[0] == key {
      KeyIsThere(t, ins, i);
      var j := IndexOf(t.children, i.path[0]);
      assert Hits(c, t.children[j].key);
      assert j == k;
    }
    assert IndexOf(t.children, key) == k;
    forall path ensures Leaves(t.children[k].sub, path) == At(Down(c, ins), path) {
      DownAt(c, ins, key, path);
      assert Leaves(t, [key] + path) == At(ins, [key] + path);
      assert ([key] + path)[1..] == path;
    }
  }

  /** Where sibling keys exclude each other, applying the trie in one pass gives
      every node exactly the documents whose path leads to it. */
  lemma {:induction false} ApplyIsAnnotate(n: Node, t: Trie, ins: seq<Insertion>)
    requires Holds(t, ins) && Exclusive(n, t)
    ensures Apply(n, t) == Annotate(n, ins)
    decreases n, 0
  {
    HereIsAt(ins);
    assert Leaves(t, []) == At(ins, []);
    forall i | 0 <= i < |n.kids|
      ensures ApplyKeys(n.kids[i], t.children) == Annotate(n.kids[i], Down(n.kids[i], ins))
    {
      var c := n.kids[i];
      assert c in n.kids && OneKey(c, t.children);
      ApplyChildIsAnnotate(c, t, ins);
    }
    assert ApplyEach(n.kids, t.children) == AnnotateEach(n.kids, ins);
    hide Holds, Exclusive;
  }

  lemma {:induction false} ApplyChildIsAnnotate(c: Node, t: Trie, ins: seq<Insertion>)
    requires Holds(t, ins) && OneKey(c, t.children)
    requires forall k :: 0 <= k < |t.children| && Hits(c, t.children[k].key) ==> Exclusive(c, t.children[k].sub)
    ensures ApplyKeys(c, t.children) == Annotate(c, Down(c, ins))
    decreases c, 1
  {
    if k :| 0 <= k < |t.children| && Hits(c, t.children[k].key) {
      OneKeyHits(c, t.children, k);
      SubHolds(t, ins, c, k);
      ApplyIsAnnotate(c, t.children[k].sub, Down(c, ins));
    } else {
      NoKeyHits(c, t.children);
      forall i | i in ins && i.path != [] ensures !Hits(c, i.path[0]) {
        KeyIsThere(t, ins, i);
      }
      DownNothing(c, ins);
      AnnotateNothing(c);
    }
    hide *;
  }

  // ----- the two recursive procedures -----

  /** A key at which the script fails with an index error on some node. */
  ghost predicate Broken(key: string) {
    exists n: Node :: ApplyKey(n, key).IndexError?
  }

  ghost predicate SomeBroken(t: Trie)
    decreases t
  {
    exists k :: 0 <= k < |t.children| && BrokenChild(t.children[k])
  }

  ghost predicate BrokenChild(c: Child)
    decreases c
  {
    Broken(c.key) || SomeBroken(c.sub)
  }

  /** Insert the documents of the trie into the tree. It fails only at a broken
      key. */
  method ApplyTargetExpansion(n: Node, t: Trie) returns (ok: bool, n': Node)
    ensures ok ==> n' == Apply(n, t)
    ensures !ok ==> SomeBroken(t)
    decreases t, 1
  {
    hide ApplyKeys, ApplyKey;
    var kids := n.kids;
    ok, n' := true, n;
    for i := 0 to |n.kids|
      invariant |kids| == |n.kids|
      invariant forall k :: 0 <= k < i ==> kids[k] == ApplyKeys(n.kids[k], t.children)
      invariant forall k :: i <= k < |kids| ==> kids[k] == n.kids[k]
    {
      var c;
      ok, c := ApplyKeysInTurn(kids[i], t.children);
      if !ok {
        return;
      }
      kids := kids[i := c];
    }
    assert kids == ApplyEach(n.kids, t.children);
    kids := InsertInFront(kids, t.leaves);
    n' := n.(kids := kids);
  }

  /** Each at index 0, the last one first. */
  method InsertInFront(kids: seq<Node>, leaves: seq<Node>) returns (kids': seq<Node>)
    ensures kids' == leaves + kids
  {
    kids' := kids;
    for j := |leaves| downto 0
      invariant kids' == leaves[j..] + kids
    {
      kids' := [leaves[j]] + kids';
    }
  }

  method ApplyKeysInTurn(n: Node, children: seq<Child>) returns (ok: bool, c: Node)
    ensures ok ==> c == ApplyKeys(n, children)
    ensures !ok ==> exists k :: 0 <= k < |children| && BrokenChild(children[k])
    decreases children, 0
  {
    c := n;
    for k := 0 to |children|
      invariant ApplyKeys(c, children[k..]) == ApplyKeys(n, children)
    {
      var child := children[k];
      assert children[k..][0] == child && children[k..][1..] == children[k + 1..];
      var outcome := ApplyKey(c, child.key);
      if outcome.IndexError? {
        assert BrokenChild(child);
        return false, n;
      }
      if outcome.Match? {
        ok, c := ApplyTargetExpansion(c, child.sub);
        if !ok {
          assert BrokenChild(child);
          return;
        }
      }
    }
    ok := true;
  }

  // ----- erasing the documents again -----

  predicate AllDocs(ins: seq<Insertion>) {
    forall i :: i in ins ==> i.doc.tag == "doc"
  }

  predicate NoDocs(n: Node)
    decreases n
  {
    forall k :: k in n.kids ==> k.tag != "doc" && NoDocs(k)
  }

  function StripDocs(n: Node): Node
    decreases n, 1
  {
    n.(kids := StripEach(n.kids))
  }

  function StripEach(kids: seq<Node>): seq<Node>
    decreases kids, 0
  {
    if kids == [] then []
    else (if kids[0].tag == "doc" then [] else [StripDocs(kids[0])]) + StripEach(kids[1..])
  }

  lemma {:induction false} StripLeading(docs: seq<Node>, kids: seq<Node>)
    requires forall d :: d in docs ==> d.tag == "doc"
    ensures StripEach(docs + kids) == StripEach(kids)
  {
    if docs == [] {
      assert docs + kids == kids;
    } else {
      assert docs[0] in docs && (docs + kids)[1..] == docs[1..] + kids;
      StripLeading(docs[1..], kids);
    }
  }

  lemma {:induction false} HereAreDocs(ins: seq<Insertion>)
    requires AllDocs(ins)
    ensures forall d :: d in Here(ins) ==> d.tag == "doc"
  {
    if ins != [] {
      assert ins[0] in ins;
      HereAreDocs(ins[1..]);
    }
  }

  lemma {:induction false} DownAreDocs(c: Node, ins: seq<Insertion>)
    requires AllDocs(ins)
    ensures AllDocs(Down(c, ins))
  {
    if ins != [] {
      assert ins[0] in ins;
      DownAreDocs(c, ins[1..]);
    }
  }

  /** Nothing of the document itself is lost or moved. */
  lemma {:induction false} ErasingRestores(n: Node, ins: seq<Insertion>)
    requires NoDocs(n) && AllDocs(ins)
    ensures StripDocs(Annotate(n, ins)) == n
    decreases n, 1
  {
    HereAreDocs(ins);
    StripLeading(Here(ins), AnnotateEach(n.kids, ins));
    ErasingRestoresEach(n.kids, ins);
  }

  lemma {:induction false} ErasingRestoresEach(kids: seq<Node>, ins: seq<Insertion>)
    requires AllDocs(ins) && forall k :: k in kids ==> k.tag != "doc" && NoDocs(k)
    ensures StripEach(AnnotateEach(kids, ins)) == kids
    decreases kids, 0
  {
    if kids != [] {
      assert kids[0] in kids;
      DownAreDocs(kids[0], ins);
      ErasingRestores(kids[0], Down(kids[0], ins));
      ErasingRestoresEach(kids[1..], ins);
      assert AnnotateEach(kids, ins)[1..] == AnnotateEach(kids[1..], ins);
      hide NoDocs, Annotate, Down;
    }
  }

  // ----- one document at several places -----

  function Everywhere(paths: seq<seq<string>>, doc: Node): seq<Insertion> {
    if paths == [] then [] else [Insertion(paths[0], doc)] + Everywhere(paths[1..], doc)
  }

  lemma EverywhereCat(one: seq<seq<string>>, more: seq<seq<string>>, doc: Node)
    requires |one| <= 1
    ensures Everywhere(one + more, doc) == Everywhere(one, doc) + Everywhere(more, doc)
  {
    if one == [] {
      assert one + more == more;
    } else {
      assert (one + more)[1..] == more && one[1..] == [];
    }
  }

  lemma Assoc<T>(a: seq<T>, b: seq<T>, c: seq<T>)
    ensures a + b + c == a + (b + c)
  {
  }

  lemma Uncons<T>(a: seq<T>)
    requires a != []
    ensures [a[0]] + a[1..] == a
  {
  }

  // ----- who gets what -----

  predicate IsRoute(n: Node, route: seq<nat>)
    decreases |route|
  {
    route == [] || (route[0] < |n.kids| && IsRoute(n.kids[route[0]], route[1..]))
  }

  function NodeAt(n: Node, route: seq<nat>): Node
    requires IsRoute(n, route)
    decreases |route|
  {
    if route == [] then n else NodeAt(n.kids[route[0]], route[1..])
  }

  /** The path leads along the route: every key matches its node. */
  predicate LeadsTo(n: Node, route: seq<nat>, path: seq<string>)
    requires IsRoute(n, route)
    decreases |route|
  {
    if route == [] || path == [] then route == [] && path == []
    else Hits(n.kids[route[0]], path[0]) && LeadsTo(n.kids[route[0]], route[1..], path[1..])
  }

  /** The documents whose path leads along the route, in their order. */
  function Meant(n: Node, ins: seq<Insertion>, route: seq<nat>): seq<Node>
    requires IsRoute(n, route)
  {
    if ins == [] then []
    else (if LeadsTo(n, route, ins[0].path) then [ins[0].doc] else []) + Meant(n, ins[1..], route)
  }

  /** Where the node is after the insertions ahead of it. */
  function Moved(n: Node, ins: seq<Insertion>, route: seq<nat>): seq<nat>
    requires IsRoute(n, route)
    decreases |route|
  {
    if route == [] then []
    else
      var c := n.kids[route[0]];
      [|Here(ins)| + route[0]] + Moved(c, Down(c, ins), route[1..])
  }

  lemma {:induction false} MeantHere(n: Node, ins: seq<Insertion>)
    ensures Meant(n, ins, []) == Here(ins)
  {
    if ins != [] {
      MeantHere(n, ins[1..]);
    }
  }

  lemma {:induction false} MeantBelow(n: Node, ins: seq<Insertion>, route: seq<nat>)
    requires IsRoute(n, route) && route != []
    ensures var c := n.kids[route[0]]; Meant(n, ins, route) == Meant(c, Down(c, ins), route[1..])
  {
    if ins != [] {
      var c := n.kids[route[0]];
      hide Hits;
      MeantBelow(n, ins[1..], route);
      if ins[0].path != [] && Hits(c, ins[0].path[0]) {
        var i := Insertion(ins[0].path[1..], ins[0].doc);
        assert Down(c, ins) == [i] + Down(c, ins[1..]);
        assert ([i] + Down(c, ins[1..]))[1..] == Down(c, ins[1..]);
        assert LeadsTo(n, route, ins[0].path) == LeadsTo(c, route[1..], i.path);
      } else {
        assert Down(c, ins) == Down(c, ins[1..]);
      }
    }
  }

  /** Every node of the document keeps its tag, its attributes and its children,
      and gets exactly the documents meant for it, in order, ahead of them. */
  lemma {:induction false} EveryTargetGetsItsDocs(n: Node, ins: seq<Insertion>, route: seq<nat>)
    requires IsRoute(n, route)
    ensures IsRoute(Annotate(n, ins), Moved(n, ins, route))
    ensures var was, now, docs :=
        NodeAt(n, route), NodeAt(Annotate(n, ins), Moved(n, ins, route)), Meant(n, ins, route);
      && now.tag == was.tag && now.attrs == was.attrs
      && |now.kids| == |docs| + |was.kids| && now.kids[..|docs|] == docs
    decreases |route|
  {
    if route == [] {
      MeantHere(n, ins);
    } else {
      var c := n.kids[route[0]];
      MeantBelow(n, ins, route);
      EveryTargetGetsItsDocs(c, Down(c, ins), route[1..]);
      var n' := Annotate(n, ins);
      assert n'.kids[|Here(ins)| + route[0]] == Annotate(c, Down(c, ins));
      var r' := Moved(n, ins, route);
      assert r'[1..] == Moved(c, Down(c, ins), route[1..]);
      hide Annotate, Meant, Down, Here;
    }
  }

  /** The whole transfer: build the trie, apply it once. */
  lemma OnePassTransfers(n: Node, ins: seq<Insertion>)
    requires Exclusive(n, Build(ins)) && NoDocs(n) && AllDocs(ins)
    ensures Apply(n, Build(ins)) == Annotate(n, ins)
    ensures StripDocs(Apply(n, Build(ins))) == n
  {
    BuildHolds(ins);
    ApplyIsAnnotate(n, Build(ins), ins);
    ErasingRestores(n, ins);
  }
}
