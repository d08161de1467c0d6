/** What the doc elements in the universal starting group change: they may come
    first in every complex type, and nothing else changes. */
module XsdDocs {
  import opened Xml
  import opened ContentModel
  import opened XsdPlugin
  import opened XsdMeaning

  predicate AllDocs(w: Word) {
    forall i :: 0 <= i < |w| ==> w[i] == "doc"
  }

  /** Any number of doc elements. */
  ghost const DOCS: Language := iset w: Word | AllDocs(w)

  ghost function WithGroup(r: Reading, l: Language): Reading {
    Reading(g => if g == USG then l else r.groups(g), r.other)
  }

  // ----- the group definition -----

  lemma {:induction false} DocPower(k: nat, w: Word)
    ensures w in Power(iset{["doc"]}, k) <==> AllDocs(w) && |w| == k
  {
    if k > 0 {
      var d: Language := iset{["doc"]};
      if w in Power(d, k) {
        var u, v := CatSplit(d, Power(d, k - 1), w);
        DocPower(k - 1, v);
      }
      if AllDocs(w) && |w| == k {
        DocPower(k - 1, w[1..]);
        CatIntro(d, Power(d, k - 1), ["doc"], w[1..]);
        assert w == ["doc"] + w[1..];
      }
    }
  }

  lemma DocStar()
    ensures Occurring(iset{["doc"]}, 0, Unbounded) == DOCS
  {
    var d: Language := iset{["doc"]};
    hide Power;
    forall w ensures w in Occurring(d, 0, Unbounded) <==> w in DOCS {
      if AllDocs(w) {
        DocPower(|w|, w);
        assert Repeats(d, 0, Unbounded, w, |w|);
      }
      if w in Occurring(d, 0, Unbounded) {
        var k :| Repeats(d, 0, Unbounded, w, k);
        DocPower(k, w);
      }
    }
  }

  /** The group definition with its doc element allows exactly any number of
      doc elements. */
  lemma GroupIsDocs(r: Reading)
    ensures FirstSequence(Definition().kids) < |Definition().kids|
    ensures Explicit(WithDoc(Definition()).kids, r) == DOCS
  {
    var kids := WithDoc(Definition()).kids;
    DefinitionKids();
    LeadIs(kids, 1);
    DocSequence(r);
    hide *;
    ExplicitSequence(kids, 1, r);
  }

  /** The content that a leading sequence stands for is its particle's. */
  lemma ExplicitSequence(kids: seq<Node>, i: nat, r: Reading)
    requires Lead(kids) == i < |kids| && kids[i].tag == "sequence"
    ensures Explicit(kids, r) == Particle(kids[i], r)
  {
    hide Particle, Lead;
  }

  lemma DocSequence(r: Reading)
    ensures Sequence([DocElement()]).tag == "sequence" && Particle(Sequence([DocElement()]), r) == DOCS
  {
    DocParticle(r);
    OnlyParticle(DocElement(), r);
    SequenceOnce([DocElement()], r);
    hide InOrder, Particle;
  }

  lemma DefinitionKids()
    ensures FirstSequence(Definition().kids) == 1 && |Definition().kids| == 2
    ensures WithDoc(Definition()).kids
      == [Node("annotation", map[], []), Sequence([DocElement()])]
  {
    var kids := Definition().kids;
    assert kids[1..] == [Sequence([])] && FirstSequence(kids[1..]) == 0;
    assert [DocElement()] + [] == [DocElement()];
  }

  lemma DocParticle(r: Reading)
    ensures Particle(DocElement(), r) == DOCS
  {
    assert Number("0") == 0 by { assert "0"[..0] == ""; }
    assert Min(DocElement()) == 0 && Max(DocElement()) == Unbounded;
    DocStar();
    assert Term(DocElement(), r) == iset{["doc"]};
    hide Occurring, Number;
  }

  // ----- a schema that does not know the group yet -----

  predicate Fresh(n: Node)
    decreases n
  {
    && !(n.tag == "group" && Attr(n, "ref", "") == USG)
    && forall k :: k in n.kids ==> Fresh(k)
  }

  predicate AllFresh(kids: seq<Node>) {
    forall k :: k in kids ==> Fresh(k)
  }

  /** Content that does not mention the group does not depend on it. */
  lemma {:induction false} FreshParticle(n: Node, r: Reading, l: Language)
    requires Fresh(n)
    ensures Particle(n, WithGroup(r, l)) == Particle(n, r)
    ensures Term(n, WithGroup(r, l)) == Term(n, r)
    decreases n, 1
  {
    FreshInOrder(n.kids, r, l);
    FreshOneOf(n.kids, r, l);
    hide Occurring, InOrder, OneOf;
  }

  lemma {:induction false} FreshInOrder(kids: seq<Node>, r: Reading, l: Language)
    requires AllFresh(kids)
    ensures InOrder(kids, WithGroup(r, l)) == InOrder(kids, r)
    decreases kids, 2
  {
    if kids != [] {
      FreshParticle(kids[0], r, l);
      FreshInOrder(kids[1..], r, l);
      hide Cat, Particle;
    }
  }

  lemma {:induction false} FreshOneOf(kids: seq<Node>, r: Reading, l: Language)
    requires AllFresh(kids)
    ensures OneOf(kids, WithGroup(r, l)) == OneOf(kids, r)
    decreases kids, 2
  {
    if kids != [] {
      FreshParticle(kids[0], r, l);
      FreshOneOf(kids[1..], r, l);
      hide Particle;
    }
  }

  lemma FreshExplicit(kids: seq<Node>, r: Reading, l: Language)
    requires AllFresh(kids)
    ensures Explicit(kids, WithGroup(r, l)) == Explicit(kids, r)
  {
    var i := Lead(kids);
    if i < |kids| && IsModelGroup(kids[i].tag) {
      FreshParticle(kids[i], r, l);
    }
  }

  lemma FreshExtension(t: Node)
    requires Fresh(t) && IsExtension(t)
    ensures AllFresh(Extension(t).kids)
  {
    var cc := t.kids[Lead(t.kids)];
    assert Fresh(cc) && Fresh(cc.kids[Lead(cc.kids)]);
  }

  /** The old content models do not depend on what the group stands for. */
  lemma {:induction false} FreshEffective(chain: seq<Node>, r: Reading, l: Language)
    requires chain != [] && Linked(chain) && AllFresh(chain)
    ensures Effective(chain, WithGroup(r, l)) == Effective(chain, r)
  {
    assert chain[0] in chain && Fresh(chain[0]);
    if |chain| == 1 {
      FreshExplicit(chain[0].kids, r, l);
    } else {
      assert Extends(chain[0], chain[1]);
      var rest := Tail(chain);
      assert AllFresh(rest);
      FreshEffective(rest, r, l);
      FreshExtension(chain[0]);
      FreshExplicit(Extension(chain[0]).kids, r, l);
      hide Cat, Explicit, WithGroup;
    }
  }

  lemma FreshFront(t: Node)
    requires Fresh(t) && InsertInType(t).Ok? && !Untouched(t)
    ensures AllFresh(t.kids) && AllFresh(Front(t).kids) && !StartsWith(Front(t))
  {
    var i := Lead(t.kids);
    if i < |t.kids| {
      assert t.kids[i] in t.kids;
    }
    forall k | k in Front(t).kids ensures Fresh(k) {
    }
    if Front(t).kids != [] {
      assert Fresh(Front(t).kids[0]);
    }
  }

  /** The two contents of a type that is not derived. */
  lemma DocsContent(t: Node, r: Reading)
    requires Fresh(t) && InsertInType(t).Ok? && !Untouched(t) && r.groups(USG) == DOCS
    ensures var f := Front(t); var l := InOrder(f.kids, r);
      && Explicit(t.kids, r) == Occurring(l, Min(f), Max(f))
      && Explicit(InsertInType(t).value.kids, r)
         == Occurring(Cat(DOCS, l), Min(f), Max(f))
  {
    FreshFront(t);
    ContentIsFront(t, r);
    RewrittenContent(t, r);
    FrontOf(t);
    hide InsertInType, InsertInSequence, Front, Explicit, InOrder, Occurring, Min, Max, Cat;
    InsertedParticle(Front(t), r);
  }

  // ----- erasing the doc elements -----

  function Erase(w: Word): Word {
    if w == [] then [] else Kept(w[0]) + Erase(w[1..])
  }

  function Kept(name: string): Word {
    if name == "doc" then [] else [name]
  }

  lemma {:induction false} EraseCat(u: Word, v: Word)
    ensures Erase(u + v) == Erase(u) + Erase(v)
  {
    hide *;
    if u == [] {
      NoWord();
      assert u + v == v;
    } else {
      EraseCat(u[1..], v);
      EraseFirst(u[0], u[1..] + v);
      EraseFirst(u[0], u[1..]);
      assert u + v == [u[0]] + (u[1..] + v) && [u[0]] + u[1..] == u;
    }
  }

  lemma NoWord()
    ensures Erase([]) == []
  {
  }

  lemma EraseFirst(name: string, w: Word)
    ensures Erase([name] + w) == Kept(name) + Erase(w)
  {
    assert ([name] + w)[1..] == w;
  }

  lemma {:induction false} EraseDocs(w: Word)
    requires AllDocs(w)
    ensures Erase(w) == []
  {
    if w != [] {
      EraseDocs(w[1..]);
    }
  }

  predicate DocFree(w: Word) {
    "doc" !in w
  }

  lemma {:induction false} EraseNothing(w: Word)
    ensures DocFree(Erase(w)) && (DocFree(w) ==> Erase(w) == w)
  {
    if w != [] {
      assert DocFree(w) ==> w[0] in w && DocFree(w[1..]);
      EraseNothing(w[1..]);
      assert w == [w[0]] + w[1..];
      EraseFirst(w[0], w[1..]);
      hide Erase;
    }
  }

  ghost predicate HasErased(b: Language, w: Word) {
    exists v :: v in b && Erase(v) == Erase(w)
  }

  /** Apart from doc elements, a allows nothing that b does not. */
  ghost predicate ErasesInto(a: Language, b: Language) {
    forall w :: w in a ==> HasErased(b, w)
  }

  /** What a allowed stays allowed, and apart from doc elements nothing is new. */
  ghost predicate Widened(a: Language, a': Language) {
    a <= a' && ErasesInto(a', a)
  }

  lemma CatWidens(a: Language, b: Language, a': Language, b': Language)
    requires Widened(a, a') && Widened(b, b')
    ensures Widened(Cat(a, b), Cat(a', b'))
  {
    CatMonotone(a, a', b, b');
    hide Cat, Erase;
    forall w | w in Cat(a', b') ensures HasErased(Cat(a, b), w) {
      var u, v := CatSplit(a', b', w);
      assert HasErased(a, u) && HasErased(b, v);
      var x :| x in a && Erase(x) == Erase(u);
      var y :| y in b && Erase(y) == Erase(v);
      EraseCat(x, y);
      EraseCat(u, v);
      CatIntro(a, b, x, y);
    }
  }

  lemma DocsWiden(a: Language)
    ensures Widened(a, Cat(DOCS, a))
  {
    hide Cat;
    forall w | w in Cat(DOCS, a) ensures HasErased(a, w) {
      var u, v := CatSplit(DOCS, a, w);
      EraseDocs(u);
      EraseCat(u, v);
    }
    forall w | w in a ensures w in Cat(DOCS, a) {
      CatIntro(DOCS, a, [], w);
      assert [] + w == w;
    }
  }

  lemma {:induction false} PowerWidens(a: Language, a': Language, k: nat)
    requires Widened(a, a')
    ensures Widened(Power(a, k), Power(a', k))
  {
    if k == 0 {
      SameWidens(EPS);
    } else {
      PowerWidens(a, a', k - 1);
      CatWidens(a, Power(a, k - 1), a', Power(a', k - 1));
    }
    hide Cat, Widened;
  }

  lemma OccurringWidens(a: Language, a': Language, min: nat, max: Bound)
    requires Widened(a, a')
    ensures Widened(Occurring(a, min, max), Occurring(a', min, max))
  {
    hide Power, Erase;
    forall w | w in Occurring(a', min, max) ensures HasErased(Occurring(a, min, max), w) {
      var k :| Repeats(a', min, max, w, k);
      PowerWidens(a, a', k);
      assert HasErased(Power(a, k), w);
      var v :| v in Power(a, k) && Erase(v) == Erase(w);
      assert Repeats(a, min, max, v, k);
    }
    forall w | w in Occurring(a, min, max) ensures w in Occurring(a', min, max) {
      var k :| Repeats(a, min, max, w, k);
      PowerWidens(a, a', k);
      assert Repeats(a', min, max, w, k);
    }
  }

  lemma SameWidens(a: Language)
    ensures Widened(a, a)
  {
  }

  lemma WidensTwice(a: Language, b: Language, c: Language)
    requires Widened(a, b) && Widened(b, c)
    ensures Widened(a, c)
  {
    hide HasErased;
    forall w | w in c ensures HasErased(a, w) {
      assert HasErased(b, w);
      ErasedTwice(a, b, w);
    }
  }

  lemma ErasedTwice(a: Language, b: Language, w: Word)
    requires ErasesInto(b, a) && HasErased(b, w)
    ensures HasErased(a, w)
  {
    hide Erase;
    var v :| v in b && Erase(v) == Erase(w);
    assert HasErased(a, v);
  }

  /** Every content stays allowed, and erasing the doc elements of an allowed
      content gives one that was allowed before, through any chain of
      extensions. */
  lemma {:induction false} DocsKeepTheRest(chain: seq<Node>, r: Reading)
    requires Supported(chain) && AllFresh(chain) && r.groups(USG) == DOCS
    ensures Linked(RewrittenChain(chain))
    ensures Widened(Effective(chain, r), Effective(RewrittenChain(chain), r))
  {
    ChainContent(chain, r);
    if |chain| == 1 {
      DocsKeepTheRestOfOne(chain[0], r);
    } else {
      SupportedTail(chain);
      DocsKeepTheRest(chain[1..], r);
      var more := Explicit(Extension(chain[0]).kids, r);
      var a, a' := Effective(chain[1..], r), Effective(RewrittenChain(chain[1..]), r);
      SameWidens(more);
      hide Cat, Widened, Explicit;
      CatWidens(a, more, a', more);
    }
  }

  lemma DocsKeepTheRestOfOne(t: Node, r: Reading)
    requires Fresh(t) && InsertInType(t).Ok? && r.groups(USG) == DOCS
    ensures Widened(Explicit(t.kids, r), Explicit(InsertInType(t).value.kids, r))
  {
    FrontOf(t);
    if Untouched(t) {
      SameWidens(Explicit(t.kids, r));
    } else {
      DocsContent(t, r);
      var f := Front(t);
      DocsWiden(InOrder(f.kids, r));
      OccurringWidens(InOrder(f.kids, r), Cat(DOCS, InOrder(f.kids, r)), Min(f), Max(f));
    }
  }

  /** For content models without doc elements of their own. */
  lemma NothingElseIsAllowed(chain: seq<Node>, r: Reading, w: Word)
    requires Supported(chain) && AllFresh(chain) && Linked(RewrittenChain(chain))
    requires r.groups(USG) == DOCS
    requires forall v :: v in Effective(chain, r) ==> DocFree(v)
    requires w in Effective(RewrittenChain(chain), r)
    ensures Erase(w) in Effective(chain, r)
  {
    DocsKeepTheRest(chain, r);
    hide Effective, Erase;
    assert HasErased(Effective(chain, r), w);
    var v :| v in Effective(chain, r) && Erase(v) == Erase(w);
    EraseNothing(v);
  }

  // ----- doc elements in front -----

  predicate FrontOccursOnce(t: Node) {
    !Untouched(t) && Min(Front(t)) == 1 && Max(Front(t)) == AtMost(1)
  }

  /** With the default occurrence of the leading sequence of the base type, the
      content is any number of doc elements and then the old content. */
  lemma {:induction false} DocsThenTheRest(chain: seq<Node>, r: Reading)
    requires Supported(chain) && AllFresh(chain) && FrontOccursOnce(Base(chain))
    requires r.groups(USG) == DOCS
    ensures Linked(RewrittenChain(chain))
    ensures Effective(RewrittenChain(chain), r) == Cat(DOCS, Effective(chain, r))
  {
    ChainContent(chain, r);
    if |chain| == 1 {
      DocsContent(chain[0], r);
      var l := InOrder(Front(chain[0]).kids, r);
      OccursOnce(l);
      OccursOnce(Cat(DOCS, l));
    } else {
      SupportedTail(chain);
      DocsThenTheRest(chain[1..], r);
      CatAssoc(DOCS, Effective(chain[1..], r), Explicit(Extension(chain[0]).kids, r));
      hide Cat, Explicit;
    }
  }

  /** What a schema author can check about the leading sequence. */
  ghost predicate AlwaysOccurs(min: nat, max: Bound, l: Language) {
    min >= 1 || (max != AtMost(0) && [] in l)
  }

  lemma DocsInFront(l: Language, p: Language, p': Language, d: Word, v: Word)
    requires p <= p' && d in DOCS && v in Cat(l, p)
    ensures d + v in Cat(Cat(DOCS, l), p')
  {
    hide Cat;
    var v1, v2 := CatSplit(l, p, v);
    CatIntro(DOCS, l, d, v1);
    CatIntro(Cat(DOCS, l), p', d + v1, v2);
    assert d + v == (d + v1) + v2;
  }

  lemma FirstOccurrence(l: Language, k: nat, d: Word, v: Word)
    requires k > 0 && d in DOCS && v in Power(l, k)
    ensures d + v in Power(Cat(DOCS, l), k)
  {
    hide Cat, Power, ErasesInto;
    DocsWiden(l);
    PowerWidens(l, Cat(DOCS, l), k - 1);
    PowerStep(l, k);
    PowerStep(Cat(DOCS, l), k);
    DocsInFront(l, Power(l, k - 1), Power(Cat(DOCS, l), k - 1), d, v);
  }

  lemma PowerStep(a: Language, k: nat)
    requires k > 0
    ensures Power(a, k) == Cat(a, Power(a, k - 1))
  {
  }

  lemma DocsFit(l: Language, min: nat, max: Bound, w: Word)
    requires AlwaysOccurs(min, max, l) && w in Cat(DOCS, Occurring(l, min, max))
    ensures w in Occurring(Cat(DOCS, l), min, max)
  {
    hide Cat, Power;
    var d, v := CatSplit(DOCS, Occurring(l, min, max), w);
    var k :| Repeats(l, min, max, v, k);
    if k > 0 {
      FirstOccurrence(l, k, d, v);
      assert Repeats(Cat(DOCS, l), min, max, w, k);
    } else {
      PowerZeroOne(l);
      PowerZeroOne(Cat(DOCS, l));
      assert v == [] && d + v == d && d + [] == d;
      CatIntro(DOCS, l, d, []);
      assert Repeats(Cat(DOCS, l), min, max, w, 1);
    }
  }

  lemma PowerZeroOne(a: Language)
    ensures Power(a, 0) == EPS && Power(a, 1) == a
  {
    CatEps(a);
    hide Cat;
    assert Power(a, 1) == Cat(a, Power(a, 0));
  }

  lemma NoDocAlone(l: Language, k: nat)
    requires [] !in l && forall w :: w in l ==> DocFree(w)
    ensures ["doc"] !in Power(Cat(DOCS, l), k)
  {
    hide Cat;
    var a := Cat(DOCS, l);
    if k > 0 && ["doc"] in Power(a, k) {
      assert Power(a, k) == Cat(a, Power(a, k - 1));
      var u, rest := CatSplit(a, Power(a, k - 1), ["doc"]);
      var d, v := CatSplit(DOCS, l, u);
      OneWord(d, v, rest);
      assert false;
    }
  }

  lemma OneWord(d: Word, v: Word, rest: Word)
    ensures d + v + rest == ["doc"] ==> v == [] || !DocFree(v)
  {
    if d + v + rest == ["doc"] && v != [] {
      assert (d + v + rest)[|d|] == v[0];
    }
  }

  lemma DocsDoNotFit(l: Language, min: nat, max: Bound)
    requires !AlwaysOccurs(min, max, l) && forall w :: w in l ==> DocFree(w)
    ensures ["doc"] in Cat(DOCS, Occurring(l, min, max))
    ensures ["doc"] !in Occurring(Cat(DOCS, l), min, max)
  {
    hide Cat, Power;
    PowerZeroOne(l);
    PowerZeroOne(Cat(DOCS, l));
    assert Repeats(l, min, max, [], 0);
    assert AllDocs(["doc"]) && ["doc"] + [] == ["doc"];
    CatIntro(DOCS, Occurring(l, min, max), ["doc"], []);
    if ["doc"] in Occurring(Cat(DOCS, l), min, max) {
      var k :| Repeats(Cat(DOCS, l), min, max, ["doc"], k);
      if max != AtMost(0) {
        NoDocAlone(l, k);
      }
      assert false;
    }
  }

  // ----- exactly when doc elements may come first -----

  /** What the extensions of a chain add to the content of its base type. */
  ghost function Added(chain: seq<Node>, r: Reading): Language
    requires chain != [] && Linked(chain)
  {
    if |chain| == 1 then EPS
    else
      assert Extends(chain[0], chain[1]);
      Cat(Added(Tail(chain), r), Explicit(Extension(chain[0]).kids, r))
  }

  function Tail(chain: seq<Node>): (c: seq<Node>)
    requires |chain| > 1 && Linked(chain)
    ensures c == chain[1..] && Linked(c)
  {
    assert forall i :: 0 <= i < |chain| - 2 ==> Extends(chain[1..][i], chain[i + 2]);
    chain[1..]
  }

  /** The content of a chain is that of its base type and then what is added; the
      rewriting changes the first part only. */
  lemma {:induction false} ChainParts(chain: seq<Node>, r: Reading)
    requires Supported(chain)
    ensures Linked(RewrittenChain(chain))
    ensures Effective(chain, r) == Cat(Explicit(Base(chain).kids, r), Added(chain, r))
    ensures Effective(RewrittenChain(chain), r)
      == Cat(Explicit(InsertInType(Base(chain)).value.kids, r), Added(chain, r))
  {
    ChainContent(chain, r);
    var before, after := Explicit(Base(chain).kids, r), Explicit(InsertInType(Base(chain)).value.kids, r);
    if |chain| == 1 {
      CatEps(before);
      CatEps(after);
    } else {
      SupportedTail(chain);
      ChainParts(chain[1..], r);
      var more := Explicit(Extension(chain[0]).kids, r);
      CatAssoc(before, Added(chain[1..], r), more);
      CatAssoc(after, Added(chain[1..], r), more);
      hide Cat, Explicit, InsertInType;
    }
  }

  lemma {:induction false} ShortestWord(m: Language, w: Word) returns (s: Word)
    requires w in m
    ensures s in m && forall v :: v in m ==> |s| <= |v|
    decreases |w|
  {
    if v :| v in m && |v| < |w| {
      s := ShortestWord(m, v);
    } else {
      s := w;
    }
  }

  /** A word of the content that does not fit any more with a doc in front. */
  lemma DocBlocksWord(a: Language, a': Language, m: Language, w: Word)
    requires [] in a && ["doc"] !in a' && w in m
    requires forall v :: v in m ==> DocFree(v) && |w| <= |v|
    ensures ["doc"] + w in Cat(DOCS, Cat(a, m)) && ["doc"] + w !in Cat(a', m)
  {
    hide Cat;
    var word := ["doc"] + w;
    assert AllDocs(["doc"]) && [] + w == w;
    CatIntro(a, m, [], w);
    CatIntro(DOCS, Cat(a, m), ["doc"], w);
    if word in Cat(a', m) {
      var u, v := CatSplit(a', m, word);
      FirstIsDoc(u, v, w);
      assert false;
    }
  }

  lemma FirstIsDoc(u: Word, v: Word, w: Word)
    requires u + v == ["doc"] + w && DocFree(v) && |w| <= |v|
    ensures u == ["doc"]
  {
    var word := ["doc"] + w;
    assert (u + v)[0] == word[0] == "doc";
    assert u == [] ==> u + v == v;
    assert u == (u + v)[..|u|] == word[..|u|];
  }

  lemma EmptyAfter(a: Language, m: Language)
    requires m == iset{}
    ensures Cat(a, m) == iset{}
  {
  }

  /** Exactly when doc elements may come first in the content of a type, through
      any chain of extensions: the leading sequence of the base type must always
      occur, unless the extensions leave no content at all. */
  lemma DocsFirstExactlyWhenItOccurs(chain: seq<Node>, r: Reading)
    requires Supported(chain) && Fresh(Base(chain)) && !Untouched(Base(chain)) && r.groups(USG) == DOCS
    requires forall w :: w in InOrder(Front(Base(chain)).kids, r) ==> DocFree(w)
    requires forall w :: w in Added(chain, r) ==> DocFree(w)
    ensures Linked(RewrittenChain(chain))
    ensures var f := Front(Base(chain));
      Cat(DOCS, Effective(chain, r)) <= Effective(RewrittenChain(chain), r)
      <==> AlwaysOccurs(Min(f), Max(f), InOrder(f.kids, r)) || Added(chain, r) == iset{}
  {
    var f, m := Front(Base(chain)), Added(chain, r);
    var l, min, max := InOrder(f.kids, r), Min(f), Max(f);
    ChainParts(chain, r);
    DocsContent(Base(chain), r);
    hide *;
    DocsFitExactly(l, min, max, m);
  }

  lemma DocsFitExactly(l: Language, min: nat, max: Bound, m: Language)
    requires forall w :: w in l ==> DocFree(w)
    requires forall w :: w in m ==> DocFree(w)
    ensures Cat(DOCS, Cat(Occurring(l, min, max), m)) <= Cat(Occurring(Cat(DOCS, l), min, max), m)
      <==> AlwaysOccurs(min, max, l) || m == iset{}
  {
    var a, a' := Occurring(l, min, max), Occurring(Cat(DOCS, l), min, max);
    if m == iset{} {
      EmptyAfter(a, m);
      EmptyAfter(DOCS, Cat(a, m));
    } else if AlwaysOccurs(min, max, l) {
      forall w | w in Cat(DOCS, a) ensures w in a' {
        DocsFit(l, min, max, w);
      }
      CatAssoc(DOCS, a, m);
      CatMonotone(Cat(DOCS, a), a', m, m);
    } else {
      DocsDoNotFit(l, min, max);
      PowerZeroOne(l);
      assert Repeats(l, min, max, [], 0);
      var w :| w in m;
      var s := ShortestWord(m, w);
      DocBlocksWord(a, a', m, s);
    }
    hide Cat, Power;
  }

  // ----- another meaning of the groups -----

  /** Every group allows what it did, and apart from doc elements nothing new. */
  ghost predicate Widens(r: Reading, r': Reading) {
    && (forall g :: Widened(r.groups(g), r'.groups(g)))
    && forall n :: r'.other(n) == r.other(n)
  }

  /** Whatever particles a content model consists of, it is then widened too. */
  lemma {:induction false} ParticleWidens(n: Node, r: Reading, r': Reading)
    requires Widens(r, r')
    ensures Widened(Particle(n, r), Particle(n, r'))
    decreases n, 1
  {
    hide Widened;
    if n.tag == "element" {
      SameWidens(Term(n, r));
    } else if n.tag == "sequence" {
      InOrderWidens(n.kids, r, r');
    } else if n.tag == "choice" {
      OneOfWidens(n.kids, r, r');
    } else if n.tag != "group" {
      SameWidens(r.other(n));
    }
    assert Widened(Term(n, r), Term(n, r'));
    OccurringWidens(Term(n, r), Term(n, r'), Min(n), Max(n));
    hide Occurring, Min, Max;
  }

  lemma {:induction false} InOrderWidens(kids: seq<Node>, r: Reading, r': Reading)
    requires Widens(r, r')
    ensures Widened(InOrder(kids, r), InOrder(kids, r'))
    decreases kids, 2
  {
    if kids == [] {
      SameWidens(EPS);
    } else {
      ParticleWidens(kids[0], r, r');
      InOrderWidens(kids[1..], r, r');
      CatWidens(Particle(kids[0], r), InOrder(kids[1..], r), Particle(kids[0], r'), InOrder(kids[1..], r'));
    }
    hide Cat, Particle, Widened, Widens;
  }

  lemma {:induction false} OneOfWidens(kids: seq<Node>, r: Reading, r': Reading)
    requires Widens(r, r')
    ensures Widened(OneOf(kids, r), OneOf(kids, r'))
    decreases kids, 2
  {
    if kids == [] {
      SameWidens(iset{});
    } else {
      ParticleWidens(kids[0], r, r');
      OneOfWidens(kids[1..], r, r');
      UnionWidens(Particle(kids[0], r), OneOf(kids[1..], r), Particle(kids[0], r'), OneOf(kids[1..], r'));
    }
    hide Particle, Widened, Widens;
  }

  lemma UnionWidens(a: Language, b: Language, a': Language, b': Language)
    requires Widened(a, a') && Widened(b, b')
    ensures Widened(a + b, a' + b')
  {
    hide Erase;
    forall w | w in a' + b' ensures HasErased(a + b, w) {
      assert HasErased(a, w) || HasErased(b, w);
    }
  }

  lemma ExplicitWidens(kids: seq<Node>, r: Reading, r': Reading)
    requires Widens(r, r')
    ensures Widened(Explicit(kids, r), Explicit(kids, r'))
  {
    var i := Lead(kids);
    if i < |kids| && IsModelGroup(kids[i].tag) {
      ParticleWidens(kids[i], r, r');
    } else {
      SameWidens(EPS);
    }
    hide Particle, Widened, Widens;
  }

  lemma {:induction false} EffectiveWidens(chain: seq<Node>, r: Reading, r': Reading)
    requires chain != [] && Linked(chain) && Widens(r, r')
    ensures Widened(Effective(chain, r), Effective(chain, r'))
  {
    if |chain| == 1 {
      ExplicitWidens(chain[0].kids, r, r');
    } else {
      assert Extends(chain[0], chain[1]);
      var rest, more := Tail(chain), Extension(chain[0]).kids;
      EffectiveWidens(rest, r, r');
      ExplicitWidens(more, r, r');
      CatWidens(Effective(rest, r), Explicit(more, r), Effective(rest, r'), Explicit(more, r'));
      hide Cat, Explicit, Widened, Widens;
    }
  }
}
