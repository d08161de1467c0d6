/** What the schema plug-ins do to the content models: the languages of all
    complex types before and after. */
module XsdMeaning {
  import opened Xml
  import opened ContentModel
  import opened XsdPlugin

  // ----- a type that is not derived -----

  lemma Default(n: Node)
    requires "minOccurs" !in n.attrs && "maxOccurs" !in n.attrs
    ensures Min(n) == 1 && Max(n) == AtMost(1)
  {
    assert "1"[..0] == "";
    assert Number("1") == Number("1"[..0]) * 10 + 1;
  }

  /** The content of a type is that of its front sequence. */
  lemma ContentIsFront(t: Node, r: Reading)
    requires InsertInType(t).Ok? && !Untouched(t)
    ensures Explicit(t.kids, r) == Particle(Front(t), r)
  {
    hide Particle, InOrder, Lead, InsertInSequence, ReplaceAt;
    var i := Lead(t.kids);
    if i == |t.kids| || t.kids[i].tag in {"attribute", "attributeGroup"} {
      SequenceOnce([], r);
    } else if t.kids[i].tag != "sequence" {
      SequenceOnce([t.kids[i]], r);
      OnlyParticle(t.kids[i], r);
    }
  }

  lemma SequenceOnce(kids: seq<Node>, r: Reading)
    ensures Particle(Sequence(kids), r) == InOrder(kids, r) && InOrder([], r) == EPS
  {
    Default(Sequence(kids));
    OccursOnce(InOrder(kids, r));
    hide Min, Max, Occurring;
  }

  lemma OnlyParticle(n: Node, r: Reading)
    requires n.tag != "annotation"
    ensures InOrder([n], r) == Particle(n, r)
  {
    CatEps(Particle(n, r));
    hide Particle, Cat;
    var kids := [n];
    assert kids[1..] == [] && InOrder(kids[1..], r) == EPS;
    assert InOrder(kids, r) == Cat(Particle(kids[0], r), InOrder(kids[1..], r));
  }

  lemma RewrittenContent(t: Node, r: Reading)
    requires InsertInType(t).Ok? && !Untouched(t)
    ensures Explicit(InsertInType(t).value.kids, r) == Particle(InsertInSequence(Front(t)), r)
    ensures !IsDerived(InsertInType(t).value)
  {
    FrontOf(t);
    StartsWithRef(Front(t));
    var t', i := InsertInType(t).value, Lead(t.kids);
    forall k | 0 <= k < i ensures t'.kids[k].tag == "annotation" {
      assert t'.kids[k] == t'.kids[..i][k] == t.kids[..i][k] == t.kids[k];
    }
    LeadIs(t'.kids, i);
    hide InsertInType, InsertInSequence, Front, Particle;
  }

  predicate StartsWith(n: Node) {
    n.kids != [] && IsStartRef(n.kids[0])
  }

  /** The group's content comes first, inside the occurrences of the sequence. */
  lemma InsertedParticle(n: Node, r: Reading)
    requires n.tag == "sequence" && !StartsWith(n)
    ensures Particle(InsertInSequence(n), r)
      == Occurring(Cat(r.groups(USG), InOrder(n.kids, r)), Min(n), Max(n))
  {
    Default(StartRef());
    OccursOnce(r.groups(USG));
    var n' := InsertInSequence(n);
    assert n'.kids[1..] == n.kids;
    assert InOrder(n'.kids, r) == Cat(Particle(StartRef(), r), InOrder(n.kids, r));
    assert Particle(StartRef(), r) == r.groups(USG);
  }

  lemma EmptyGroupInFront(n: Node, r: Reading)
    requires n.tag == "sequence" && r.groups(USG) == EPS
    ensures Particle(InsertInSequence(n), r) == Particle(n, r)
  {
    hide Cat, Occurring, InOrder, Number, Min, Max;
    assert Term(n, r) == InOrder(n.kids, r);
    if StartsWith(n) {
      assert InsertInSequence(n) == n;
    } else {
      hide InsertInSequence;
      InsertedParticle(n, r);
      CatEps(InOrder(n.kids, r));
    }
  }

  /** With the empty group the content of every type stays what it was. */
  lemma EmptyGroupKeepsContent(t: Node, r: Reading)
    requires InsertInType(t).Ok? && r.groups(USG) == EPS
    ensures Explicit(InsertInType(t).value.kids, r) == Explicit(t.kids, r)
  {
    FrontOf(t);
    hide InsertInType, InsertInSequence, Front, Particle, Explicit, Lead;
    if !Untouched(t) {
      ContentIsFront(t, r);
      RewrittenContent(t, r);
      EmptyGroupInFront(Front(t), r);
    }
  }

  // ----- extension chains -----

  function RewrittenChain(chain: seq<Node>): (c: seq<Node>)
    ensures |c| == |chain|
    ensures forall i :: 0 <= i < |c| ==> c[i] == RewrittenNode(chain[i])
  {
    seq(|chain|, i requires 0 <= i < |chain| => RewrittenNode(chain[i]))
  }

  lemma RewrittenExtends(t: Node, base: Node)
    requires Extends(t, base)
    ensures Extends(RewrittenNode(t), RewrittenNode(base)) && RewrittenNode(t) == t
  {
    if base.tag == "complexType" && InsertInType(base).Ok? {
      FrontOf(base);
    }
    if t.tag == "complexType" && InsertInType(t).Ok? {
      FrontOf(t);
    }
  }

  predicate Linked(chain: seq<Node>) {
    forall i :: 0 <= i < |chain| - 1 ==> Extends(chain[i], chain[i + 1])
  }

  lemma RewrittenLinked(chain: seq<Node>)
    requires Linked(chain)
    ensures Linked(RewrittenChain(chain))
  {
    var chain' := RewrittenChain(chain);
    forall i | 0 <= i < |chain'| - 1 ensures Extends(chain'[i], chain'[i + 1]) {
      RewrittenExtends(chain[i], chain[i + 1]);
    }
  }

  lemma NotDerived(t: Node)
    requires InsertInType(t).Ok? && !IsDerived(t)
    ensures !IsDerived(InsertInType(t).value)
  {
    FrontOf(t);
    if !Untouched(t) {
      RewrittenContent(t, Reading(_ => EPS, _ => EPS));
    }
  }

  lemma TypeCarriesOver(schema: seq<Node>, t: Node)
    requires Rewritten(schema).Ok? && t in schema && t.tag == "complexType"
    ensures InsertInType(t).Ok? && RewrittenNode(t) == InsertInType(t).value
    ensures RewrittenNode(t) in Rewritten(schema).value && RewrittenNode(t).tag == "complexType"
  {
    var k :| 0 <= k < |schema| && schema[k] == t;
    RewrittenAt(schema, k);
    FrontOf(t);
    hide InsertInType, Rewritten;
  }

  /** The base chain of a rewritten type consists of the rewritten types. */
  lemma ChainsCarryOver(schema: seq<Node>, chain: seq<Node>, schema': seq<Node>)
    requires Rewritten(schema).Ok? && IsChain(schema, chain)
    requires forall n :: n in Rewritten(schema).value && n.tag == "complexType" ==> n in schema'
    ensures IsChain(schema', RewrittenChain(chain))
    ensures forall i :: 0 <= i < |chain| ==> InsertInType(chain[i]).Ok?
  {
    var chain' := RewrittenChain(chain);
    RewrittenLinked(chain);
    forall i | 0 <= i < |chain|
      ensures InsertInType(chain[i]).Ok? && chain'[i] in schema' && chain'[i].tag == "complexType"
    {
      TypeCarriesOver(schema, chain[i]);
    }
    var last := chain[|chain| - 1];
    NotDerived(last);
    hide Rewritten, Untouched, RewrittenNode, InsertInType, IsDerived, Extends;
  }

  ghost predicate Supported(chain: seq<Node>) {
    && chain != [] && Linked(chain)
    && (forall i :: 0 <= i < |chain| ==> chain[i].tag == "complexType" && InsertInType(chain[i]).Ok?)
  }

  function Base(chain: seq<Node>): Node
    requires chain != []
  {
    chain[|chain| - 1]
  }

  /** Only the content of the base type of a chain changes. */
  lemma {:induction false} ChainContent(chain: seq<Node>, r: Reading)
    requires Supported(chain)
    ensures Linked(RewrittenChain(chain))
    ensures |chain| == 1 ==>
      Effective(RewrittenChain(chain), r) == Explicit(InsertInType(chain[0]).value.kids, r)
    ensures |chain| > 1 ==>
      Effective(RewrittenChain(chain), r)
      == Cat(Effective(RewrittenChain(chain[1..]), r), Explicit(Extension(chain[0]).kids, r))
  {
    RewrittenLinked(chain);
    if |chain| > 1 {
      assert Extends(chain[0], chain[1]);
      RewrittenExtends(chain[0], chain[1]);
      assert RewrittenChain(chain)[1..] == RewrittenChain(chain[1..]);
    }
  }

  lemma SupportedTail(chain: seq<Node>)
    requires Supported(chain) && |chain| > 1
    ensures Supported(chain[1..]) && Base(chain[1..]) == Base(chain)
    ensures Extends(chain[0], chain[1])
  {
    var c := chain[1..];
    forall i | 0 <= i < |c| - 1 ensures Extends(c[i], c[i + 1]) {
      assert Extends(chain[i + 1], chain[i + 2]);
    }
  }

  /** The empty universal group changes no content model, through any chain of
      extensions. */
  lemma {:induction false} EmptyGroupKeepsEffective(chain: seq<Node>, r: Reading)
    requires Supported(chain) && r.groups(USG) == EPS
    ensures Linked(RewrittenChain(chain))
    ensures Effective(RewrittenChain(chain), r) == Effective(chain, r)
  {
    ChainContent(chain, r);
    if |chain| == 1 {
      EmptyGroupKeepsContent(chain[0], r);
    } else {
      SupportedTail(chain);
      EmptyGroupKeepsEffective(chain[1..], r);
    }
  }
}
