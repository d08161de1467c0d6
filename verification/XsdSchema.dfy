/** The plug-in on whole schema documents. */
module XsdSchema {
  import opened Wrappers
  import opened Xml
  import opened ContentModel
  import opened XsdPlugin
  import opened XsdMeaning
  import opened XsdDocs

  // ----- the document after the plug-in -----

  function AddedTypes(kids: seq<Node>): seq<Node> {
    if TypeDefined([Definition()] + kids) then [] else [DocumentationType(), DocTypeType()]
  }

  function ResultFrom(rewritten: seq<Node>): seq<Node> {
    AddedTypes(rewritten) + [WithDoc(Defined())] + rewritten
  }

  function Defined(): (d: Node)
    ensures FirstSequence(d.kids) < |d.kids|
  {
    DefinitionKids();
    Definition()
  }

  lemma RewrittenNotUsg(kids: seq<Node>)
    requires Rewritten(kids).Ok? && !UsgDefined(kids)
    ensures !UsgDefined(Rewritten(kids).value)
  {
    var kids' := Rewritten(kids).value;
    forall n | n in kids' ensures !IsUsg(n) {
      if kids != [] {
        RewrittenAt(kids, 0);
      }
      var i :| 0 <= i < |kids'| && kids'[i] == n;
      RewrittenAt(kids, i);
      assert kids[i] in kids;
    }
  }

  lemma {:induction false} RewrittenLength(kids: seq<Node>)
    requires Rewritten(kids).Ok?
    ensures |Rewritten(kids).value| == |kids|
  {
    if kids != [] {
      RewrittenAt(kids, 0);
    }
  }

  predicate OnlyUsgAt(kids: seq<Node>, j: nat) {
    j < |kids| && IsUsg(kids[j]) && forall k :: 0 <= k < |kids| && k != j ==> !IsUsg(kids[k])
  }

  lemma DocsOfOnly(kids: seq<Node>, j: nat)
    requires OnlyUsgAt(kids, j)
    ensures DocInUsg(kids) <==> HoldsDoc(kids[j])
    ensures InsertDoc(kids).Ok? <==> FirstSequence(kids[j].kids) < |kids[j].kids|
    ensures InsertDoc(kids).Ok? ==> InsertDoc(kids) == Ok(kids[j := WithDoc(kids[j])])
  {
    hide HoldsDoc, FirstSequence, InsertDoc;
    assert forall k :: 0 <= k < |kids| && k != j ==> !TakesDoc(kids[k]);
    InsertDocAt(kids, if TakesDoc(kids[j]) then j else |kids|);
  }

  lemma TypedResult(rw: seq<Node>)
    requires !UsgDefined(rw)
    ensures var typed, j := WithType([Definition()] + rw), |AddedTypes(rw)|;
      && OnlyUsgAt(typed, j) && typed[j] == Definition() && !HoldsDoc(Definition())
      && typed[j := WithDoc(Defined())] == ResultFrom(rw)
  {
    var pre := AddedTypes(rw);
    assert WithType([Definition()] + rw) == pre + [Definition()] + rw;
    assert forall n :: n in pre ==> !IsUsg(n);
    hide WithDoc, TypeDefined;
  }

  lemma ResultShape(kids: seq<Node>)
    requires !UsgDefined(kids)
    ensures Rewritten(kids).Err? ==> AddDocumentation(kids).Err?
    ensures Rewritten(kids).Ok? ==> AddDocumentation(kids) == Ok(ResultFrom(Rewritten(kids).value))
  {
    if Rewritten(kids).Ok? {
      var rw := Rewritten(kids).value;
      RewrittenNotUsg(kids);
      DefinitionKids();
      hide Rewritten, FirstSequence, HoldsDoc, OnlyUsgAt, WithType, WithDoc, InsertDoc, DocInUsg, Definition,
        AddedTypes, ResultFrom, UsgDefined;
      TypedResult(rw);
      DocsOfOnly(WithType([Definition()] + rw), |AddedTypes(rw)|);
    }
  }

  /** A definition of the group in front of the rewritten children. */
  ghost predicate Prefixes(pre: seq<Node>, d: Node) {
    && (forall n :: n in pre ==> n.tag != "group")
    && d.tag == "group" && "name" in d.attrs && d.attrs["name"] == USG
  }

  lemma ReadsBack(kids: seq<Node>, pre: seq<Node>, d: Node, r: Reading)
    requires !UsgDefined(kids) && Rewritten(kids).Ok? && Prefixes(pre, d)
    requires Reads(r, pre + [d] + Rewritten(kids).value)
    ensures Reads(r, kids) && r.groups(USG) == Explicit(d.kids, r)
  {
    var rw := Rewritten(kids).value;
    var result := pre + [d] + rw;
    assert result[|pre|] == d;
    RewrittenLength(kids);
    hide Explicit, Rewritten;
    forall n | n in kids && n.tag == "group" && "name" in n.attrs
      ensures r.groups(n.attrs["name"]) == Explicit(n.kids, r)
    {
      var i :| 0 <= i < |kids| && kids[i] == n;
      RewrittenAt(kids, i);
      assert rw[i] == n && n in result;
    }
  }

  lemma ReadsOn(kids: seq<Node>, pre: seq<Node>, d: Node, r: Reading)
    requires Rewritten(kids).Ok? && Prefixes(pre, d)
    requires Reads(r, kids) && r.groups(USG) == Explicit(d.kids, r)
    ensures Reads(r, pre + [d] + Rewritten(kids).value)
  {
    var rw := Rewritten(kids).value;
    RewrittenLength(kids);
    hide Explicit, Rewritten;
    forall n | n in pre + [d] + rw && n.tag == "group" && "name" in n.attrs
      ensures r.groups(n.attrs["name"]) == Explicit(n.kids, r)
    {
      if n != d {
        assert n in rw;
        var i :| 0 <= i < |rw| && rw[i] == n;
        RewrittenAt(kids, i);
        RewrittenTag(kids[i]);
      }
    }
  }

  /** A reading of the result is a reading of the schema before, in which the
      group stands for any number of doc elements. */
  lemma ReadingsOfResult(kids: seq<Node>, r: Reading)
    requires !UsgDefined(kids) && Rewritten(kids).Ok?
    ensures Reads(r, ResultFrom(Rewritten(kids).value)) <==> Reads(r, kids) && r.groups(USG) == DOCS
  {
    var rw := Rewritten(kids).value;
    var pre, d := AddedTypes(rw), WithDoc(Defined());
    GroupIsDocs(r);
    assert Prefixes(pre, d);
    assert ResultFrom(rw) == pre + [d] + rw;
    hide *;
    if Reads(r, ResultFrom(rw)) {
      ReadsBack(kids, pre, d, r);
    }
    if Reads(r, kids) && r.groups(USG) == DOCS {
      ReadsOn(kids, pre, d, r);
    }
  }

  lemma RewrittenTag(n: Node)
    ensures RewrittenNode(n).tag == n.tag
    ensures n.tag != "complexType" ==> RewrittenNode(n) == n
  {
    if InsertInType(n).Ok? {
      FrontOf(n);
    }
  }

  lemma ChainsOfResult(kids: seq<Node>, chain: seq<Node>)
    requires Rewritten(kids).Ok? && IsChain(kids, chain)
    ensures IsChain(ResultFrom(Rewritten(kids).value), RewrittenChain(chain)) && Supported(chain)
  {
    ChainsCarryOver(kids, chain, ResultFrom(Rewritten(kids).value));
    hide Rewritten, InsertInType, IsDerived, Extends, RewrittenChain;
  }

  /** Every complex type of the schema, with the types it extends: what was
      allowed stays allowed, what is allowed was allowed apart from doc
      elements, and doc elements may come first. */
  lemma PluginMeaning(kids: seq<Node>, chain: seq<Node>, r: Reading)
    requires !UsgDefined(kids) && AllFresh(kids) && IsChain(kids, chain)
    requires AddDocumentation(kids).Ok? && Reads(r, AddDocumentation(kids).value)
    ensures Reads(r, kids)
    ensures IsChain(AddDocumentation(kids).value, RewrittenChain(chain))
    ensures var before, after := Effective(chain, r), Effective(RewrittenChain(chain), r);
      && Widened(before, after)
      && (FrontOccursOnce(Base(chain)) ==> after == Cat(DOCS, before))
  {
    ResultShape(kids);
    ReadingsOfResult(kids, r);
    ChainsOfResult(kids, chain);
    hide Rewritten, InsertInType, IsDerived, Extends, RewrittenChain, Effective, Front, Untouched,
      AddDocumentation, ResultFrom, Fresh;
    DocsKeepTheRest(chain, r);
    if FrontOccursOnce(Base(chain)) {
      DocsThenTheRest(chain, r);
    }
  }

  /** The reading exists: take one of the schema before and let the group stand
      for doc elements. The old content models keep their meaning. */
  lemma ReadingExists(kids: seq<Node>, r: Reading)
    requires !UsgDefined(kids) && AllFresh(kids)
    requires AddDocumentation(kids).Ok? && Reads(r, kids)
    ensures Reads(WithGroup(r, DOCS), AddDocumentation(kids).value)
    ensures forall chain :: IsChain(kids, chain) ==>
      Effective(chain, WithGroup(r, DOCS)) == Effective(chain, r)
  {
    ResultShape(kids);
    var r' := WithGroup(r, DOCS);
    hide Rewritten, AddDocumentation, ResultFrom, Effective, Explicit;
    forall n | n in kids && n.tag == "group" && "name" in n.attrs
      ensures r'.groups(n.attrs["name"]) == Explicit(n.kids, r')
    {
      assert Fresh(n) && !IsUsg(n);
      FreshExplicit(n.kids, r, DOCS);
    }
    ReadingsOfResult(kids, r');
    hide Reads, AllFresh, UsgDefined;
    forall chain | IsChain(kids, chain) ensures Effective(chain, r') == Effective(chain, r) {
      OldChain(kids, chain, r);
    }
  }

  lemma OldChain(kids: seq<Node>, chain: seq<Node>, r: Reading)
    requires AllFresh(kids) && IsChain(kids, chain)
    ensures Effective(chain, WithGroup(r, DOCS)) == Effective(chain, r)
  {
    ChainLinked(kids, chain);
    FreshChain(kids, chain);
    FreshEffective(chain, r, DOCS);
    hide Effective;
  }

  lemma FreshChain(kids: seq<Node>, chain: seq<Node>)
    requires AllFresh(kids) && IsChain(kids, chain)
    ensures AllFresh(chain)
  {
  }

  /** Without doc elements nothing changes at all. */
  lemma EmptyGroupMeaning(kids: seq<Node>, chain: seq<Node>, r: Reading)
    requires !UsgDefined(kids) && IsChain(kids, chain) && WithUsg(kids).Ok?
    ensures Reads(r, WithUsg(kids).value) <==> Reads(r, kids) && r.groups(USG) == EPS
    ensures IsChain(WithUsg(kids).value, RewrittenChain(chain))
    ensures r.groups(USG) == EPS ==> Effective(RewrittenChain(chain), r) == Effective(chain, r)
  {
    ChainsCarryOver(kids, chain, WithUsg(kids).value);
    GroupReadings(kids, r);
    hide Rewritten, InsertInType, IsDerived, Extends, RewrittenChain, WithUsg, Reads;
    if r.groups(USG) == EPS {
      EmptyGroupKeepsEffective(chain, r);
    }
  }

  lemma EmptyDefinition(r: Reading)
    ensures Explicit(Definition().kids, r) == EPS
  {
    LeadIs(Definition().kids, 1);
    Default(Sequence([]));
    assert InOrder([], r) == EPS;
    OccursOnce(EPS);
  }

  lemma WithUsgShape(kids: seq<Node>)
    requires WithUsg(kids).Ok?
    ensures Rewritten(kids).Ok? && Prefixes([], Definition())
    ensures [] + [Definition()] + Rewritten(kids).value == WithUsg(kids).value
  {
    hide Rewritten;
  }

  lemma GroupReadings(kids: seq<Node>, r: Reading)
    requires !UsgDefined(kids) && WithUsg(kids).Ok?
    ensures Reads(r, WithUsg(kids).value) <==> Reads(r, kids) && r.groups(USG) == EPS
  {
    hide *;
    EmptyDefinition(r);
    WithUsgShape(kids);
    if Reads(r, WithUsg(kids).value) {
      ReadsBack(kids, [], Definition(), r);
    }
    if Reads(r, kids) && r.groups(USG) == EPS {
      ReadsOn(kids, [], Definition(), r);
    }
  }

  // ----- a document that defines the group already -----

  /** The only definition of the group, which does not refer to itself. */
  predicate IsTheGroup(kids: seq<Node>, i: nat) {
    && i < |kids| && IsUsg(kids[i]) && AllFresh(kids[i].kids)
    && forall k :: 0 <= k < |kids| && k != i ==> !IsUsg(kids[k])
  }

  predicate Extendable(d: Node) {
    HoldsDoc(d) || FirstSequence(d.kids) < |d.kids|
  }

  function NewDefinition(d: Node): Node
    requires Extendable(d)
  {
    if HoldsDoc(d) then d else WithDoc(d)
  }

  function NewTypes(kids: seq<Node>): seq<Node> {
    if TypeDefined(kids) then [] else [DocumentationType(), DocTypeType()]
  }

  function ExtendedFrom(kids: seq<Node>, i: nat): seq<Node>
    requires i < |kids| && Extendable(kids[i])
  {
    NewTypes(kids) + kids[i := NewDefinition(kids[i])]
  }

  lemma TypedKids(kids: seq<Node>, i: nat, d: Node)
    requires IsTheGroup(kids, i)
    ensures var typed, j := NewTypes(kids) + kids, |NewTypes(kids)| + i;
      && WithType(kids) == typed && UsgDefined(kids) && OnlyUsgAt(typed, j) && typed[j] == kids[i]
      && typed[j := d] == NewTypes(kids) + kids[i := d]
  {
    hide TypeDefined;
    assert NewTypes(kids) + kids == if NewTypes(kids) == [] then kids else NewTypes(kids) + kids;
  }

  /** The guard's other branch: no type is rewritten, only the definition is
      extended. */
  lemma ExtendedShape(kids: seq<Node>, i: nat)
    requires IsTheGroup(kids, i)
    ensures AddDocumentation(kids).Ok? <==> Extendable(kids[i])
    ensures Extendable(kids[i]) ==> AddDocumentation(kids) == Ok(ExtendedFrom(kids, i))
  {
    hide HoldsDoc, FirstSequence, TypeDefined, InsertDoc, UsgDefined, DocInUsg, IsUsg, OnlyUsgAt, WithDoc,
      WithType, NewTypes, WithUsg, Fresh;
    var d := kids[i];
    TypedKids(kids, i, if Extendable(d) then NewDefinition(d) else d);
    TypedKids(kids, i, d);
    DocsOfOnly(WithType(kids), |NewTypes(kids)| + i);
    assert kids[i := kids[i]] == kids;
  }

  predicate LeadsOnce(d: Node) {
    var i := Lead(d.kids);
    i < |d.kids| && d.kids[i].tag == "sequence" && Min(d.kids[i]) == 1 && Max(d.kids[i]) == AtMost(1)
  }

  function DocAhead(s: Node): Node {
    s.(kids := [DocElement()] + s.kids)
  }

  lemma DocFirst(s: Node, r: Reading)
    requires s.tag == "sequence"
    ensures Particle(DocAhead(s), r) == Occurring(Cat(DOCS, InOrder(s.kids, r)), Min(s), Max(s))
  {
    var s' := DocAhead(s);
    DocParticle(r);
    assert s'.kids[1..] == s.kids && s'.kids[0] == DocElement();
    assert InOrder(s'.kids, r) == Cat(Particle(DocElement(), r), InOrder(s.kids, r));
    assert Min(s') == Min(s) && Max(s') == Max(s);
    hide Cat, Occurring, Min, Max, InOrder;
  }

  lemma SequenceWidens(s: Node, r: Reading)
    requires s.tag == "sequence"
    ensures Widened(Particle(s, r), Particle(DocAhead(s), r))
    ensures Min(s) == 1 && Max(s) == AtMost(1) ==> Particle(DocAhead(s), r) == Cat(DOCS, Particle(s, r))
  {
    var l := InOrder(s.kids, r);
    assert Particle(s, r) == Occurring(l, Min(s), Max(s));
    DocFirst(s, r);
    hide *;
    DocsWiden(l);
    OccurringWidens(l, Cat(DOCS, l), Min(s), Max(s));
    OccursOnce(l);
    OccursOnce(Cat(DOCS, l));
  }

  /** The doc element widens what the group stands for. */
  lemma DefinitionWidens(d: Node, r: Reading)
    requires FirstSequence(d.kids) < |d.kids|
    ensures Widened(Explicit(d.kids, r), Explicit(WithDoc(d).kids, r))
    ensures LeadsOnce(d) ==> Explicit(WithDoc(d).kids, r) == Cat(DOCS, Explicit(d.kids, r))
  {
    hide Cat, Particle, Min, Max, Widened;
    var kids, i, lead := d.kids, FirstSequence(d.kids), Lead(d.kids);
    var kids' := kids[i := DocAhead(kids[i])];
    assert WithDoc(d).kids == kids';
    LeadIs(kids', lead);
    SameWidens(Explicit(kids, r));
    SequenceWidens(kids[i], r);
    assert lead < |kids| && kids[lead].tag == "sequence" ==> lead == i;
    hide Lead, FirstSequence, WithDoc;
  }

  lemma NewDefinitionWidens(d: Node, r: Reading)
    requires Extendable(d)
    ensures Widened(Explicit(d.kids, r), Explicit(NewDefinition(d).kids, r))
    ensures !HoldsDoc(d) && LeadsOnce(d) ==>
      Explicit(NewDefinition(d).kids, r) == Cat(DOCS, Explicit(d.kids, r))
  {
    hide Explicit, Widened, Cat, LeadsOnce;
    if HoldsDoc(d) {
      SameWidens(Explicit(d.kids, r));
    } else {
      DefinitionWidens(d, r);
    }
  }

  lemma ExtendedReads(kids: seq<Node>, i: nat, r: Reading, r': Reading)
    requires IsTheGroup(kids, i) && Extendable(kids[i])
    requires Reads(r, kids) && Reads(r', ExtendedFrom(kids, i))
    ensures AllFresh(kids[i].kids) && r.groups(USG) == Explicit(kids[i].kids, r)
    ensures r'.groups(USG) == Explicit(NewDefinition(kids[i]).kids, r')
  {
    var d' := NewDefinition(kids[i]);
    assert ExtendedFrom(kids, i)[|NewTypes(kids)| + i] == d' && IsUsg(d');
    hide Explicit;
  }

  lemma ExtendedChain(kids: seq<Node>, i: nat, chain: seq<Node>)
    requires IsTheGroup(kids, i) && Extendable(kids[i]) && IsChain(kids, chain)
    ensures IsChain(ExtendedFrom(kids, i), chain)
  {
    var out, pre := ExtendedFrom(kids, i), NewTypes(kids);
    forall k | 0 <= k < |chain| ensures chain[k] in out {
      var j :| 0 <= j < |kids| && kids[j] == chain[k];
      assert out[|pre| + j] == kids[j];
    }
    hide Extends, IsDerived;
  }

  /** A document that defines the group already, as after another plug-in: every
      complex type stays, what was allowed stays allowed, and what is allowed was
      allowed apart from doc elements. In the group itself doc elements come
      first, if its leading sequence has the default occurrence. */
  lemma ExtendedMeaning(kids: seq<Node>, i: nat, chain: seq<Node>, r: Reading, r': Reading)
    requires IsTheGroup(kids, i) && AddDocumentation(kids).Ok? && IsChain(kids, chain)
    requires Reads(r, kids) && Reads(r', AddDocumentation(kids).value)
    requires forall g :: g != USG ==> Widened(r.groups(g), r'.groups(g))
    requires forall n :: r'.other(n) == r.other(n)
    ensures IsChain(AddDocumentation(kids).value, chain)
    ensures Widened(Effective(chain, r), Effective(chain, r'))
    ensures !HoldsDoc(kids[i]) && LeadsOnce(kids[i]) ==>
      r'.groups(USG) == Cat(DOCS, Explicit(kids[i].kids, r'))
  {
    ExtendedShape(kids, i);
    hide *;
    ExtendedReads(kids, i, r, r');
    ExtendedChain(kids, i, chain);
    NewDefinitionWidens(kids[i], r');
    GroupWidens(kids[i].kids, r, r');
    WidensTwice(r.groups(USG), Explicit(kids[i].kids, r'), r'.groups(USG));
    WidensAll(r, r');
    ChainLinked(kids, chain);
    EffectiveWidens(chain, r, r');
  }

  lemma ChainLinked(kids: seq<Node>, chain: seq<Node>)
    requires IsChain(kids, chain)
    ensures chain != [] && Linked(chain)
  {
  }

  lemma WidensAll(r: Reading, r': Reading)
    requires forall g :: g != USG ==> Widened(r.groups(g), r'.groups(g))
    requires Widened(r.groups(USG), r'.groups(USG)) && forall n :: r'.other(n) == r.other(n)
    ensures Widens(r, r')
  {
  }

  /** What the definition stood for, if only the other groups are widened. */
  lemma GroupWidens(kids: seq<Node>, r: Reading, r': Reading)
    requires AllFresh(kids) && r.groups(USG) == Explicit(kids, r)
    requires forall g :: g != USG ==> Widened(r.groups(g), r'.groups(g))
    requires forall n :: r'.other(n) == r.other(n)
    ensures Widened(r.groups(USG), Explicit(kids, r'))
  {
    var between := WithGroup(r', r.groups(USG));
    SameWidens(r.groups(USG));
    FreshExplicit(kids, r', r.groups(USG));
    hide Explicit, Widened;
    WidensAll(r, between);
    ExplicitWidens(kids, r, between);
  }

  lemma NewDefinitionFresh(d: Node)
    requires Extendable(d) && AllFresh(d.kids)
    ensures AllFresh(NewDefinition(d).kids)
  {
    if !HoldsDoc(d) {
      var k := FirstSequence(d.kids);
      var s := d.kids[k];
      assert Fresh(DocElement()) && s in d.kids;
      var s' := s.(kids := [DocElement()] + s.kids);
      assert Fresh(s');
    }
  }

  /** Such a reading exists: change what the group stands for, and nothing else. */
  lemma ExtendedReadingExists(kids: seq<Node>, i: nat, r: Reading)
    requires IsTheGroup(kids, i) && AddDocumentation(kids).Ok? && Reads(r, kids)
    requires forall n :: n in kids && n.tag == "group" ==> AllFresh(n.kids)
    ensures Extendable(kids[i])
    ensures Reads(WithGroup(r, Explicit(NewDefinition(kids[i]).kids, r)), AddDocumentation(kids).value)
  {
    ExtendedShape(kids, i);
    var d' := NewDefinition(kids[i]);
    var l := Explicit(d'.kids, r);
    var r' := WithGroup(r, l);
    NewDefinitionFresh(kids[i]);
    hide Explicit, AddDocumentation;
    forall n | n in ExtendedFrom(kids, i) && n.tag == "group" && "name" in n.attrs
      ensures r'.groups(n.attrs["name"]) == Explicit(n.kids, r')
    {
      if n == d' {
        FreshExplicit(d'.kids, r, l);
      } else {
        OtherGroup(kids, i, n);
        FreshExplicit(n.kids, r, l);
      }
    }
    hide Extendable, NewDefinition;
  }

  lemma OtherGroup(kids: seq<Node>, i: nat, n: Node)
    requires IsTheGroup(kids, i) && Extendable(kids[i]) && n in ExtendedFrom(kids, i)
    requires n != NewDefinition(kids[i]) && n.tag == "group"
    ensures n in kids && !IsUsg(n)
  {
    hide Extendable, NewDefinition;
    var out, pre := ExtendedFrom(kids, i), NewTypes(kids);
    var k :| 0 <= k < |out| && out[k] == n;
    assert k >= |pre| && n == kids[k - |pre|] && k - |pre| != i;
  }

  // ----- one reference per chain -----

  function Refs(n: Node): nat
    decreases n, 1
  {
    (if n.tag == "group" && Attr(n, "ref", "") == USG then 1 else 0) + RefsIn(n.kids)
  }

  function RefsIn(kids: seq<Node>): nat
    decreases kids, 2
  {
    if kids == [] then 0 else Refs(kids[0]) + RefsIn(kids[1..])
  }

  lemma {:induction false} FreshRefs(n: Node)
    requires Fresh(n)
    ensures Refs(n) == 0
    decreases n, 1
  {
    FreshRefsIn(n.kids);
  }

  lemma {:induction false} FreshRefsIn(kids: seq<Node>)
    requires AllFresh(kids)
    ensures RefsIn(kids) == 0
    decreases kids, 2
  {
    if kids != [] {
      FreshRefs(kids[0]);
      FreshRefsIn(kids[1..]);
    }
  }

  lemma {:induction false} RefsCat(a: seq<Node>, b: seq<Node>)
    ensures RefsIn(a + b) == RefsIn(a) + RefsIn(b)
  {
    if a == [] {
      assert a + b == b;
    } else {
      RefsCat(a[1..], b);
      assert (a + b)[1..] == a[1..] + b;
    }
  }

  function LeadingGroup(kids: seq<Node>): seq<Node> {
    var i := Lead(kids);
    if i < |kids| && IsModelGroup(kids[i].tag) then [kids[i]] else []
  }

  /** The model groups of the effective content, the base type's first. */
  function Contents(chain: seq<Node>): seq<Node>
    requires chain != [] && Linked(chain)
  {
    if |chain| == 1 then LeadingGroup(chain[0].kids)
    else
      assert Extends(chain[0], chain[1]);
      assert Linked(chain[1..]) by { LinkedTail(chain); }
      Contents(chain[1..]) + LeadingGroup(Extension(chain[0]).kids)
  }

  lemma LinkedTail(chain: seq<Node>)
    requires chain != [] && Linked(chain)
    ensures Linked(chain[1..])
  {
    forall i | 0 <= i < |chain[1..]| - 1 ensures Extends(chain[1..][i], chain[1..][i + 1]) {
      assert Extends(chain[i + 1], chain[i + 2]);
    }
  }

  lemma RefsOfFront(t: Node)
    requires Fresh(t) && InsertInType(t).Ok? && !Untouched(t)
    ensures var c := LeadingGroup(InsertInType(t).value.kids);
      |c| == 1 && RefsIn(c) == 1 && StartsWith(c[0])
  {
    FreshFront(t);
    FrontOf(t);
    FreshRefsIn(Front(t).kids);
    StartsWithRef(Front(t));
    var t', i := InsertInType(t).value, Lead(t.kids);
    forall k | 0 <= k < i ensures t'.kids[k].tag == "annotation" {
      assert t'.kids[k] == t'.kids[..i][k] == t.kids[..i][k] == t.kids[k];
    }
    LeadIs(t'.kids, i);
    var s := InsertInSequence(Front(t));
    RefsOfInserted(Front(t));
    assert LeadingGroup(t'.kids) == [s];
    assert RefsIn([s]) == Refs(s) + RefsIn([s][1..]);
  }

  lemma RefsOfInserted(n: Node)
    requires n.tag == "sequence" && !StartsWith(n)
    ensures Refs(InsertInSequence(n)) == 1 + RefsIn(n.kids)
  {
    var s := InsertInSequence(n);
    assert s.kids[0] == StartRef() && s.kids[1..] == n.kids;
    assert Refs(StartRef()) == 1;
  }

  /** Along every chain of extensions the effective content holds exactly one
      reference to the group, at its very start. */
  lemma {:induction false} OneReferenceInFront(chain: seq<Node>)
    requires Supported(chain) && AllFresh(chain) && !Untouched(Base(chain))
    ensures Linked(RewrittenChain(chain))
    ensures var c := Contents(RewrittenChain(chain));
      c != [] && StartsWith(c[0]) && RefsIn(c) == 1
  {
    RewrittenLinked(chain);
    if |chain| == 1 {
      RefsOfFront(chain[0]);
    } else {
      SupportedTail(chain);
      OneReferenceInFront(chain[1..]);
      RewrittenExtends(chain[0], chain[1]);
      assert RewrittenChain(chain)[1..] == RewrittenChain(chain[1..]);
      var more := LeadingGroup(Extension(chain[0]).kids);
      FreshExtension(chain[0]);
      FreshRefsIn(more);
      RefsCat(Contents(RewrittenChain(chain[1..])), more);
    }
  }

  // ----- a second run -----

  lemma InsertDocKeeps(kids: seq<Node>)
    requires InsertDoc(kids).Ok?
    ensures var kids' := InsertDoc(kids).value;
      && DocInUsg(kids') && UsgDefined(kids')
      && (TypeDefined(kids) ==> TypeDefined(kids'))
  {
    var i := FirstTaking(kids);
    InsertDocAt(kids, i);
    var kids' := InsertDoc(kids).value;
    var n := kids[i];
    var n', k := WithDoc(n), FirstSequence(n.kids);
    assert kids'[i] == n' && IsUsg(n');
    assert n'.kids[k].kids[0] == DocElement() && n'.kids[k] in n'.kids;
    assert DocElement() in n'.kids[k].kids && IsNamed(DocElement(), "element", "doc");
    assert HoldsDoc(n');
    hide InsertDoc, WithDoc, FirstSequence;
    forall x | x in kids && x.tag != "group" ensures x in kids' {
      var j :| 0 <= j < |kids| && kids[j] == x;
      assert kids'[j] == x;
    }
  }

  lemma {:induction false} FirstTaking(kids: seq<Node>) returns (i: nat)
    requires InsertDoc(kids).Ok?
    ensures i < |kids| && TakesDoc(kids[i]) && forall k :: 0 <= k < i ==> !TakesDoc(kids[k])
  {
    if TakesDoc(kids[0]) {
      i := 0;
    } else {
      i := FirstTaking(kids[1..]);
      i := i + 1;
    }
  }

  lemma WithTypeDefines(kids: seq<Node>)
    ensures TypeDefined(WithType(kids))
    ensures UsgDefined(kids) ==> UsgDefined(WithType(kids))
  {
    var kids' := WithType(kids);
    if !TypeDefined(kids) {
      assert kids'[0] == DocumentationType() && kids'[1] == DocTypeType();
      assert IsNamed(kids'[0], "complexType", "documentationType");
      assert IsNamed(kids'[1], "simpleType", "docTypeType");
      forall n | n in kids ensures n in kids' {
      }
    }
  }

  /** The whole plug-in, run on its own output, changes nothing. */
  lemma PluginIsIdempotent(kids: seq<Node>)
    requires AddDocumentation(kids).Ok?
    ensures AddDocumentation(AddDocumentation(kids).value) == AddDocumentation(kids)
  {
    hide TypeDefined, UsgDefined, DocInUsg, WithType, InsertDoc, WithUsg;
    var grouped := if UsgDefined(kids) then Ok(kids) else WithUsg(kids);
    assert UsgDefined(grouped.value) by {
      if !UsgDefined(kids) {
        WithUsgDefines(kids);
      }
    }
    WithTypeDefines(grouped.value);
    var typed := WithType(grouped.value);
    if !DocInUsg(typed) {
      InsertDocKeeps(typed);
    }
    var out := AddDocumentation(kids).value;
    assert UsgDefined(out) && TypeDefined(out) && DocInUsg(out);
    TypeDefinedAlready(out);
  }

  lemma TypeDefinedAlready(kids: seq<Node>)
    ensures TypeDefined(kids) ==> WithType(kids) == kids
  {
  }

  lemma WithUsgDefines(kids: seq<Node>)
    requires WithUsg(kids).Ok?
    ensures UsgDefined(WithUsg(kids).value)
  {
    assert WithUsg(kids).value[0] == Definition() && IsUsg(Definition());
  }

  // ----- a type that does not take doc elements -----

  /** A type with an optional leading sequence of one element. */
  function OptionalContent(): Node {
    Node("complexType", map["name" := "t"], [
      Node("sequence", map["minOccurs" := "0"], [Node("element", map["name" := "a"], [])])])
  }

  lemma OneElement(name: string, r: Reading)
    ensures InOrder([Node("element", map["name" := name], [])], r) == iset{[name]}
  {
    hide Cat, Occurring, Power;
    var e := Node("element", map["name" := name], []);
    Default(e);
    OccursOnce(iset{[name]});
    CatEps(iset{[name]});
    assert Particle(e, r) == iset{[name]};
    assert [e][1..] == [];
    assert InOrder([e], r) == Cat(Particle(e, r), InOrder([], r));
  }

  lemma OptionalContentTakesNoDocs(r: Reading)
    requires r.groups(USG) == DOCS
    ensures InsertInType(OptionalContent()).Ok?
    ensures [] in Explicit(OptionalContent().kids, r)
    ensures ["doc"] !in Explicit(InsertInType(OptionalContent()).value.kids, r)
  {
    var t := OptionalContent();
    OptionalFront();
    OneElement("a", r);
    DocsContent(t, r);
    hide *;
    PowerZeroOne(iset{["a"]});
    NoDocsInOptional();
  }

  lemma OptionalFront()
    ensures var t := OptionalContent(); var f := Front(t);
      && InsertInType(t).Ok? && !Untouched(t) && Fresh(t)
      && f.kids == [Node("element", map["name" := "a"], [])]
      && Min(f) == 0 && Max(f) == AtMost(1)
  {
    var t := OptionalContent();
    var e := Node("element", map["name" := "a"], []);
    LeadIs(t.kids, 0);
    assert Number("0") == 0 by { assert "0"[..0] == ""; }
    assert Fresh(e) && Fresh(t.kids[0]);
    Max1(t.kids[0]);
  }

  lemma NoDocsInOptional()
    ensures [] in Occurring(iset{["a"]}, 0, AtMost(1))
    ensures ["doc"] !in Occurring(Cat(DOCS, iset{["a"]}), 0, AtMost(1))
  {
    var l: Language := iset{["a"]};
    PowerZeroOne(l);
    assert Repeats(l, 0, AtMost(1), [], 0);
    DocsDoNotFit(l, 0, AtMost(1));
    hide Cat, Power;
  }

  lemma Max1(n: Node)
    requires "maxOccurs" !in n.attrs
    ensures Max(n) == AtMost(1)
  {
    assert "1"[..0] == "";
    assert Number("1") == Number("1"[..0]) * 10 + 1;
  }
}
