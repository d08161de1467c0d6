/** Content models of XML Schema complex types as languages of element names
    (W3C XML Schema Part 1: Structures, sections 3.4.2, 3.8 and 3.9). */
module ContentModel {
  import opened Xml

  type Word = seq<string>
  type Language = iset<Word>

  function Attr(n: Node, name: string, default: string): string {
    if name in n.attrs then n.attrs[name] else default
  }

  // ----- languages -----

  /** Only the empty content. */
  const EPS: Language := iset{[]}

  ghost function Cat(a: Language, b: Language): Language {
    iset w: Word | exists i :: 0 <= i <= |w| && w[..i] in a && w[i..] in b
  }

  ghost function Power(a: Language, k: nat): Language {
    if k == 0 then EPS else Cat(a, Power(a, k - 1))
  }

  datatype Bound = AtMost(n: nat) | Unbounded

  predicate Within(k: nat, max: Bound) {
    max.AtMost? ==> k <= max.n
  }

  ghost predicate Occurs(a: Language, min: nat, max: Bound, w: Word) {
    exists k :: Repeats(a, min, max, w, k)
  }

  ghost predicate Repeats(a: Language, min: nat, max: Bound, w: Word, k: nat) {
    min <= k && Within(k, max) && w in Power(a, k)
  }

  /** Between min and max occurrences (section 3.9). */
  ghost function Occurring(a: Language, min: nat, max: Bound): Language {
    iset w: Word | Occurs(a, min, max, w)
  }

  lemma CatIntro(a: Language, b: Language, u: Word, v: Word)
    requires u in a && v in b
    ensures u + v in Cat(a, b)
  {
    assert (u + v)[..|u|] == u && (u + v)[|u|..] == v;
  }

  lemma CatSplit(a: Language, b: Language, w: Word) returns (u: Word, v: Word)
    requires w in Cat(a, b)
    ensures w == u + v && u in a && v in b
  {
    var i :| 0 <= i <= |w| && w[..i] in a && w[i..] in b;
    u, v := w[..i], w[i..];
  }

  lemma CatEps(a: Language)
    ensures Cat(EPS, a) == a && Cat(a, EPS) == a
  {
    hide Cat;
    forall w ensures w in Cat(EPS, a) <==> w in a {
      CatEpsAt(a, w);
    }
    forall w ensures w in Cat(a, EPS) <==> w in a {
      CatEpsAt(a, w);
    }
  }

  lemma CatEpsAt(a: Language, w: Word)
    ensures w in Cat(EPS, a) <==> w in a
    ensures w in Cat(a, EPS) <==> w in a
  {
    hide Cat;
    assert [] + w == w && w + [] == w;
    if w in a {
      CatIntro(EPS, a, [], w);
      CatIntro(a, EPS, w, []);
    }
    if w in Cat(EPS, a) {
      var u, v := CatSplit(EPS, a, w);
      assert u + v == v;
    }
    if w in Cat(a, EPS) {
      var u, v := CatSplit(a, EPS, w);
      assert u + [] == u;
    }
  }

  lemma CatAssoc(a: Language, b: Language, c: Language)
    ensures Cat(Cat(a, b), c) == Cat(a, Cat(b, c))
  {
    hide Cat;
    forall w ensures w in Cat(Cat(a, b), c) <==> w in Cat(a, Cat(b, c)) {
      if w in Cat(Cat(a, b), c) {
        var uv, x := CatSplit(Cat(a, b), c, w);
        var u, v := CatSplit(a, b, uv);
        CatIntro(b, c, v, x);
        CatIntro(a, Cat(b, c), u, v + x);
        assert u + (v + x) == w;
      }
      if w in Cat(a, Cat(b, c)) {
        var u, vx := CatSplit(a, Cat(b, c), w);
        var v, x := CatSplit(b, c, vx);
        CatIntro(a, b, u, v);
        CatIntro(Cat(a, b), c, u + v, x);
        assert (u + v) + x == w;
      }
    }
  }

  lemma CatMonotone(a: Language, a': Language, b: Language, b': Language)
    requires a <= a' && b <= b'
    ensures Cat(a, b) <= Cat(a', b')
  {
    hide Cat;
    forall w | w in Cat(a, b) ensures w in Cat(a', b') {
      var u, v := CatSplit(a, b, w);
      CatIntro(a', b', u, v);
    }
  }

  /** One occurrence, the default. */
  lemma OccursOnce(a: Language)
    ensures Occurring(a, 1, AtMost(1)) == a
  {
    CatEps(a);
    hide Cat;
    assert Power(a, 1) == Cat(a, Power(a, 0));
    forall w ensures w in Occurring(a, 1, AtMost(1)) <==> w in a {
      if w in a {
        assert Repeats(a, 1, AtMost(1), w, 1);
      }
    }
  }

  // ----- the meaning of particles -----

  /** What group references and the particles without structure stand for. */
  datatype Reading = Reading(groups: string -> Language, other: Node -> Language)

  function Number(s: string): nat {
    if s == [] then 0
    else Number(s[..|s| - 1]) * 10
         + (var c := s[|s| - 1]; if '0' <= c <= '9' then (c as int) - ('0' as int) else 0)
  }

  function Min(n: Node): nat {
    Number(Attr(n, "minOccurs", "1"))
  }

  function Max(n: Node): Bound {
    var max := Attr(n, "maxOccurs", "1");
    if max == "unbounded" then Unbounded else AtMost(Number(max))
  }

  function ElementName(n: Node): string {
    if "ref" in n.attrs then n.attrs["ref"] else Attr(n, "name", "")
  }

  ghost function Particle(n: Node, r: Reading): Language
    decreases n, 1
  {
    Occurring(Term(n, r), Min(n), Max(n))
  }

  ghost function Term(n: Node, r: Reading): Language
    decreases n, 0
  {
    if n.tag == "element" then iset{[ElementName(n)]}
    else if n.tag == "group" then r.groups(Attr(n, "ref", ""))
    else if n.tag == "sequence" then InOrder(n.kids, r)
    else if n.tag == "choice" then OneOf(n.kids, r)
    else r.other(n)
  }

  ghost function InOrder(kids: seq<Node>, r: Reading): Language
    decreases kids, 2
  {
    if kids == [] then EPS
    else if kids[0].tag == "annotation" then InOrder(kids[1..], r)
    else Cat(Particle(kids[0], r), InOrder(kids[1..], r))
  }

  ghost function OneOf(kids: seq<Node>, r: Reading): Language
    decreases kids, 2
  {
    if kids == [] then iset{}
    else if kids[0].tag == "annotation" then OneOf(kids[1..], r)
    else Particle(kids[0], r) + OneOf(kids[1..], r)
  }

  // ----- the meaning of complex types -----

  /** The first child that is not an annotation, or the number of children. */
  function Lead(kids: seq<Node>): (i: nat)
    ensures i <= |kids|
    ensures forall k :: 0 <= k < i ==> kids[k].tag == "annotation"
    ensures i < |kids| ==> kids[i].tag != "annotation"
  {
    if kids == [] || kids[0].tag != "annotation" then 0 else 1 + Lead(kids[1..])
  }

  predicate IsModelGroup(tag: string) {
    tag in {"sequence", "choice", "group", "all"}
  }

  /** The explicit content: the language of the leading model group, if any. */
  ghost function Explicit(kids: seq<Node>, r: Reading): Language {
    var i := Lead(kids);
    if i < |kids| && IsModelGroup(kids[i].tag) then Particle(kids[i], r) else EPS
  }

  /** Derivation by extension of another complex type. */
  predicate IsExtension(t: Node) {
    var i := Lead(t.kids);
    && i < |t.kids| && t.kids[i].tag == "complexContent"
    && var d := Lead(t.kids[i].kids);
       d < |t.kids[i].kids| && t.kids[i].kids[d].tag == "extension"
  }

  function Extension(t: Node): Node
    requires IsExtension(t)
  {
    var cc := t.kids[Lead(t.kids)];
    cc.kids[Lead(cc.kids)]
  }

  predicate IsDerived(t: Node) {
    var i := Lead(t.kids);
    i < |t.kids| && t.kids[i].tag == "complexContent"
  }

  /** A complex type of the schema, the type it extends, and so on up to a type
      that is not derived. */
  ghost predicate IsChain(schema: seq<Node>, chain: seq<Node>) {
    && chain != []
    && (forall i :: 0 <= i < |chain| ==> chain[i] in schema && chain[i].tag == "complexType")
    && (forall i :: 0 <= i < |chain| - 1 ==> Extends(chain[i], chain[i + 1]))
    && !IsDerived(chain[|chain| - 1])
  }

  predicate Extends(t: Node, base: Node) {
    && IsExtension(t)
    && "base" in Extension(t).attrs && "name" in base.attrs
    && Extension(t).attrs["base"] == base.attrs["name"]
  }

  /** The effective content of the first type of a chain (section 3.4.2): the
      content of the base type followed by the explicit content. */
  ghost function Effective(chain: seq<Node>, r: Reading): Language
    requires chain != []
    requires forall i :: 0 <= i < |chain| - 1 ==> Extends(chain[i], chain[i + 1])
  {
    if |chain| == 1 then Explicit(chain[0].kids, r)
    else
      assert Extends(chain[0], chain[1]);
      assert forall i :: 0 <= i < |chain| - 2 ==> Extends(chain[1..][i], chain[i + 2]);
      Cat(Effective(chain[1..], r), Explicit(Extension(chain[0]).kids, r))
  }

  /** The reading gives every defined group the language of its model group. */
  ghost predicate Reads(r: Reading, schema: seq<Node>) {
    forall n :: n in schema && n.tag == "group" && "name" in n.attrs ==>
      r.groups(n.attrs["name"]) == Explicit(n.kids, r)
  }
}
