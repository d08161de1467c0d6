/** The schema plug-ins: a reference to the universal starting group is put at
    the start of every complex type, and doc elements into that group. */
module XsdPlugin {
  import opened Wrappers
  import opened Xml
  import opened ContentModel

  datatype Error =
    | UnsupportedRestriction
    | UnsupportedTag(tag: string)
    | UnboundPrefix
    | NoSequence
    | UnknownPosition(position: string)

  const USG := "universal_starting_group"

  function StartRef(): Node {
    Node("group", map["ref" := USG], [])
  }

  /** What the comparison of the printed start tags decides: children are not
      looked at. */
  predicate IsStartRef(n: Node) {
    n.tag == "group" && n.attrs == map["ref" := USG]
  }

  // ----- the rewriting of one complex type -----

  function InsertInSequence(n: Node): Node {
    if n.kids == [] then n.(kids := [StartRef()])
    else if !IsStartRef(n.kids[0]) then n.(kids := [StartRef()] + n.kids)
    else n
  }

  function Sequence(kids: seq<Node>): Node {
    Node("sequence", map[], kids)
  }

  function HasKid(n: Node, tag: string): bool {
    exists k :: k in n.kids && k.tag == tag
  }

  function ReplaceAt(kids: seq<Node>, i: nat, nodes: seq<Node>): seq<Node>
    requires i < |kids|
  {
    kids[..i] + nodes + kids[i + 1..]
  }

  /** The complex type after the rewriting. */
  function InsertInType(t: Node): Result<Node, Error> {
    var i := Lead(t.kids);
    if i == |t.kids| then
      if i == 0 then Err(UnboundPrefix)
      else Ok(t.(kids := t.kids + [InsertInSequence(Sequence([]))]))
    else InsertAtLead(t, i)
  }

  function InsertAtLead(t: Node, i: nat): Result<Node, Error>
    requires i < |t.kids|
  {
    var child := t.kids[i];
    if child.tag == "simpleContent" then Ok(t)
    else if child.tag == "complexContent" then
      if HasKid(child, "restriction") then Err(UnsupportedRestriction) else Ok(t)
    else if child.tag in {"choice", "group"} then
      Ok(t.(kids := ReplaceAt(t.kids, i, [InsertInSequence(Sequence([child]))])))
    else if child.tag == "sequence" then
      Ok(t.(kids := ReplaceAt(t.kids, i, [InsertInSequence(child)])))
    else if child.tag in {"attribute", "attributeGroup"} then
      Ok(t.(kids := ReplaceAt(t.kids, i, [InsertInSequence(Sequence([])), child])))
    else Err(UnsupportedTag(child.tag))
  }

  /** The loop over the children of a complex type; annotations are skipped. */
  method InsertInComplexType(t: Node) returns (r: Result<Node, Error>)
    ensures r == InsertInType(t)
  {
    var i := 0;
    while i < |t.kids|
      invariant i <= |t.kids|
      invariant forall k :: 0 <= k < i ==> t.kids[k].tag == "annotation"
    {
      if t.kids[i].tag != "annotation" {
        LeadIs(t.kids, i);
        return InsertAtLead(t, i);
      }
      i := i + 1;
    }
    LeadIs(t.kids, i);
    if t.kids == [] {
      return Err(UnboundPrefix);
    }
    return Ok(t.(kids := t.kids + [InsertInSequence(Sequence([]))]));
  }

  lemma {:induction false} LeadIs(kids: seq<Node>, i: nat)
    requires i <= |kids|
    requires forall k :: 0 <= k < i ==> kids[k].tag == "annotation"
    requires i < |kids| ==> kids[i].tag != "annotation"
    ensures Lead(kids) == i
  {
    if i > 0 {
      LeadIs(kids[1..], i - 1);
    }
  }

  lemma StartsWithRef(n: Node)
    requires n.tag == "sequence"
    ensures var n' := InsertInSequence(n);
      && n'.tag == "sequence" && n'.kids != [] && IsStartRef(n'.kids[0])
      && InsertInSequence(n') == n'
  {
  }

  /** A type whose leading sequence starts with the reference is left alone. */
  lemma DoneAlready(t: Node, i: nat, s: Node)
    requires i < |t.kids| && s.tag == "sequence" && t.kids[i] == InsertInSequence(s)
    requires forall k :: 0 <= k < i ==> t.kids[k].tag == "annotation"
    ensures InsertInType(t) == Ok(t) && Lead(t.kids) == i
  {
    StartsWithRef(s);
    LeadIs(t.kids, i);
    assert ReplaceAt(t.kids, i, [t.kids[i]]) == t.kids;
  }

  /** The sequence that ends up in front, before the reference is put in. */
  function Front(t: Node): Node {
    var i := Lead(t.kids);
    if i == |t.kids| || t.kids[i].tag in {"attribute", "attributeGroup"} then Sequence([])
    else if t.kids[i].tag == "sequence" then t.kids[i]
    else Sequence([t.kids[i]])
  }

  /** Simple content has no elements, derived types get the group from their
      base type. */
  predicate Untouched(t: Node) {
    var i := Lead(t.kids);
    i < |t.kids| && t.kids[i].tag in {"simpleContent", "complexContent"}
  }

  lemma FrontOf(t: Node)
    requires InsertInType(t).Ok?
    ensures var t', i := InsertInType(t).value, Lead(t.kids);
      && t'.tag == t.tag && t'.attrs == t.attrs
      && (if Untouched(t) then t' == t
          else i < |t'.kids| && t'.kids[i] == InsertInSequence(Front(t)))
      && Front(t).tag == "sequence"
      && |t'.kids| >= i && t'.kids[..i] == t.kids[..i]
  {
    hide InsertInSequence;
  }

  /** The second pass finds its own work done, guard or no guard. */
  lemma RewriteIsIdempotent(t: Node)
    requires InsertInType(t).Ok?
    ensures InsertInType(InsertInType(t).value) == InsertInType(t)
  {
    FrontOf(t);
    hide InsertInType, Front, InsertInSequence;
    var t', i := InsertInType(t).value, Lead(t.kids);
    if t' != t {
      forall k | 0 <= k < i ensures t'.kids[k].tag == "annotation" {
        assert t'.kids[k] == t'.kids[..i][k] == t.kids[..i][k] == t.kids[k];
      }
      DoneAlready(t', i, Front(t));
    }
  }

  // ----- the schema document -----

  function Definition(): Node {
    Node("group", map["name" := USG], [Node("annotation", map[], []), Sequence([])])
  }

  predicate IsUsg(n: Node) {
    n.tag == "group" && "name" in n.attrs && n.attrs["name"] == USG
  }

  predicate IsNamed(n: Node, tag: string, name: string) {
    n.tag == tag && "name" in n.attrs && n.attrs["name"] == name
  }

  /** The complex types among the children, rewritten; the first one that is not
      supported stops it. */
  function Rewritten(kids: seq<Node>): Result<seq<Node>, Error> {
    if kids == [] then Ok([])
    else
      var first := if kids[0].tag == "complexType" then InsertInType(kids[0]) else Ok(kids[0]);
      if first.Err? then Err(first.error)
      else
        var rest := Rewritten(kids[1..]);
        if rest.Err? then rest else Ok([first.value] + rest.value)
  }

  function RewrittenNode(n: Node): Node {
    if n.tag == "complexType" && InsertInType(n).Ok? then InsertInType(n).value else n
  }

  lemma RewrittenNothing()
    ensures Rewritten([]) == Ok([])
  {
  }

  lemma {:induction false} RewrittenAt(kids: seq<Node>, i: nat)
    requires Rewritten(kids).Ok? && i < |kids|
    ensures |Rewritten(kids).value| == |kids| && Rewritten(kids).value[i] == RewrittenNode(kids[i])
    ensures kids[i].tag == "complexType" ==> InsertInType(kids[i]).Ok?
  {
    if i > 0 {
      RewrittenAt(kids[1..], i - 1);
    } else if |kids| > 1 {
      RewrittenAt(kids[1..], 0);
    }
  }

  lemma {:induction false} RewrittenSnoc(kids: seq<Node>, n: Node)
    requires Rewritten(kids).Ok?
    ensures Rewritten(kids + [n]) ==
      (var last := if n.tag == "complexType" then InsertInType(n) else Ok(n);
       if last.Err? then Err(last.error) else Ok(Rewritten(kids).value + [last.value]))
  {
    if kids == [] {
      assert kids + [n] == [n] && [n][1..] == [] && Rewritten([]) == Ok([]);
      var v := RewrittenNode(n);
      assert [v] + [] == [v] == [] + [v];
    } else {
      RewrittenSnoc(kids[1..], n);
      assert (kids + [n])[1..] == kids[1..] + [n] && (kids + [n])[0] == kids[0];
      var first := if kids[0].tag == "complexType" then InsertInType(kids[0]) else Ok(kids[0]);
      assert forall v :: [first.value] + Rewritten(kids[1..]).value + [v]
                         == [first.value] + (Rewritten(kids[1..]).value + [v]);
      hide InsertInType;
    }
  }

  lemma {:induction false} RewrittenStops(kids: seq<Node>, more: seq<Node>)
    requires Rewritten(kids).Err?
    ensures Rewritten(kids + more) == Rewritten(kids)
  {
    assert (kids + more)[1..] == kids[1..] + more;
    if Rewritten(kids[1..]).Err? {
      RewrittenStops(kids[1..], more);
    }
  }

  function DocumentationType(): Node {
    Node("complexType", map["name" := "documentationType"], [
      Node("annotation", map[], [Node("documentation", map[], [])]),
      Node("simpleContent", map[], [
        Node("extension", map["base" := "xs:string"], [
          Node("attribute", map["name" := "type", "type" := "docTypeType", "use" := "optional"], []),
          Node("attribute", map["name" := "chapter", "type" := "xs:string", "use" := "optional"], []),
          Node("attribute", map["name" := "priority", "type" := "xs:nonNegativeInteger",
                                "use" := "optional"], [])])])])
  }

  function DocTypeType(): Node {
    Node("simpleType", map["name" := "docTypeType"], [
      Node("annotation", map[], [Node("documentation", map[], [])]),
      Node("restriction", map["base" := "xs:string"], [
        Node("enumeration", map["value" := "muen-tools"], []),
        Node("enumeration", map["value" := "dev"], [])])])
  }

  function DocElement(): Node {
    Node("element", map["name" := "doc", "type" := "documentationType",
                        "minOccurs" := "0", "maxOccurs" := "unbounded"], [])
  }

  predicate UsgDefined(kids: seq<Node>) {
    exists n :: n in kids && IsUsg(n)
  }

  predicate TypeDefined(kids: seq<Node>) {
    && (exists n :: n in kids && IsNamed(n, "complexType", "documentationType"))
    && (exists n :: n in kids && IsNamed(n, "simpleType", "docTypeType"))
  }

  predicate HoldsDoc(n: Node) {
    exists s, e :: s in n.kids && s.tag == "sequence" && e in s.kids && IsNamed(e, "element", "doc")
  }

  predicate DocInUsg(kids: seq<Node>) {
    exists n :: n in kids && IsUsg(n) && HoldsDoc(n)
  }

  /** The first child with the tag sequence, or the number of children. */
  function FirstSequence(kids: seq<Node>): (i: nat)
    ensures i <= |kids| && (i < |kids| ==> kids[i].tag == "sequence")
    ensures forall k :: 0 <= k < i ==> kids[k].tag != "sequence"
  {
    if kids == [] || kids[0].tag == "sequence" then 0 else 1 + FirstSequence(kids[1..])
  }

  function WithDoc(n: Node): Node
    requires FirstSequence(n.kids) < |n.kids|
  {
    var i := FirstSequence(n.kids);
    n.(kids := n.kids[i := n.kids[i].(kids := [DocElement()] + n.kids[i].kids)])
  }

  /** The doc element goes first into the first sequence of a universal
      starting group, in document order. */
  function InsertDoc(kids: seq<Node>): Result<seq<Node>, Error> {
    if kids == [] then Err(NoSequence)
    else if TakesDoc(kids[0]) then
      Ok([WithDoc(kids[0])] + kids[1..])
    else
      var rest := InsertDoc(kids[1..]);
      if rest.Err? then rest else Ok([kids[0]] + rest.value)
  }

  predicate TakesDoc(n: Node) {
    IsUsg(n) && FirstSequence(n.kids) < |n.kids|
  }

  lemma {:induction false} InsertDocAt(kids: seq<Node>, i: nat)
    requires i <= |kids| && forall k :: 0 <= k < i ==> !TakesDoc(kids[k])
    requires i < |kids| ==> TakesDoc(kids[i])
    ensures InsertDoc(kids) ==
      if i < |kids| then Ok(kids[i := WithDoc(kids[i])]) else Err(NoSequence)
  {
    if i > 0 {
      InsertDocAt(kids[1..], i - 1);
      assert i < |kids| ==> [kids[0]] + kids[1..][i - 1 := WithDoc(kids[i])] == kids[i := WithDoc(kids[i])];
    } else if kids != [] {
      assert [WithDoc(kids[0])] + kids[1..] == kids[0 := WithDoc(kids[0])];
    }
  }

  /** The plug-in, with its three guards. */
  function AddDocumentation(kids: seq<Node>): Result<seq<Node>, Error> {
    var grouped := if UsgDefined(kids) then Ok(kids) else WithUsg(kids);
    if grouped.Err? then grouped
    else
      var typed := WithType(grouped.value);
      if DocInUsg(typed) then Ok(typed) else InsertDoc(typed)
  }

  function WithUsg(kids: seq<Node>): Result<seq<Node>, Error> {
    var r := Rewritten(kids);
    if r.Err? then r else Ok([Definition()] + r.value)
  }

  function WithType(kids: seq<Node>): seq<Node> {
    if TypeDefined(kids) then kids else [DocumentationType(), DocTypeType()] + kids
  }

  lemma Splice(before: seq<Node>, nodes: seq<Node>, after: seq<Node>, k: nat)
    requires k < |nodes|
    ensures var all := before + nodes[..k] + after;
      all[..|before| + k] + [nodes[k]] + all[|before| + k..] == before + nodes[..k + 1] + after
  {
    var all := before + nodes[..k] + after;
    assert all[..|before| + k] == before + nodes[..k] && all[|before| + k..] == after;
  }

  /** Before and after the loop that inserts at one of the ends. */
  lemma SpliceEnds(all: seq<Node>, nodes: seq<Node>, index: nat)
    requires index == 0 || index == |all|
    ensures all == all[..index] + nodes[..0] + all[index..]
    ensures index == 0 ==> all[..index] + nodes[..|nodes|] + all[index..] == nodes + all
    ensures index == |all| ==> all[..index] + nodes[..|nodes|] + all[index..] == all + nodes
  {
  }

  /** One turn of the loop: the first i children are rewritten already. */
  lemma RewriteNext(all: seq<Node>, children: seq<Node>, i: nat, next: Result<Node, Error>)
    requires i < |all| == |children| && all[i..] == children[i..]
    requires Rewritten(all[..i]) == Ok(children[..i])
    requires next == if all[i].tag == "complexType" then InsertInType(all[i]) else Ok(all[i])
    ensures next.Err? ==> Rewritten(all) == Err(next.error)
    ensures next.Ok? ==>
      var children' := children[i := next.value];
      Rewritten(all[..i + 1]) == Ok(children'[..i + 1]) && all[i + 1..] == children'[i + 1..]
  {
    hide InsertInType, Rewritten;
    RewrittenSnoc(all[..i], all[i]);
    OneMore(all, i);
    if next.Err? {
      RewrittenStops(all[..i + 1], all[i + 1..]);
    } else {
      OneReplaced(all, children, i, next.value);
    }
  }

  lemma OneMore(all: seq<Node>, i: nat)
    requires i < |all|
    ensures all[..i + 1] == all[..i] + [all[i]] && all[..i + 1] + all[i + 1..] == all
  {
  }

  lemma OneReplaced(all: seq<Node>, children: seq<Node>, i: nat, n: Node)
    requires i < |all| == |children| && all[i..] == children[i..]
    ensures children[i := n][..i + 1] == children[..i] + [n] && all[i + 1..] == children[i := n][i + 1..]
  {
    assert all[i + 1..] == all[i..][1..] && children[i + 1..] == children[i..][1..];
  }

  /** The children of the schema's root element, changed in place. */
  class Schema {
    var children: seq<Node>

    /** Insert the children at an index that moves on with them. */
    method InsertChildren(nodes: seq<Node>, position: string) returns (r: Result<bool, Error>)
      modifies this
      ensures r.Ok? <==> position in {"top", "bottom"}
      ensures children ==
        if position == "top" then nodes + old(children)
        else if position == "bottom" then old(children) + nodes
        else old(children)
    {
      var index := 0;
      if position == "bottom" {
        index := |children|;
      } else if position != "top" {
        return Err(UnknownPosition(position));
      }
      ghost var before, after := children[..index], children[index..];
      SpliceEnds(children, nodes, index);
      var k := 0;
      while k < |nodes|
        invariant k <= |nodes| && index == |before| + k
        invariant children == before + nodes[..k] + after
      {
        Splice(before, nodes, after, k);
        children := children[..index] + [nodes[k]] + children[index..];
        index := index + 1;
        k := k + 1;
      }
      return Ok(true);
    }

    /** Rewrite every complex type and define the group. After an error the
        children up to the offending one are already rewritten. */
    method InsertUniversalStartingGroup() returns (r: Result<bool, Error>)
      modifies this
      ensures WithUsg(old(children)).Ok? ==> r.Ok? && children == WithUsg(old(children)).value
      ensures WithUsg(old(children)).Err? ==> r == Err(WithUsg(old(children)).error)
    {
      ghost var all := children;
      hide Rewritten, InsertInType;
      RewrittenNothing();
      var i := 0;
      while i < |children|
        invariant i <= |children| == |all| && all[i..] == children[i..]
        invariant Rewritten(all[..i]) == Ok(children[..i])
      {
        ghost var before := children;
        assert children[i] == children[i..][0] == all[i..][0] == all[i];
        if children[i].tag == "complexType" {
          var t := InsertInComplexType(children[i]);
          RewriteNext(all, before, i, t);
          if t.Err? {
            return Err(t.error);
          }
          children := children[i := t.value];
        } else {
          RewriteNext(all, before, i, Ok(all[i]));
          assert children[i := children[i]] == children;
        }
        i := i + 1;
      }
      assert all[..i] == all && children[..i] == children;
      r := InsertChildren([Definition()], "top");
    }

    method InsertDocInUsg() returns (r: Result<bool, Error>)
      modifies this
      ensures InsertDoc(old(children)).Ok? ==> r.Ok? && children == InsertDoc(old(children)).value
      ensures InsertDoc(old(children)).Err? ==>
        r == Err(NoSequence) && children == old(children) && InsertDoc(children).error == NoSequence
    {
      var i := 0;
      while i < |children|
        invariant i <= |children| && children == old(children)
        invariant forall k :: 0 <= k < i ==> !TakesDoc(children[k])
      {
        if IsUsg(children[i]) && FirstSequence(children[i].kids) < |children[i].kids| {
          InsertDocAt(children, i);
          children := children[i := WithDoc(children[i])];
          return Ok(true);
        }
        i := i + 1;
      }
      InsertDocAt(children, i);
      return Err(NoSequence);
    }

    method RunPlugin() returns (r: Result<bool, Error>)
      modifies this
      ensures AddDocumentation(old(children)).Ok? ==>
        r.Ok? && children == AddDocumentation(old(children)).value
      ensures AddDocumentation(old(children)).Err? ==>
        r == Err(AddDocumentation(old(children)).error)
    {
      if !UsgDefined(children) {
        r := InsertUniversalStartingGroup();
        if r.Err? {
          return;
        }
      }
      if !TypeDefined(children) {
        r := InsertChildren([DocumentationType(), DocTypeType()], "top");
      }
      if !DocInUsg(children) {
        r := InsertDocInUsg();
        return;
      }
      return Ok(true);
    }
  }
}
