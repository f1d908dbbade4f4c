/**
 * The input of `DocumentModel.Create`: documented members pairing a host
 * handle with an optional XML comment block, and a stand-in for the comment
 * parser that turns a comment block into comment nodes.
 */
module Members {
  import opened Wrappers
  import opened HostTypes
  import opened Entities
  import opened DeclaredType

  /**
   * What the comment parser sees in a comment block: plain text, or a
   * `<see cref="T:...">` cross-reference to the type with handle `target`,
   * short name `name` and namespace `ns`.
   */
  datatype CommentSpec = PlainText(text: string) | SeeType(target: TypeId, name: string, ns: string)

  /**
   * The XML node of a member: its `summary` element, if any, and its
   * `param` elements by parameter name.
   */
  datatype Xml = Xml(summary: Option<seq<CommentSpec>>, params: map<string, seq<CommentSpec>>)

  datatype ParameterInfo = ParameterInfo(name: string, parameterType: TypeId)

  datatype MethodInfo = MethodInfo(name: string, returnType: TypeId, parameters: seq<ParameterInfo>)

  datatype PropertyInfo = PropertyInfo(name: string, propertyType: TypeId)

  /**
   * `IDocumentationMember`. A method or property member whose reflected
   * handle is missing carries `None`.
   */
  datatype Member =
    | DocumentedType(t: TypeId, xml: Option<Xml>)
    | DocumentedMethod(target: TypeId, info: Option<MethodInfo>, xml: Option<Xml>)
    | DocumentedProperty(target: TypeId, prop: Option<PropertyInfo>, xml: Option<Xml>)

  /** The host types a member names; the host knows all of them. */
  predicate MemberInHost(h: Host, m: Member)
  {
    match m
    case DocumentedType(t, _) => t in h
    case DocumentedMethod(target, mi, _) =>
      target in h && (mi.Some? ==>
        mi.value.returnType in h &&
        forall i :: 0 <= i < |mi.value.parameters| ==> mi.value.parameters[i].parameterType in h)
    case DocumentedProperty(target, pi, _) => target in h && (pi.Some? ==> pi.value.propertyType in h)
  }

  /** The parameter types of a signature, in order. */
  function ParameterTypes(ps: seq<ParameterInfo>): (r: seq<TypeId>)
    ensures |r| == |ps| && forall i :: 0 <= i < |ps| ==> r[i] == ps[i].parameterType
  {
    if ps == [] then [] else [ps[0].parameterType] + ParameterTypes(ps[1..])
  }

  /** `Identifier.FromMethod(method, target)`: owner, name and parameter types. */
  function MethodIdent(target: TypeId, mi: MethodInfo): Identifier
  {
    MethodKey(target, mi.name, ParameterTypes(mi.parameters))
  }

  /** `Identifier.FromProperty(property, target)`. */
  function PropertyIdent(target: TypeId, pi: PropertyInfo): Identifier
  {
    PropertyKey(target, pi.name)
  }

  // ---- the comment parser ---------------------------------------------------

  /**
   * The cross-reference node `See` builds for `s`: the two-argument
   * `DeclaredType.Unresolved` with the namespace placeholder of `s.ns`.
   */
  ghost predicate IsSeeTarget(g: Graph, x: NodeId, s: CommentSpec)
    requires s.SeeType?
  {
    && x in g.types
    && var d := g.types[x];
    && d.ns.Some? && d.ns.value in g.namespaces
    && g.namespaces[d.ns.value] == NamespacePlaceholder(s.ns)
    && d == TypeNode(TypeKey(s.target), s.name, d.ns, None, None, [], [], [], [], State.Unresolved)
  }

  /** `c` is the comment node parsed from `s`; a reference is a node not in `g0`. */
  ghost predicate ParsedAs(g0: Graph, g: Graph, c: Comment, s: CommentSpec)
  {
    match s
    case PlainText(text) => c == Text(text)
    case SeeType(_, _, _) =>
      c.Referrer? && c.reference.TypeRef? && c.reference.id !in g0.types && IsSeeTarget(g, c.reference.id, s)
  }

  lemma ParsedStable(g0: Graph, g1: Graph, g2: Graph, cs: seq<Comment>, specs: seq<CommentSpec>)
    requires Extends(g1, g2) && |cs| <= |specs|
    requires forall k :: 0 <= k < |cs| ==> ParsedAs(g0, g1, cs[k], specs[k])
    ensures forall k :: 0 <= k < |cs| ==> ParsedAs(g0, g2, cs[k], specs[k])
  {
  }

  lemma ParsedSnoc(g0: Graph, g: Graph, cs: seq<Comment>, specs: seq<CommentSpec>, c: Comment)
    requires |cs| < |specs| && forall k :: 0 <= k < |cs| ==> ParsedAs(g0, g, cs[k], specs[k])
    requires ParsedAs(g0, g, c, specs[|cs|])
    ensures forall k :: 0 <= k < |cs| + 1 ==> ParsedAs(g0, g, (cs + [c])[k], specs[k])
  {
  }

  /** A node new with respect to `g1` is new with respect to every earlier graph. */
  lemma ParsedFrom(g0: Graph, g1: Graph, g: Graph, cs: seq<Comment>, specs: seq<CommentSpec>)
    requires Extends(g0, g1) && |cs| <= |specs|
    requires forall k :: 0 <= k < |cs| ==> ParsedAs(g1, g, cs[k], specs[k])
    ensures forall k :: 0 <= k < |cs| ==> ParsedAs(g0, g, cs[k], specs[k])
  {
  }

  /** Parsed nodes are new, so changing an older node leaves them as they were. */
  lemma ParsedUpdate(g0: Graph, g: Graph, cs: seq<Comment>, specs: seq<CommentSpec>, x: NodeId, d: TypeNode)
    requires x in g0.types && |cs| <= |specs|
    requires forall k :: 0 <= k < |cs| ==> ParsedAs(g0, g, cs[k], specs[k])
    ensures forall k :: 0 <= k < |cs| ==> ParsedAs(g0, g.(types := g.types[x := d]), cs[k], specs[k])
  {
    forall k | 0 <= k < |cs| ensures ParsedAs(g0, g.(types := g.types[x := d]), cs[k], specs[k]) {
      assert ParsedAs(g0, g, cs[k], specs[k]);
      if specs[k].SeeType? {
        assert cs[k].reference.id != x;
      }
    }
  }

  /** Parsed comment nodes only refer to nodes of the graph. */
  lemma ParsedCommentsOk(g0: Graph, g: Graph, cs: seq<Comment>, specs: seq<CommentSpec>)
    requires |cs| <= |specs| && forall k :: 0 <= k < |cs| ==> ParsedAs(g0, g, cs[k], specs[k])
    ensures CommentsOk(g, cs)
  {
    forall i | 0 <= i < |cs| && cs[i].Referrer? ensures Holds(g, cs[i].reference) {
      assert ParsedAs(g0, g, cs[i], specs[i]);
    }
  }

  /**
   * `ICommentContentParser.Parse`. The parser is not part of this model; the
   * stand-in maps each plain text to a text node and each cross-reference to
   * a new unresolved type node, in order.
   */
  method Parse(h: Host, g: Graph, specs: seq<CommentSpec>) returns (g1: Graph, comments: seq<Comment>)
    requires GraphOk(h, g)
    ensures GraphOk(h, g1) && Extends(g, g1)
    ensures |comments| == |specs| && CommentsOk(g1, comments)
    ensures forall i :: 0 <= i < |specs| ==> ParsedAs(g, g1, comments[i], specs[i])
  {
    g1 := g;
    comments := [];
    for i := 0 to |specs|
      invariant GraphOk(h, g1) && Extends(g, g1) && |comments| == i
      invariant forall k :: 0 <= k < i ==> ParsedAs(g, g1, comments[k], specs[k])
    {
      var g2, c := ParseOne(h, g1, specs[i]);
      ParsedStable(g, g1, g2, comments, specs);
      ExtendsTransitive(g, g1, g2);
      ParsedSnoc(g, g2, comments, specs, c);
      comments := comments + [c];
      g1 := g2;
    }
    ParsedCommentsOk(g, g1, comments, specs);
  }

  /** One comment node of `Parse`. */
  method ParseOne(h: Host, g: Graph, s: CommentSpec) returns (g1: Graph, c: Comment)
    requires GraphOk(h, g)
    ensures GraphOk(h, g1) && Extends(g, g1) && ParsedAs(g, g1, c, s)
  {
    match s
    case PlainText(text) =>
      g1, c := g, Text(text);
    case SeeType(target, name, ns) =>
      var g0, n := NewNamespace(h, g, NamespacePlaceholder(ns));
      var x;
      g1, x := UnresolvedNamed(h, g0, target, name, Some(n));
      c := Referrer(TypeRef(x));
  }

  // ---- references in comments -------------------------------------------------

  /** The references the `IReferrer` nodes of `cs` carry, in comment order. */
  function ReferencesIn(cs: seq<Comment>): (r: seq<Ref>)
    ensures |r| <= |cs|
    ensures forall x :: x in r <==> exists i :: 0 <= i < |cs| && cs[i].Referrer? && cs[i].reference == x
  {
    if cs == [] then []
    else
      var last := cs[|cs| - 1];
      assert forall i :: 0 <= i < |cs| - 1 ==> cs[..|cs| - 1][i] == cs[i];
      ReferencesIn(cs[..|cs| - 1]) + (if last.Referrer? then [last.reference] else [])
  }

  /** References are collected block by block: the list for `a + b` is that of `a`, then of `b`. */
  lemma {:induction false} ReferencesInConcat(a: seq<Comment>, b: seq<Comment>)
    ensures ReferencesIn(a + b) == ReferencesIn(a) + ReferencesIn(b)
    decreases |b|
  {
    if b != [] {
      var b' := b[..|b| - 1];
      assert (a + b)[..|a + b| - 1] == a + b';
      ReferencesInConcat(a, b');
    } else {
      assert a + b == a;
    }
  }

  /** A comment block without cross-references contributes nothing. */
  lemma {:induction false} ReferencesInText(cs: seq<Comment>)
    requires forall i :: 0 <= i < |cs| ==> cs[i].Text?
    ensures ReferencesIn(cs) == []
  {
    if cs != [] {
      ReferencesInText(cs[..|cs| - 1]);
    }
  }

  /** Every reference found in a well-formed comment block points at a node. */
  lemma ReferencesInHeld(g: Graph, cs: seq<Comment>)
    requires CommentsOk(g, cs)
    ensures forall r :: r in ReferencesIn(cs) ==> Holds(g, r)
  {
  }
}
