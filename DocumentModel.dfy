/**
 * `DocumentModel`: builds the namespaces, types, methods and properties of
 * the documented members, registers each documented entity under its
 * identifier in `matchedAssociations` (first occurrence wins), resolves the
 * pending references against that table and sorts the result.
 */
module DocumentModel {
  import opened Wrappers
  import opened HostTypes
  import opened Entities
  import opened DeclaredType
  import opened Members
  import opened Builder
  import opened Names
  import opened Resolution
  import opened Sorting
  import opened Output

  // ---- comments -----------------------------------------------------------------

  /**
   * `GetReferencesFromComment`: the reference of every `IReferrer` in
   * `comments` is appended, in comment order; nothing else is.
   */
  method GetReferencesFromComment(references: seq<Ref>, comments: seq<Comment>) returns (r: seq<Ref>)
    ensures r == references + ReferencesIn(comments)
  {
    r := references;
    for i := 0 to |comments|
      invariant r == references + ReferencesIn(comments[..i])
    {
      assert comments[..i + 1][..i] == comments[..i];
      if comments[i].Referrer? {
        r := r + [comments[i].reference];
      }
    }
    assert comments[..|comments|] == comments;
  }

  /** The `summary` element of a member, if the member has XML and the element. */
  function SummarySpecs(xml: Option<Xml>): Option<seq<CommentSpec>>
  {
    if xml.Some? then xml.value.summary else None
  }

  /** The `param[@name='...']` element for the parameter `name`. */
  function ParamSpecs(xml: Option<Xml>, name: string): Option<seq<CommentSpec>>
  {
    if xml.Some? && name in xml.value.params then Some(xml.value.params[name]) else None
  }

  /** `cs` is what parsing the element produced, or the empty comment when there was none. */
  ghost predicate SummaryBuilt(g0: Graph, g: Graph, cs: seq<Comment>, specs: Option<seq<CommentSpec>>)
  {
    match specs
    case None => cs == []
    case Some(ss) => |cs| == |ss| && forall i :: 0 <= i < |ss| ==> ParsedAs(g0, g, cs[i], ss[i])
  }

  lemma SummaryBuiltStable(g0: Graph, g1: Graph, g2: Graph, cs: seq<Comment>, specs: Option<seq<CommentSpec>>)
    requires Extends(g1, g2) && SummaryBuilt(g0, g1, cs, specs)
    ensures SummaryBuilt(g0, g2, cs, specs)
  {
    if specs.Some? {
      ParsedStable(g0, g1, g2, cs, specs.value);
    }
  }

  /** `if (node != null) x.Summary = commentContentParser.Parse(node);` on an empty comment. */
  method ParseElement(h: Host, g: Graph, specs: Option<seq<CommentSpec>>, ghost start: Graph)
      returns (g1: Graph, cs: seq<Comment>)
    requires GraphOk(h, g) && Extends(start, g)
    ensures GraphOk(h, g1) && Extends(g, g1) && CommentsOk(g1, cs)
    ensures SummaryBuilt(start, g1, cs, specs)
  {
    g1, cs := g, [];
    if specs.Some? {
      g1, cs := Parse(h, g, specs.value);
      ParsedFrom(start, g, g1, cs, specs.value);
    }
  }

  // ---- the objects built for a member ---------------------------------------------

  /**
   * `p` is the `MethodParameter` built for `info`: its name, a new type
   * placeholder (with its namespace placeholder) for the parameter type, and
   * the parsed `param` element.
   */
  ghost predicate ParameterBuilt(h: Host, g0: Graph, g: Graph, p: Parameter, info: ParameterInfo, xml: Option<Xml>)
    requires Ranked(h)
  {
    && p.name == info.name && info.parameterType in h && p.reference !in g0.types
    && HasNamespacePlaceholder(h, g, p.reference, info.parameterType)
    && IsPlaceholder(h, g, p.reference, info.parameterType)
    && CommentsOk(g, p.summary) && SummaryBuilt(g0, g, p.summary, ParamSpecs(xml, info.name))
  }

  lemma ParametersBuiltStable(h: Host, g0: Graph, g1: Graph, g2: Graph,
                              params: seq<Parameter>, ps: seq<ParameterInfo>, xml: Option<Xml>)
    requires Ranked(h) && Extends(g1, g2) && |params| <= |ps|
    requires forall k :: 0 <= k < |params| ==> ParameterBuilt(h, g0, g1, params[k], ps[k], xml)
    ensures forall k :: 0 <= k < |params| ==> ParameterBuilt(h, g0, g2, params[k], ps[k], xml)
  {
    forall k | 0 <= k < |params| ensures ParameterBuilt(h, g0, g2, params[k], ps[k], xml) {
      var p := params[k];
      PlaceholderStable(h, g1, g2, p.reference, ps[k].parameterType);
      CommentsOkMono(g1, g2, p.summary);
      SummaryBuiltStable(g0, g1, g2, p.summary, ParamSpecs(xml, ps[k].name));
    }
  }

  lemma ParametersBuiltSnoc(h: Host, g0: Graph, g: Graph, params: seq<Parameter>, ps: seq<ParameterInfo>,
                            xml: Option<Xml>, p: Parameter)
    requires Ranked(h) && |params| < |ps|
    requires forall k :: 0 <= k < |params| ==> ParameterBuilt(h, g0, g, params[k], ps[k], xml)
    requires ParameterBuilt(h, g0, g, p, ps[|params|], xml)
    ensures forall k :: 0 <= k < |params| + 1 ==> ParameterBuilt(h, g0, g, (params + [p])[k], ps[k], xml)
  {
  }

  /** The pending references of a parameter list: per parameter its type, then its comment's references. */
  function ParameterReferences(ps: seq<Parameter>): seq<Ref>
  {
    if ps == [] then []
    else ParameterReferences(ps[..|ps| - 1]) + [TypeRef(ps[|ps| - 1].reference)] + ReferencesIn(ps[|ps| - 1].summary)
  }

  lemma ParameterReferencesSnoc(ps: seq<Parameter>, p: Parameter)
    ensures ParameterReferences(ps + [p]) == ParameterReferences(ps) + [TypeRef(p.reference)] + ReferencesIn(p.summary)
  {
    assert (ps + [p])[..|ps|] == ps;
  }

  lemma AppendAssociative<T>(a: seq<T>, b: seq<T>, c: seq<T>, d: seq<T>)
    ensures a + (b + c + d) == a + b + c + d
  {
  }

  /** One parameter of the `foreach` over `GetParameters()`. */
  method AddParameter(h: Host, g: Graph, info: ParameterInfo, xml: Option<Xml>, ghost start: Graph)
      returns (g1: Graph, p: Parameter)
    requires GraphOk(h, g) && WellFormed(h) && info.parameterType in h && Extends(start, g)
    ensures GraphOk(h, g1) && Extends(g, g1) && ParameterBuilt(h, start, g1, p, info, xml)
  {
    var g0, r := NewReference(h, g, info.parameterType);
    ExtendsTransitive(start, g, g0);
    var summary;
    g1, summary := ParseElement(h, g0, ParamSpecs(xml, info.name), start);
    PlaceholderStable(h, g0, g1, r, info.parameterType);
    p := Parameter(info.name, r, summary);
  }

  /**
   * The `foreach` over the parameters of a method: one parameter per
   * declared parameter, in declaration order, each pushing its type
   * placeholder and then, when the member has XML, its comment's references.
   */
  method AddParameters(h: Host, g: Graph, ps: seq<ParameterInfo>, xml: Option<Xml>, refs: seq<Ref>, ghost start: Graph)
      returns (g1: Graph, params: seq<Parameter>, refs1: seq<Ref>)
    requires GraphOk(h, g) && WellFormed(h) && Extends(start, g)
    requires forall i :: 0 <= i < |ps| ==> ps[i].parameterType in h
    ensures GraphOk(h, g1) && Extends(g, g1) && |params| == |ps|
    ensures forall i :: 0 <= i < |ps| ==> ParameterBuilt(h, start, g1, params[i], ps[i], xml)
    ensures refs1 == refs + ParameterReferences(params)
  {
    g1, params, refs1 := g, [], refs;
    for i := 0 to |ps|
      invariant GraphOk(h, g1) && Extends(g, g1) && |params| == i
      invariant forall k :: 0 <= k < i ==> ParameterBuilt(h, start, g1, params[k], ps[k], xml)
      invariant refs1 == refs + ParameterReferences(params)
    {
      ExtendsTransitive(start, g, g1);
      var g2;
      g2, params, refs1 := NextParameter(h, g1, ps, xml, params, refs1, start, refs);
      ExtendsTransitive(g, g1, g2);
      g1 := g2;
    }
  }

  /** One turn of that loop. */
  method NextParameter(h: Host, g: Graph, ps: seq<ParameterInfo>, xml: Option<Xml>, params: seq<Parameter>,
                       refs: seq<Ref>, ghost start: Graph, ghost refs0: seq<Ref>)
      returns (g1: Graph, params1: seq<Parameter>, refs1: seq<Ref>)
    requires GraphOk(h, g) && WellFormed(h) && Extends(start, g) && |params| < |ps|
    requires forall i :: 0 <= i < |ps| ==> ps[i].parameterType in h
    requires forall k :: 0 <= k < |params| ==> ParameterBuilt(h, start, g, params[k], ps[k], xml)
    requires refs == refs0 + ParameterReferences(params)
    ensures GraphOk(h, g1) && Extends(g, g1) && |params1| == |params| + 1
    ensures forall k :: 0 <= k < |params1| ==> ParameterBuilt(h, start, g1, params1[k], ps[k], xml)
    ensures refs1 == refs0 + ParameterReferences(params1)
  {
    var p;
    g1, p := AddParameter(h, g, ps[|params|], xml, start);
    refs1 := refs + [TypeRef(p.reference)];
    if xml.Some? {
      refs1 := GetReferencesFromComment(refs1, p.summary);
    } else {
      assert p.summary == [];
    }
    assert refs1 == refs + [TypeRef(p.reference)] + ReferencesIn(p.summary);
    ParameterReferencesSnoc(params, p);
    AppendAssociative(refs0, ParameterReferences(params), [TypeRef(p.reference)], ReferencesIn(p.summary));
    ParametersBuiltStable(h, start, g, g1, params, ps, xml);
    ParametersBuiltSnoc(h, start, g1, params, ps, xml, p);
    params1 := params + [p];
  }

  /**
   * `d` is the `Method` built for `mi` on `target`: keyed by owner, name and
   * parameter types, unresolved, with a new return-type placeholder, the
   * parsed summary and one parameter per declared parameter, in order.
   */
  ghost predicate MethodBuilt(h: Host, g0: Graph, g: Graph, d: MethodNode, target: TypeId, mi: MethodInfo, xml: Option<Xml>)
    requires Ranked(h)
  {
    && d.ident == MethodIdent(target, mi) && d.name == mi.name && d.state == State.Unresolved
    && mi.returnType in h && d.returnType !in g0.types
    && HasNamespacePlaceholder(h, g, d.returnType, mi.returnType)
    && IsPlaceholder(h, g, d.returnType, mi.returnType)
    && SummaryBuilt(g0, g, d.summary, SummarySpecs(xml))
    && |d.parameters| == |mi.parameters|
    && forall i :: 0 <= i < |mi.parameters| ==> ParameterBuilt(h, g0, g, d.parameters[i], mi.parameters[i], xml)
  }

  /** What a method pushes before itself: its return type, its summary's references, its parameters'. */
  function SignatureReferences(d: MethodNode): seq<Ref>
  {
    [TypeRef(d.returnType)] + ReferencesIn(d.summary) + ParameterReferences(d.parameters)
  }

  /** `AddMethod` from the return type to the last parameter. */
  method BuildMethod(h: Host, g: Graph, target: TypeId, mi: MethodInfo, xml: Option<Xml>, refs: seq<Ref>)
      returns (g1: Graph, doc: MethodNode, refs1: seq<Ref>)
    requires GraphOk(h, g) && WellFormed(h) && MemberInHost(h, DocumentedMethod(target, Some(mi), xml))
    ensures GraphOk(h, g1) && Extends(g, g1) && MethodOk(g1, doc)
    ensures MethodBuilt(h, g, g1, doc, target, mi, xml)
    ensures refs1 == refs + SignatureReferences(doc)
  {
    var g0, ret := NewReference(h, g, mi.returnType);
    refs1 := refs + [TypeRef(ret)];
    var ga, summary := ParseElement(h, g0, SummarySpecs(xml), g);
    if xml.Some? {
      refs1 := GetReferencesFromComment(refs1, summary);
    }
    ExtendsTransitive(g, g0, ga);
    var params;
    assert refs1 == refs + [TypeRef(ret)] + ReferencesIn(summary);
    g1, params, refs1 := AddParameters(h, ga, mi.parameters, xml, refs1, g);
    AppendAssociative(refs, [TypeRef(ret)], ReferencesIn(summary), ParameterReferences(params));
    ExtendsTransitive(g, ga, g1);
    ExtendsTransitive(g0, ga, g1);
    PlaceholderStable(h, g0, g1, ret, mi.returnType);
    SummaryBuiltStable(g, ga, g1, summary, SummarySpecs(xml));
    CommentsOkMono(ga, g1, summary);
    doc := MethodNode(MethodIdent(target, mi), mi.name, ret, params, summary, State.Unresolved);
    forall i | 0 <= i < |params| ensures params[i].reference in g1.types && CommentsOk(g1, params[i].summary) {
      assert ParameterBuilt(h, g, g1, params[i], mi.parameters[i], xml);
    }
  }

  /**
   * `d` is the `Property` built for `pi` on `target`: keyed by owner and
   * name, unresolved, with a new type placeholder and the parsed summary.
   */
  ghost predicate PropertyBuilt(h: Host, g0: Graph, g: Graph, d: PropertyNode, target: TypeId, pi: PropertyInfo, xml: Option<Xml>)
    requires Ranked(h)
  {
    && d.ident == PropertyIdent(target, pi) && d.name == pi.name && d.state == State.Unresolved
    && pi.propertyType in h && d.returnType !in g0.types
    && HasNamespacePlaceholder(h, g, d.returnType, pi.propertyType)
    && IsPlaceholder(h, g, d.returnType, pi.propertyType)
    && SummaryBuilt(g0, g, d.summary, SummarySpecs(xml))
  }

  /** `AddProperty` from the property type to the summary. */
  method BuildProperty(h: Host, g: Graph, target: TypeId, pi: PropertyInfo, xml: Option<Xml>, refs: seq<Ref>)
      returns (g1: Graph, doc: PropertyNode, refs1: seq<Ref>)
    requires GraphOk(h, g) && WellFormed(h) && MemberInHost(h, DocumentedProperty(target, Some(pi), xml))
    ensures GraphOk(h, g1) && Extends(g, g1) && PropertyOk(g1, doc)
    ensures PropertyBuilt(h, g, g1, doc, target, pi, xml)
    ensures refs1 == refs + [TypeRef(doc.returnType)] + ReferencesIn(doc.summary)
  {
    var g0, ret := NewReference(h, g, pi.propertyType);
    refs1 := refs + [TypeRef(ret)];
    var summary;
    g1, summary := ParseElement(h, g0, SummarySpecs(xml), g);
    if xml.Some? {
      refs1 := GetReferencesFromComment(refs1, summary);
    }
    ExtendsTransitive(g, g0, g1);
    PlaceholderStable(h, g0, g1, ret, pi.propertyType);
    doc := PropertyNode(PropertyIdent(target, pi), pi.name, ret, summary, State.Unresolved);
  }

  /**
   * `AddType` up to the duplicate check: a type placeholder
   * in namespace `n`, which then receives the parsed summary. `built` is the
   * graph right after `DeclaredType.Unresolved`.
   */
  method BuildType(h: Host, g: Graph, t: TypeId, n: NodeId, xml: Option<Xml>, refs: seq<Ref>)
      returns (g1: Graph, x: NodeId, refs1: seq<Ref>, ghost built: Graph)
    requires GraphOk(h, g) && WellFormed(h) && t in h && n in g.namespaces
    ensures GraphOk(h, g1) && Extends(g, g1) && x !in g.types && x in g1.types
    ensures var d := g1.types[x];
            && d.ident == TypeKey(t) && d.name == h[t].name && d.represented == Some(t)
            && d.state == State.Unresolved && d.ns == Some(n) && CommentsOk(g1, d.summary)
    ensures Extends(g, built) && IsPlaceholder(h, built, x, t) && built.types[x].ns == Some(n)
    ensures g1.types[x] == built.types[x].(summary := g1.types[x].summary)
    ensures SummaryBuilt(built, g1, g1.types[x].summary, SummarySpecs(xml))
    ensures refs1 == refs + ReferencesIn(g1.types[x].summary)
  {
    var g0;
    g0, x := DeclaredType.Unresolved(h, g, t, Some(n));
    built := g0;
    g1, refs1 := AttachSummary(h, g0, x, xml, refs, g);
    assert TypeOk(h, g1, g1.types[x]);
  }

  /** `doc.Summary = commentContentParser.Parse(summaryNode)` and the references it brings. */
  method AttachSummary(h: Host, g: Graph, x: NodeId, xml: Option<Xml>, refs: seq<Ref>, ghost start: Graph)
      returns (g1: Graph, refs1: seq<Ref>)
    requires GraphOk(h, g) && x in g.types && g.types[x].summary == []
    requires Extends(start, g) && x !in start.types
    ensures GraphOk(h, g1) && Extends(start, g1) && x in g1.types
    ensures g1.types[x] == g.types[x].(summary := g1.types[x].summary)
    ensures SummaryBuilt(g, g1, g1.types[x].summary, SummarySpecs(xml))
    ensures refs1 == refs + ReferencesIn(g1.types[x].summary)
  {
    refs1 := refs;
    g1 := g;
    if xml.Some? && xml.value.summary.Some? {
      var g2, summary := Parse(h, g, xml.value.summary.value);
      var d := g2.types[x];
      assert TypeOk(h, g2, d);
      g1 := UpdateType(h, g2, x, d.(summary := summary));
      ExtendsTransitive(start, g, g2);
      ExtendsUpdate(start, g2, x, d.(summary := summary));
      ParsedUpdate(g, g2, summary, xml.value.summary.value, x, d.(summary := summary));
    }
    if xml.Some? {
      refs1 := GetReferencesFromComment(refs1, g1.types[x].summary);
    }
  }

  // ---- the steps of the passes ----------------------------------------------------

  /**
   * `AddNamespace` for the documented type `t`, as a step on sessions: when
   * no listed namespace has the identifier of `t`'s namespace, a new
   * namespace with no types is listed last and registered under that
   * identifier; otherwise nothing changes.
   */
  function NamespaceStep(h: Host, s: Session, t: TypeId): Session
    requires t in h && Listed(s.graph, s.namespaces)
  {
    var k := NsKey(h[t].ns);
    if FindNamespace(s.graph, s.namespaces, k).Some? then s
    else Listing(s, NamespaceNode(k, h[t].ns, [], Resolved))
  }

  /** `AddNamespace`. */
  method AddNamespace(h: Host, s: Session, t: TypeId) returns (s1: Session)
    requires Building(h, s) && t in h
    ensures s1 == NamespaceStep(h, s, t)
  {
    s1 := s;
    var k := NsKey(h[t].ns);
    if FindNamespace(s.graph, s.namespaces, k).None? {
      var g1, n := NewNamespace(h, s.graph, NamespaceNode(k, h[t].ns, [], Resolved));
      s1 := Session(g1, s.matched[k := NsRef(n)], s.namespaces + [n], s.references);
    }
  }

  /**
   * `AddNamespace` keeps the invariant of the passes, and afterwards the
   * namespace of `t` is listed.
   */
  lemma NamespaceStepBuilding(h: Host, s: Session, t: TypeId)
    requires Building(h, s) && t in h
    ensures Building(h, NamespaceStep(h, s, t))
    ensures var s1 := NamespaceStep(h, s, t);
            FindNamespace(s1.graph, s1.namespaces, NsKey(h[t].ns)).Some? && NsKey(h[t].ns) in s1.matched
  {
    var k := NsKey(h[t].ns);
    NamespaceKeyListed(h, s.graph, s.matched, s.namespaces, k);
    if FindNamespace(s.graph, s.namespaces, k).None? {
      BuildingListing(h, s, NamespaceNode(k, h[t].ns, [], Resolved));
    }
  }

  /**
   * `matchedAssociations.Add` in `AddNamespace` never throws: the key of a
   * namespace that is not listed is not registered. The step adds exactly
   * that key, keeps every earlier entry, the pending references and every
   * node.
   */
  lemma NamespaceStepKeys(h: Host, s: Session, t: TypeId)
    requires Building(h, s) && t in h
    ensures FindNamespace(s.graph, s.namespaces, NsKey(h[t].ns)).None? ==> NsKey(h[t].ns) !in s.matched
    ensures var s1 := NamespaceStep(h, s, t);
            && s1.matched.Keys == s.matched.Keys + {NsKey(h[t].ns)} && Kept(s.matched, s1.matched)
            && s1.references == s.references && Extends(s.graph, s1.graph)
  {
    NamespaceKeyListed(h, s.graph, s.matched, s.namespaces, NsKey(h[t].ns));
  }

  /**
   * What `AddType` builds before its duplicate check: a new
   * unresolved node `x` for `t` in its listed namespace, with no summary
   * when there is no XML; the references of the summary follow the pending
   * ones; no node changes and neither the table nor the namespace list does.
   */
  ghost predicate TypeDeclared(h: Host, s: Session, s1: Session, t: TypeId, x: NodeId, xml: Option<Xml>)
    requires t in h && Listed(s.graph, s.namespaces)
  {
    && Extends(s.graph, s1.graph) && s1.matched == s.matched && s1.namespaces == s.namespaces
    && x !in s.graph.types && x in s1.graph.types
    && var d := s1.graph.types[x];
    && d.ident == TypeKey(t) && d.name == h[t].name && d.represented == Some(t)
    && d.state == State.Unresolved && d.ns == FindNamespace(s.graph, s.namespaces, NsKey(h[t].ns))
    && (xml.None? ==> d.summary == [])
    && s1.references == s.references + ReferencesIn(d.summary)
  }

  /** `AddType` up to the duplicate check. */
  method DeclareType(h: Host, s: Session, t: TypeId, xml: Option<Xml>) returns (s1: Session, x: NodeId)
    requires Building(h, s) && t in h
    requires FindNamespace(s.graph, s.namespaces, NsKey(h[t].ns)).Some?
    ensures Building(h, s1) && TypeDeclared(h, s, s1, t, x, xml)
  {
    var n := FindNamespace(s.graph, s.namespaces, NsKey(h[t].ns)).value;
    var g1, refs1;
    ghost var built;
    g1, x, refs1, built := BuildType(h, s.graph, t, n, xml, s.references);
    SummaryUnresolved(built, g1, g1.types[x].summary, SummarySpecs(xml));
    StepExtends(h, s.graph, g1, s.matched, s.namespaces, s.references, ReferencesIn(g1.types[x].summary));
    s1 := Session(g1, s.matched, s.namespaces, refs1);
  }

  /**
   * `AddType` for a documented type `t` whose namespace is
   * listed: the node `DeclareType` builds (`declared`) goes through the
   * duplicate check, and the invariant of the passes is kept.
   */
  method AddType(h: Host, s: Session, t: TypeId, xml: Option<Xml>) returns (s1: Session, x: NodeId, ghost declared: Session)
    requires Building(h, s) && t in h
    requires FindNamespace(s.graph, s.namespaces, NsKey(h[t].ns)).Some?
    ensures Building(h, s1) && TypeDeclared(h, s, declared, t, x, xml)
    ensures s1 == TypeRegistration(declared, x, FindNamespace(s.graph, s.namespaces, NsKey(h[t].ns)).value)
  {
    s1, x := DeclareType(h, s, t, xml);
    declared := s1;
    var n := FindNamespace(s.graph, s.namespaces, NsKey(h[t].ns)).value;
    if TypeKey(t) !in s.matched {
      NamespaceKeyListed(h, s1.graph, s1.matched, s1.namespaces, NsKey(h[t].ns));
      NamespaceKeyListed(h, s.graph, s.matched, s.namespaces, NsKey(h[t].ns));
      BuildingRegistering(h, s1, x, n);
      var g1 := NamespaceAddType(h, s1.graph, n, x);
      s1 := Session(g1, s1.matched[TypeKey(t) := TypeRef(x)], s1.namespaces, s1.references + [TypeRef(x)]);
    }
  }

  /**
   * The owner lookup of `AddMethod` and `AddProperty`: the namespace of `target` is added when it is not listed,
   * then `target`'s type, when its namespace does not hold it, is added
   * without XML. The lookup after that always finds the node; it is `ty`,
   * the node registered under `target`'s key. The two keys are all the
   * table gains.
   */
  method AddOwner(h: Host, s: Session, target: TypeId) returns (s1: Session, ty: NodeId)
    requires Building(h, s) && target in h
    ensures Building(h, s1) && OwnerFound(h, s, s1, target, ty)
  {
    var s0 := s;
    if FindNamespace(s.graph, s.namespaces, NsKey(h[target].ns)).None? {
      s0 := AddNamespace(h, s, target);
    }
    assert s0 == NamespaceStep(h, s, target);
    NamespaceStepBuilding(h, s, target);
    s1, ty := FindOwnerType(h, s0, target);
    OwnerFoundCompose(h, s, s1, target, ty);
  }

  /**
   * After the owner lookup from `s` to `s1`: the table gained exactly the
   * keys of `target` and of its namespace, kept every entry, and names the
   * type node `ty` under `target`'s key.
   */
  ghost predicate OwnerFound(h: Host, s: Session, s1: Session, target: TypeId, ty: NodeId)
    requires target in h
  {
    && s1.matched.Keys == s.matched.Keys + {NsKey(h[target].ns), TypeKey(target)} && Kept(s.matched, s1.matched)
    && TypeFound(s1, target, ty)
  }

  /** The table names the type node `ty` under `target`'s key. */
  ghost predicate TypeFound(s: Session, target: TypeId, ty: NodeId)
  {
    TypeKey(target) in s.matched && s.matched[TypeKey(target)] == TypeRef(ty) && ty in s.graph.types
  }

  /** The namespace half and the type half of the owner lookup make up `OwnerFound`. */
  lemma OwnerFoundCompose(h: Host, s: Session, s1: Session, target: TypeId, ty: NodeId)
    requires Building(h, s) && target in h
    requires var s0 := NamespaceStep(h, s, target);
             && s1.matched.Keys == s0.matched.Keys + {TypeKey(target)} && Kept(s0.matched, s1.matched)
             && TypeFound(s1, target, ty)
    ensures OwnerFound(h, s, s1, target, ty)
  {
    NamespaceStepKeys(h, s, target);
    KeptTransitive(s.matched, NamespaceStep(h, s, target).matched, s1.matched);
  }

  /**
   * The type half of the owner lookup (`Types.FirstOrDefault`): in the
   * listed namespace of `target`, the type keyed `target`, added first when
   * it is missing.
   */
  method FindOwnerType(h: Host, s: Session, target: TypeId) returns (s1: Session, ty: NodeId)
    requires Building(h, s) && target in h && NsKey(h[target].ns) in s.matched
    ensures Building(h, s1) && TypeFound(s1, target, ty)
    ensures s1.matched.Keys == s.matched.Keys + {TypeKey(target)} && Kept(s.matched, s1.matched)
  {
    var nk, k := NsKey(h[target].ns), TypeKey(target);
    NamespaceKeyListed(h, s.graph, s.matched, s.namespaces, nk);
    var n := FindNamespace(s.graph, s.namespaces, nk).value;
    FindTypeRegistered(h, s.graph, s.matched, s.namespaces, k);
    var found := FindType(s.graph, s.graph.namespaces[n].types, k);
    s1 := s;
    if found.None? {
      var x;
      ghost var declared;
      s1, x, declared := AddType(h, s, target, None);
      TypeRegistrationKeys(declared, x, n);
      NamespaceKeyListed(h, s1.graph, s1.matched, s1.namespaces, nk);
      FindTypeRegistered(h, s1.graph, s1.matched, s1.namespaces, k);
      found := FindType(s1.graph, s1.graph.namespaces[n].types, k);
    }
    ty := found.value;
  }

  // ---- methods and properties ---------------------------------------------------

  /** The references a parsed element brings point at new nodes, none of them resolved. */
  lemma SummaryUnresolved(g0: Graph, g: Graph, cs: seq<Comment>, specs: Option<seq<CommentSpec>>)
    requires SummaryBuilt(g0, g, cs, specs)
    ensures AllUnresolved(g, ReferencesIn(cs))
  {
    if specs.Some? {
      forall r | r in ReferencesIn(cs) ensures Holds(g, r) && StateOf(g, r) == State.Unresolved {
        var i :| 0 <= i < |cs| && cs[i].Referrer? && cs[i].reference == r;
        assert ParsedAs(g0, g, cs[i], specs.value[i]);
      }
    }
  }

  /** The references a parameter list pushes point at nodes not resolved yet when its parameters' do. */
  lemma {:induction false} ParameterReferencesUnresolved(g: Graph, ps: seq<Parameter>)
    requires forall i :: 0 <= i < |ps| ==>
               ps[i].reference in g.types && g.types[ps[i].reference].state == State.Unresolved
               && AllUnresolved(g, ReferencesIn(ps[i].summary))
    ensures AllUnresolved(g, ParameterReferences(ps))
  {
    if ps != [] {
      var ps' := ps[..|ps| - 1];
      assert forall i :: 0 <= i < |ps'| ==> ps'[i] == ps[i];
      ParameterReferencesUnresolved(g, ps');
    }
  }

  /** Every reference a method pushes before itself points at a new node, not resolved yet. */
  lemma SignatureUnresolved(h: Host, g0: Graph, g: Graph, d: MethodNode, target: TypeId, mi: MethodInfo, xml: Option<Xml>)
    requires Ranked(h) && MethodBuilt(h, g0, g, d, target, mi, xml)
    ensures AllUnresolved(g, SignatureReferences(d))
  {
    SummaryUnresolved(g0, g, d.summary, SummarySpecs(xml));
    forall i | 0 <= i < |d.parameters|
      ensures d.parameters[i].reference in g.types && g.types[d.parameters[i].reference].state == State.Unresolved
              && AllUnresolved(g, ReferencesIn(d.parameters[i].summary))
    {
      assert ParameterBuilt(h, g0, g, d.parameters[i], mi.parameters[i], xml);
      SummaryUnresolved(g0, g, d.parameters[i].summary, ParamSpecs(xml, mi.parameters[i].name));
    }
    ParameterReferencesUnresolved(g, d.parameters);
  }

  /**
   * What `AddMethod` builds before its duplicate check: the method `doc`
   * for `mi` on `target`, whose return type, summary references and
   * parameters follow the pending references; no node changes and neither
   * the table nor the namespace list does.
   */
  ghost predicate MethodDeclared(h: Host, s: Session, s1: Session, doc: MethodNode, target: TypeId, mi: MethodInfo, xml: Option<Xml>)
    requires Ranked(h)
  {
    && Extends(s.graph, s1.graph) && s1.matched == s.matched && s1.namespaces == s.namespaces
    && MethodBuilt(h, s.graph, s1.graph, doc, target, mi, xml) && MethodOk(s1.graph, doc)
    && s1.references == s.references + SignatureReferences(doc)
  }

  /** `AddMethod` from the return type to the last parameter, on sessions. */
  method DeclareMethod(h: Host, s: Session, target: TypeId, mi: MethodInfo, xml: Option<Xml>) returns (s1: Session, doc: MethodNode)
    requires Building(h, s) && MemberInHost(h, DocumentedMethod(target, Some(mi), xml))
    ensures Building(h, s1) && MethodDeclared(h, s, s1, doc, target, mi, xml)
  {
    var g1, refs1;
    g1, doc, refs1 := BuildMethod(h, s.graph, target, mi, xml, s.references);
    SignatureUnresolved(h, s.graph, g1, doc, target, mi, xml);
    StepExtends(h, s.graph, g1, s.matched, s.namespaces, s.references, SignatureReferences(doc));
    s1 := Session(g1, s.matched, s.namespaces, refs1);
  }

  /**
   * `AddMethod`. A member without a reflected method changes
   * nothing. Otherwise the owner lookup leads to `owner` and the type node
   * `ty`, the method is built (`declared`, `doc`) and goes through the
   * duplicate check; the invariant of the passes is kept.
   */
  method AddMethod(h: Host, s: Session, target: TypeId, info: Option<MethodInfo>, xml: Option<Xml>)
      returns (s1: Session, ghost owner: Session, ghost ty: NodeId, ghost declared: Session, ghost doc: MethodNode)
    requires Building(h, s) && MemberInHost(h, DocumentedMethod(target, info, xml))
    ensures Building(h, s1)
    ensures info.None? ==> s1 == s
    ensures info.Some? ==>
              && OwnerFound(h, s, owner, target, ty)
              && MethodDeclared(h, owner, declared, doc, target, info.value, xml)
              && s1 == MethodRegistration(declared, doc, ty)
  {
    owner, ty, declared := s, 0, s;
    doc :| true;
    if info.None? {
      return s, owner, ty, declared, doc;
    }
    var mi := info.value;
    var s2, t := AddOwner(h, s, target);
    var s3, d := DeclareMethod(h, s2, target, mi, xml);
    owner, ty, declared, doc := s2, t, s3, d;
    s1 := RegisterMethod(h, s3, d, t);
    BuildingMethodRegistration(h, s3, d, t);
  }

  /** The duplicate check of `AddMethod` and the registration that follows it. */
  method RegisterMethod(h: Host, s: Session, d: MethodNode, ty: NodeId) returns (s1: Session)
    requires GraphOk(h, s.graph) && ty in s.graph.types && MethodOk(s.graph, d)
    ensures s1 == MethodRegistration(s, d, ty)
  {
    if d.ident in s.matched {
      return s;
    }
    var g1, m := NewMethod(h, s.graph, d);
    var g2 := DeclaredType.AddMethod(h, g1, ty, m);
    s1 := Session(g2, s.matched[d.ident := MethodRef(m)], s.namespaces, s.references + [MethodRef(m)]);
  }

  /**
   * What `AddProperty` builds before appending: the property `doc` for `pi`
   * on `target`, whose type and summary references follow the pending
   * references; no node changes and neither the table nor the namespace
   * list does.
   */
  ghost predicate PropertyDeclared(h: Host, s: Session, s1: Session, doc: PropertyNode, target: TypeId, pi: PropertyInfo, xml: Option<Xml>)
    requires Ranked(h)
  {
    && Extends(s.graph, s1.graph) && s1.matched == s.matched && s1.namespaces == s.namespaces
    && PropertyBuilt(h, s.graph, s1.graph, doc, target, pi, xml) && PropertyOk(s1.graph, doc)
    && s1.references == s.references + [TypeRef(doc.returnType)] + ReferencesIn(doc.summary)
  }

  /** `AddProperty` from the property type to the summary, on sessions. */
  method DeclareProperty(h: Host, s: Session, target: TypeId, pi: PropertyInfo, xml: Option<Xml>) returns (s1: Session, doc: PropertyNode)
    requires Building(h, s) && MemberInHost(h, DocumentedProperty(target, Some(pi), xml))
    ensures Building(h, s1) && PropertyDeclared(h, s, s1, doc, target, pi, xml)
  {
    var g1, refs1;
    g1, doc, refs1 := BuildProperty(h, s.graph, target, pi, xml, s.references);
    SummaryUnresolved(s.graph, g1, doc.summary, SummarySpecs(xml));
    assert refs1 == s.references + ([TypeRef(doc.returnType)] + ReferencesIn(doc.summary));
    StepExtends(h, s.graph, g1, s.matched, s.namespaces, s.references, [TypeRef(doc.returnType)] + ReferencesIn(doc.summary));
    s1 := Session(g1, s.matched, s.namespaces, refs1);
  }

  /**
   * `AddProperty`. A member without a reflected property
   * changes nothing. Otherwise the owner lookup leads to `owner` and the
   * type node `ty`, the property is built (`declared`, `doc`) and always
   * appended: properties have no duplicate check.
   */
  method AddProperty(h: Host, s: Session, target: TypeId, info: Option<PropertyInfo>, xml: Option<Xml>)
      returns (s1: Session, ghost owner: Session, ghost ty: NodeId, ghost declared: Session, ghost doc: PropertyNode)
    requires Building(h, s) && MemberInHost(h, DocumentedProperty(target, info, xml))
    ensures Building(h, s1)
    ensures info.None? ==> s1 == s
    ensures info.Some? ==>
              && OwnerFound(h, s, owner, target, ty)
              && PropertyDeclared(h, owner, declared, doc, target, info.value, xml)
              && s1 == PropertyAdding(declared, doc, ty)
  {
    owner, ty, declared := s, 0, s;
    doc :| true;
    if info.None? {
      return s, owner, ty, declared, doc;
    }
    var pi := info.value;
    var s2, t := AddOwner(h, s, target);
    var s3, d := DeclareProperty(h, s2, target, pi, xml);
    owner, ty, declared, doc := s2, t, s3, d;
    s1 := AttachProperty(h, s3, d, t);
    BuildingPropertyAdding(h, s3, d, t);
  }

  /** `references.Add(doc)` and `type.AddProperty(doc)`. */
  method AttachProperty(h: Host, s: Session, d: PropertyNode, ty: NodeId) returns (s1: Session)
    requires GraphOk(h, s.graph) && ty in s.graph.types && PropertyOk(s.graph, d)
    ensures s1 == PropertyAdding(s, d, ty)
  {
    var g1, p := NewProperty(h, s.graph, d);
    var g2 := DeclaredType.AddProperty(h, g1, ty, p);
    s1 := Session(g2, s.matched, s.namespaces, s.references + [PropertyRef(p)]);
  }

  // ---- the four passes ----------------------------------------------------------

  /**
   * The keys pass `pass` (1 to 4) of `Create` registers for the member
   * `m`: the first pass the namespace of each documented type, the second
   * the type, the third a method with its owner type and namespace, the
   * fourth the owner type and namespace of a property.
   */
  function PassKeys(h: Host, pass: nat, m: Member): set<Identifier>
    requires MemberInHost(h, m)
  {
    match m
    case DocumentedType(t, _) =>
      if pass == 1 then {NsKey(h[t].ns)} else if pass == 2 then {TypeKey(t)} else {}
    case DocumentedMethod(target, mi, _) =>
      if pass == 3 && mi.Some? then {NsKey(h[target].ns), TypeKey(target), MethodIdent(target, mi.value)} else {}
    case DocumentedProperty(target, pi, _) =>
      if pass == 4 && pi.Some? then {NsKey(h[target].ns), TypeKey(target)} else {}
  }

  ghost predicate AllInHost(h: Host, ms: seq<Member>)
  {
    forall i :: 0 <= i < |ms| ==> MemberInHost(h, ms[i])
  }

  /** The keys pass `pass` registers for the members `ms`. */
  function KeysOf(h: Host, pass: nat, ms: seq<Member>): set<Identifier>
    requires AllInHost(h, ms)
  {
    if ms == [] then {}
    else KeysOf(h, pass, ms[..|ms| - 1]) + PassKeys(h, pass, ms[|ms| - 1])
  }

  lemma KeysOfSnoc(h: Host, pass: nat, ms: seq<Member>, i: nat)
    requires AllInHost(h, ms) && i < |ms|
    ensures AllInHost(h, ms[..i]) && AllInHost(h, ms[..i + 1])
    ensures KeysOf(h, pass, ms[..i + 1]) == KeysOf(h, pass, ms[..i]) + PassKeys(h, pass, ms[i])
  {
    assert ms[..i + 1][..i] == ms[..i];
  }

  /** A key is registered by a pass over `ms` exactly when one of the members gives it. */
  lemma {:induction false} KeysOfMember(h: Host, pass: nat, ms: seq<Member>, k: Identifier)
    requires AllInHost(h, ms)
    ensures k in KeysOf(h, pass, ms) <==> exists i :: 0 <= i < |ms| && k in PassKeys(h, pass, ms[i])
    decreases |ms|
  {
    if ms != [] {
      var ms' := ms[..|ms| - 1];
      assert forall i :: 0 <= i < |ms'| ==> ms'[i] == ms[i];
      KeysOfMember(h, pass, ms', k);
      if k in PassKeys(h, pass, ms[|ms| - 1]) {
        assert 0 <= |ms| - 1 < |ms|;
      }
    }
  }

  /**
   * What holds after the pass `pass` went through the members `ms`,
   * starting from `s0`: the invariant of the passes, first-wins, and
   * exactly the keys of the members registered on top of those of `s0`.
   */
  ghost predicate PassInvariant(h: Host, s0: Session, s: Session, pass: nat, ms: seq<Member>)
  {
    && AllInHost(h, ms) && Building(h, s) && Kept(s0.matched, s.matched)
    && s.matched.Keys == s0.matched.Keys + KeysOf(h, pass, ms)
  }

  /** One member's keys on top of the invariant's. */
  lemma PassKeysStep(h: Host, s0: Session, s: Session, s1: Session, pass: nat, ms: seq<Member>, i: nat)
    requires AllInHost(h, ms) && i < |ms|
    requires Kept(s0.matched, s.matched) && s.matched.Keys == s0.matched.Keys + KeysOf(h, pass, ms[..i])
    requires Kept(s.matched, s1.matched) && s1.matched.Keys == s.matched.Keys + PassKeys(h, pass, ms[i])
    ensures AllInHost(h, ms[..i + 1])
    ensures Kept(s0.matched, s1.matched) && s1.matched.Keys == s0.matched.Keys + KeysOf(h, pass, ms[..i + 1])
  {
    KeysOfSnoc(h, pass, ms, i);
    KeptTransitive(s0.matched, s.matched, s1.matched);
  }

  lemma PassStart(h: Host, s: Session, pass: nat)
    requires Building(h, s)
    ensures PassInvariant(h, s, s, pass, [])
  {
  }

  /** The first pass: `AddNamespace` for each documented type. */
  method NamespacePass(h: Host, s: Session, members: seq<Member>) returns (s1: Session)
    requires Building(h, s) && AllInHost(h, members)
    ensures PassInvariant(h, s, s1, 1, members)
  {
    s1 := s;
    PassStart(h, s, 1);
    for i := 0 to |members|
      invariant PassInvariant(h, s, s1, 1, members[..i])
    {
      s1 := NamespacePassStep(h, s, s1, members, i);
    }
    assert members[..|members|] == members;
  }

  /** One member of the first pass. */
  method NamespacePassStep(h: Host, s0: Session, s: Session, members: seq<Member>, i: nat) returns (s1: Session)
    requires AllInHost(h, members) && i < |members| && PassInvariant(h, s0, s, 1, members[..i])
    ensures PassInvariant(h, s0, s1, 1, members[..i + 1])
  {
    assert MemberInHost(h, members[i]);
    s1 := s;
    if members[i].DocumentedType? {
      var t := members[i].t;
      s1 := AddNamespace(h, s, t);
      NamespaceStepBuilding(h, s, t);
      NamespaceStepKeys(h, s, t);
    }
    PassKeysStep(h, s0, s, s1, 1, members, i);
  }

  /** A key one member gives in a pass is among the keys of the pass. */
  lemma KeysOfHas(h: Host, pass: nat, ms: seq<Member>, i: nat, k: Identifier)
    requires AllInHost(h, ms) && i < |ms| && k in PassKeys(h, pass, ms[i])
    ensures k in KeysOf(h, pass, ms)
  {
    KeysOfMember(h, pass, ms, k);
  }

  /**
   * The second pass: `AddType` for each documented type. The
   * first pass registered the namespace of every documented type, so each
   * is listed when its type comes.
   */
  method TypePass(h: Host, s: Session, members: seq<Member>) returns (s1: Session)
    requires Building(h, s) && AllInHost(h, members) && KeysOf(h, 1, members) <= s.matched.Keys
    ensures PassInvariant(h, s, s1, 2, members)
  {
    s1 := s;
    PassStart(h, s, 2);
    for i := 0 to |members|
      invariant PassInvariant(h, s, s1, 2, members[..i])
    {
      s1 := TypePassStep(h, s, s1, members, i);
    }
    assert members[..|members|] == members;
  }

  /** One member of the second pass. */
  method TypePassStep(h: Host, s0: Session, s: Session, members: seq<Member>, i: nat) returns (s1: Session)
    requires AllInHost(h, members) && i < |members| && KeysOf(h, 1, members) <= s0.matched.Keys
    requires PassInvariant(h, s0, s, 2, members[..i])
    ensures PassInvariant(h, s0, s1, 2, members[..i + 1])
  {
    assert MemberInHost(h, members[i]);
    s1 := s;
    if members[i].DocumentedType? {
      var t := members[i].t;
      var nk := NsKey(h[t].ns);
      KeysOfHas(h, 1, members, i, nk);
      NamespaceKeyListed(h, s.graph, s.matched, s.namespaces, nk);
      var x;
      ghost var declared;
      s1, x, declared := AddType(h, s, t, members[i].xml);
      TypeRegistrationKeys(declared, x, FindNamespace(s.graph, s.namespaces, nk).value);
    }
    PassKeysStep(h, s0, s, s1, 2, members, i);
  }

  /** The third pass: `AddMethod` for each documented method. */
  method MethodPass(h: Host, s: Session, members: seq<Member>) returns (s1: Session)
    requires Building(h, s) && AllInHost(h, members)
    ensures PassInvariant(h, s, s1, 3, members)
  {
    s1 := s;
    PassStart(h, s, 3);
    for i := 0 to |members|
      invariant PassInvariant(h, s, s1, 3, members[..i])
    {
      s1 := MethodPassStep(h, s, s1, members, i);
    }
    assert members[..|members|] == members;
  }

  /** One member of the third pass. */
  method MethodPassStep(h: Host, s0: Session, s: Session, members: seq<Member>, i: nat) returns (s1: Session)
    requires AllInHost(h, members) && i < |members| && PassInvariant(h, s0, s, 3, members[..i])
    ensures PassInvariant(h, s0, s1, 3, members[..i + 1])
  {
    assert MemberInHost(h, members[i]);
    s1 := s;
    if members[i].DocumentedMethod? {
      var m := members[i];
      ghost var owner, ty, declared, doc;
      s1, owner, ty, declared, doc := AddMethod(h, s, m.target, m.info, m.xml);
      if m.info.Some? {
        MethodAddedKeys(h, s, owner, declared, s1, m.target, m.info.value, doc, ty);
      }
    }
    PassKeysStep(h, s0, s, s1, 3, members, i);
  }

  /** A registered method adds its owner's keys and its own identifier to the table. */
  lemma MethodAddedKeys(h: Host, s: Session, owner: Session, declared: Session, s1: Session,
                        target: TypeId, mi: MethodInfo, doc: MethodNode, ty: NodeId)
    requires target in h
    requires OwnerFound(h, s, owner, target, ty)
    requires declared.matched == owner.matched && ty in declared.graph.types
    requires doc.ident == MethodIdent(target, mi) && s1 == MethodRegistration(declared, doc, ty)
    ensures s1.matched.Keys == s.matched.Keys + {NsKey(h[target].ns), TypeKey(target), MethodIdent(target, mi)}
    ensures Kept(s.matched, s1.matched)
  {
    MethodRegistrationKeys(declared, doc, ty);
    KeptTransitive(s.matched, owner.matched, s1.matched);
  }

  /** The fourth pass: `AddProperty` for each documented property. */
  method PropertyPass(h: Host, s: Session, members: seq<Member>) returns (s1: Session)
    requires Building(h, s) && AllInHost(h, members)
    ensures PassInvariant(h, s, s1, 4, members)
  {
    s1 := s;
    PassStart(h, s, 4);
    for i := 0 to |members|
      invariant PassInvariant(h, s, s1, 4, members[..i])
    {
      s1 := PropertyPassStep(h, s, s1, members, i);
    }
    assert members[..|members|] == members;
  }

  /** One member of the fourth pass. */
  method PropertyPassStep(h: Host, s0: Session, s: Session, members: seq<Member>, i: nat) returns (s1: Session)
    requires AllInHost(h, members) && i < |members| && PassInvariant(h, s0, s, 4, members[..i])
    ensures PassInvariant(h, s0, s1, 4, members[..i + 1])
  {
    assert MemberInHost(h, members[i]);
    s1 := s;
    if members[i].DocumentedProperty? {
      var m := members[i];
      ghost var owner, ty, declared, doc;
      s1, owner, ty, declared, doc := AddProperty(h, s, m.target, m.prop, m.xml);
    }
    PassKeysStep(h, s0, s, s1, 4, members, i);
  }

  // ---- Create ---------------------------------------------------------------------

  /** The identifiers a member registers, over all four passes. */
  function MemberKeys(h: Host, m: Member): set<Identifier>
    requires MemberInHost(h, m)
  {
    PassKeys(h, 1, m) + PassKeys(h, 2, m) + PassKeys(h, 3, m) + PassKeys(h, 4, m)
  }

  /** The identifiers `Create` leaves in `matchedAssociations`: those of the four passes. */
  function RegisteredKeys(h: Host, ms: seq<Member>): set<Identifier>
    requires AllInHost(h, ms)
  {
    KeysOf(h, 1, ms) + KeysOf(h, 2, ms) + KeysOf(h, 3, ms) + KeysOf(h, 4, ms)
  }

  /**
   * An identifier is registered exactly when some member registers it: a
   * type its namespace and itself, a method with a handle its namespace, its
   * type and itself, a property with a handle its namespace and its type.
   */
  lemma RegisteredKeysMember(h: Host, ms: seq<Member>, k: Identifier)
    requires AllInHost(h, ms)
    ensures k in RegisteredKeys(h, ms) <==> exists i :: 0 <= i < |ms| && k in MemberKeys(h, ms[i])
  {
    KeysOfMember(h, 1, ms, k);
    KeysOfMember(h, 2, ms, k);
    KeysOfMember(h, 3, ms, k);
    KeysOfMember(h, 4, ms, k);
  }

  /** Properties are never registered: the table holds no property identifier. */
  lemma RegisteredNoProperty(h: Host, ms: seq<Member>, k: Identifier)
    requires AllInHost(h, ms) && k in RegisteredKeys(h, ms)
    ensures !k.PropertyKey?
  {
    RegisteredKeysMember(h, ms, k);
    var i :| 0 <= i < |ms| && k in MemberKeys(h, ms[i]);
  }

  /** A session with an empty table, nothing listed and nothing pending may start the passes. */
  lemma BuildingStart(h: Host, g: Graph)
    requires WellFormed(h) && GraphOk(h, g)
    ensures Building(h, Session(g, map[], [], []))
  {
  }

  /** The four passes of `Create`, from a session with an empty table. */
  method Build(h: Host, s: Session, members: seq<Member>) returns (s4: Session)
    requires WellFormed(h) && GraphOk(h, s.graph) && s == Session(s.graph, map[], [], [])
    requires AllInHost(h, members)
    ensures Building(h, s4) && s4.matched.Keys == RegisteredKeys(h, members)
  {
    BuildingStart(h, s.graph);
    var s1 := NamespacePass(h, s, members);
    var s2 := TypePass(h, s1, members);
    var s3 := MethodPass(h, s2, members);
    s4 := PropertyPass(h, s3, members);
  }

  /**
   * The resolve loop and the sort of `Create`, after the passes: nothing
   * fails, every pending reference ends `Resolved` when its identifier is in
   * the table and `External` otherwise, and the forest comes back in name
   * order.
   */
  method Finish(h: Host, s: Session) returns (g1: Graph, sorted: seq<NodeId>)
    requires Building(h, s)
    ensures GraphOk(h, g1) && Forest(h, g1, s.matched, sorted) && AllResolved(g1, s.references)
    ensures forall r :: r in s.references ==> StateOf(g1, r) == Verdict(IdentOf(g1, r), s.matched)
    ensures SortedByName(sorted, NamespaceNames(g1))
    ensures forall n :: n in sorted ==> n in g1.namespaces && TypesSorted(g1, n)
  {
    EntriesSound(h, s.graph, s.matched, s.namespaces);
    ForestBuilt(h, s.graph, s.matched, s.namespaces);
    var g, o := ResolveReferences(h, s.graph, s.matched, s.references);
    assert o == Ok;
    ForestSettles(h, s.graph, g, s.matched, s.namespaces);
    AllResolvedLoop(g, s.references);
    forall r | r in s.references ensures Holds(g, r) && StateOf(g, r) == Verdict(IdentOf(g, r), s.matched) {
      var j :| 0 <= j < |s.references| && s.references[j] == r;
    }
    g1, sorted := SortModel(h, g, s.namespaces);
    ForestReordered(h, g, g1, s.matched, s.namespaces, sorted);
    AllResolvedReordered(g, g1, s.references);
    VerdictsReordered(g, g1, s.matched, s.references);
  }

  /**
   * `DocumentModel`. The graph of entities stands for the objects the
   * instance creates; `matched` is `matchedAssociations`.
   */
  class DocumentModel {
    const host: Host
    var graph: Graph
    var matched: Table

    ghost predicate Valid()
      reads this
    {
      WellFormed(host) && GraphOk(host, graph)
    }

    constructor(h: Host)
      requires WellFormed(h)
      ensures Valid() && host == h && matched == map[]
    {
      host := h;
      graph := Graph(map[], map[], map[], map[], 0);
      matched := map[];
    }

    /**
     * `Create`. The table is cleared first, so which
     * identifiers it holds afterwards depends on `members` alone. The four
     * passes build the forest; every pending reference, and with it every
     * registered type and method, ends `Resolved` when its identifier is in
     * the table and `External` otherwise; resolution
     * cannot fail on the table the passes built; the namespaces come back in
     * name order, each with its types and their members in name order.
     */
    method Create(members: seq<Member>) returns (namespaces: seq<NodeId>, ghost pending: seq<Ref>)
      requires Valid() && AllInHost(host, members)
      modifies this
      ensures Valid()
      ensures matched.Keys == RegisteredKeys(host, members)
      ensures Forest(host, graph, matched, namespaces)
      ensures AllResolved(graph, pending)
      ensures forall r :: r in pending ==> StateOf(graph, r) == Verdict(IdentOf(graph, r), matched)
      ensures forall k :: k in matched && (k.TypeKey? || k.MethodKey?) ==> matched[k] in pending
      ensures SortedByName(namespaces, NamespaceNames(graph))
      ensures forall n :: n in namespaces ==> n in graph.namespaces && TypesSorted(graph, n)
    {
      matched := map[];
      var s := Build(host, Session(graph, matched, [], []), members);
      var g;
      g, namespaces := Finish(host, s);
      graph, matched, pending := g, s.matched, s.references;
    }
  }
}
