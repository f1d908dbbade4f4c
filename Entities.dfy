/**
 * The documentation graph: namespaces, declared types, methods and
 * properties, each with a resolution state, held in an arena of nodes that
 * the builder and the resolver update in place. A node id plays the role of
 * an object reference; a `Ref` is an `IReferencable` (a node id tagged with
 * the node's kind).
 */
module Entities {
  import opened Wrappers
  import opened HostTypes

  type NodeId = nat

  /**
   * The resolution state of an entity. `External` is what
   * `ConvertToExternalReference` leaves: a reference to something outside
   * the documented assemblies, which also counts as resolved.
   */
  datatype State = Unresolved | Resolved | External

  /** `IReferencable.IsResolved`. */
  predicate IsResolved(s: State)
  {
    s != Unresolved
  }

  /** The exceptions resolution can raise. */
  datatype Error = InvalidOperation | NullReference

  /** A call that returns normally, or the exception it raised. */
  datatype Outcome = Ok | Fail(error: Error)

  /**
   * Canonical keys. A type is keyed by its handle, a namespace by its dotted
   * name, a method by its owner, name and parameter types (so overloads
   * differ), a property by its owner and name.
   */
  datatype Identifier =
    | NsKey(ns: string)
    | TypeKey(t: TypeId)
    | MethodKey(owner: TypeId, member: string, signature: seq<TypeId>)
    | PropertyKey(owner: TypeId, member: string)

  datatype Ref = NsRef(id: NodeId) | TypeRef(id: NodeId) | MethodRef(id: NodeId) | PropertyRef(id: NodeId)

  /** A parsed comment node; a `Referrer` (an `IReferrer`) carries a reference. */
  datatype Comment = Text(text: string) | Referrer(reference: Ref)

  datatype NamespaceNode = NamespaceNode(ident: Identifier, name: string, types: seq<NodeId>, state: State)

  datatype TypeNode = TypeNode(
    ident: Identifier,
    name: string,
    ns: Option<NodeId>,
    represented: Option<TypeId>,
    parent: Option<NodeId>,
    interfaces: seq<NodeId>,
    methods: seq<NodeId>,
    properties: seq<NodeId>,
    summary: seq<Comment>,
    state: State)

  datatype Parameter = Parameter(name: string, reference: NodeId, summary: seq<Comment>)

  datatype MethodNode = MethodNode(
    ident: Identifier, name: string, returnType: NodeId,
    parameters: seq<Parameter>, summary: seq<Comment>, state: State)

  datatype PropertyNode = PropertyNode(
    ident: Identifier, name: string, returnType: NodeId, summary: seq<Comment>, state: State)

  /** `matchedAssociations`: identifier to documented entity. */
  type Table = map<Identifier, Ref>

  /** The contents of the arena at one moment. */
  datatype Graph = Graph(
    namespaces: map<NodeId, NamespaceNode>,
    types: map<NodeId, TypeNode>,
    methods: map<NodeId, MethodNode>,
    properties: map<NodeId, PropertyNode>,
    next: nat)

  /**
   * The depth of a type key in the host's inheritance ranking; parent and
   * interface nodes always rank strictly lower than the node holding them.
   */
  function Rank(h: Host, id: Identifier): nat
  {
    if id.TypeKey? && id.t in h then h[id.t].depth + 1 else 0
  }

  predicate Holds(g: Graph, r: Ref)
  {
    match r
    case NsRef(n) => n in g.namespaces
    case TypeRef(x) => x in g.types
    case MethodRef(m) => m in g.methods
    case PropertyRef(p) => p in g.properties
  }

  function StateOf(g: Graph, r: Ref): State
    requires Holds(g, r)
  {
    match r
    case NsRef(n) => g.namespaces[n].state
    case TypeRef(x) => g.types[x].state
    case MethodRef(m) => g.methods[m].state
    case PropertyRef(p) => g.properties[p].state
  }

  ghost predicate CommentsOk(g: Graph, c: seq<Comment>)
  {
    forall i :: 0 <= i < |c| && c[i].Referrer? ==> Holds(g, c[i].reference)
  }

  ghost predicate NamespaceOk(g: Graph, d: NamespaceNode)
  {
    d.ident.NsKey? && forall x :: x in d.types ==> x in g.types
  }

  ghost predicate TypeOk(h: Host, g: Graph, d: TypeNode)
  {
    && d.ident.TypeKey?
    && (d.ns.Some? ==> d.ns.value in g.namespaces)
    && (d.represented.Some? ==> d.represented.value in h)
    && (d.parent.Some? ==> d.parent.value in g.types && Rank(h, g.types[d.parent.value].ident) < Rank(h, d.ident))
    && (forall i :: 0 <= i < |d.interfaces| ==>
          d.interfaces[i] in g.types && Rank(h, g.types[d.interfaces[i]].ident) < Rank(h, d.ident))
    && (forall m :: m in d.methods ==> m in g.methods)
    && (forall p :: p in d.properties ==> p in g.properties)
    && CommentsOk(g, d.summary)
  }

  ghost predicate MethodOk(g: Graph, d: MethodNode)
  {
    && d.returnType in g.types
    && (forall i :: 0 <= i < |d.parameters| ==>
          d.parameters[i].reference in g.types && CommentsOk(g, d.parameters[i].summary))
    && CommentsOk(g, d.summary)
  }

  ghost predicate PropertyOk(g: Graph, d: PropertyNode)
  {
    d.returnType in g.types && CommentsOk(g, d.summary)
  }

  /**
   * Every reference points at a node of its kind; ids below `next` are taken.
   * The per-node facts are instantiated only on demand: a node mentions other
   * nodes, so a trigger on `g.types[x]` would instantiate without end.
   */
  ghost predicate GraphOk(h: Host, g: Graph)
  {
    && (forall n :: n in g.namespaces ==> n < g.next)
    && (forall x :: x in g.types ==> x < g.next)
    && (forall m :: m in g.methods ==> m < g.next)
    && (forall p :: p in g.properties ==> p < g.next)
    && (forall n {:trigger NamespaceOk(g, g.namespaces[n])} ::
          n in g.namespaces ==> NamespaceOk(g, g.namespaces[n]))
    && (forall x {:trigger TypeOk(h, g, g.types[x])} :: x in g.types ==> TypeOk(h, g, g.types[x]))
    && (forall m {:trigger MethodOk(g, g.methods[m])} :: m in g.methods ==> MethodOk(g, g.methods[m]))
    && (forall p {:trigger PropertyOk(g, g.properties[p])} ::
          p in g.properties ==> PropertyOk(g, g.properties[p]))
  }

  /** `g1` keeps every node of `g0` and the identifier of every type node. */
  ghost predicate Compatible(g0: Graph, g1: Graph)
  {
    && g0.next <= g1.next
    && g0.namespaces.Keys <= g1.namespaces.Keys
    && g0.types.Keys <= g1.types.Keys
    && g0.methods.Keys <= g1.methods.Keys
    && g0.properties.Keys <= g1.properties.Keys
    && forall x :: x in g0.types ==> g1.types[x].ident == g0.types[x].ident
  }

  lemma CommentsOkMono(g0: Graph, g1: Graph, c: seq<Comment>)
    requires Compatible(g0, g1) && CommentsOk(g0, c)
    ensures CommentsOk(g1, c)
  {
    forall i | 0 <= i < |c| && c[i].Referrer? ensures Holds(g1, c[i].reference) {
      assert Holds(g0, c[i].reference);
    }
  }

  lemma TypeOkMono(h: Host, g0: Graph, g1: Graph, d: TypeNode)
    requires Compatible(g0, g1) && TypeOk(h, g0, d)
    ensures TypeOk(h, g1, d)
  {
    CommentsOkMono(g0, g1, d.summary);
  }

  lemma MethodOkMono(g0: Graph, g1: Graph, d: MethodNode)
    requires Compatible(g0, g1) && MethodOk(g0, d)
    ensures MethodOk(g1, d)
  {
    CommentsOkMono(g0, g1, d.summary);
    forall i | 0 <= i < |d.parameters| ensures CommentsOk(g1, d.parameters[i].summary) {
      CommentsOkMono(g0, g1, d.parameters[i].summary);
    }
  }

  lemma PropertyOkMono(g0: Graph, g1: Graph, d: PropertyNode)
    requires Compatible(g0, g1) && PropertyOk(g0, d)
    ensures PropertyOk(g1, d)
  {
    CommentsOkMono(g0, g1, d.summary);
  }

  /**
   * A compatible successor of a valid graph is valid when each of its nodes
   * is either an unchanged old node or valid on its own.
   */
  lemma GraphOkStep(h: Host, g0: Graph, g1: Graph)
    requires GraphOk(h, g0) && Compatible(g0, g1)
    requires forall n :: n in g1.namespaces ==>
               n < g1.next &&
               ((n in g0.namespaces && g1.namespaces[n] == g0.namespaces[n]) || NamespaceOk(g1, g1.namespaces[n]))
    requires forall x :: x in g1.types ==>
               x < g1.next &&
               ((x in g0.types && g1.types[x] == g0.types[x]) || TypeOk(h, g1, g1.types[x]))
    requires forall m :: m in g1.methods ==>
               m < g1.next &&
               ((m in g0.methods && g1.methods[m] == g0.methods[m]) || MethodOk(g1, g1.methods[m]))
    requires forall p :: p in g1.properties ==>
               p < g1.next &&
               ((p in g0.properties && g1.properties[p] == g0.properties[p]) || PropertyOk(g1, g1.properties[p]))
    ensures GraphOk(h, g1)
  {
    forall n | n in g1.namespaces ensures NamespaceOk(g1, g1.namespaces[n]) {
      if n in g0.namespaces && g1.namespaces[n] == g0.namespaces[n] { assert NamespaceOk(g0, g0.namespaces[n]); }
    }
    forall x | x in g1.types ensures TypeOk(h, g1, g1.types[x]) {
      if x in g0.types && g1.types[x] == g0.types[x] { TypeOkMono(h, g0, g1, g0.types[x]); }
    }
    forall m | m in g1.methods ensures MethodOk(g1, g1.methods[m]) {
      if m in g0.methods && g1.methods[m] == g0.methods[m] { MethodOkMono(g0, g1, g0.methods[m]); }
    }
    forall p | p in g1.properties ensures PropertyOk(g1, g1.properties[p]) {
      if p in g0.properties && g1.properties[p] == g0.properties[p] { PropertyOkMono(g0, g1, g0.properties[p]); }
    }
  }

  /** Every entry of the table points at a node; a type entry at a type keyed alike. */
  ghost predicate TableOk(g: Graph, table: Table)
  {
    forall k :: k in table ==>
      && Holds(g, table[k])
      && (table[k].TypeRef? ==> g.types[table[k].id].ident == k)
  }

  lemma TableOkMono(g0: Graph, g1: Graph, table: Table)
    requires Compatible(g0, g1) && TableOk(g0, table)
    ensures TableOk(g1, table)
  {
  }

  /**
   * The table the builder produces: type keys map to types, and every
   * documented type has a namespace. Under it resolution cannot fail.
   */
  ghost predicate TableSound(g: Graph, table: Table)
  {
    forall k :: k in table && k.TypeKey? ==>
      table[k].TypeRef? && table[k].id in g.types && g.types[table[k].id].ns.Some?
  }

  /** Nodes of `g0` are unchanged in `g1`; new ones may have been added. */
  ghost predicate Extends(g0: Graph, g1: Graph)
  {
    && g0.next <= g1.next
    && (forall n :: n in g0.namespaces ==> n in g1.namespaces && g1.namespaces[n] == g0.namespaces[n])
    && (forall x :: x in g0.types ==> x in g1.types && g1.types[x] == g0.types[x])
    && (forall m :: m in g0.methods ==> m in g1.methods && g1.methods[m] == g0.methods[m])
    && (forall p :: p in g0.properties ==> p in g1.properties && g1.properties[p] == g0.properties[p])
  }

  /** Changing a node that is new since `g0` keeps every node of `g0`. */
  lemma ExtendsUpdate(g0: Graph, g: Graph, x: NodeId, d: TypeNode)
    requires Extends(g0, g) && x !in g0.types
    ensures Extends(g0, g.(types := g.types[x := d]))
  {
  }

  // ---- one-node updates of a graph ------------------------------------------

  lemma NamespaceAdded(h: Host, g: Graph, d: NamespaceNode)
    requires GraphOk(h, g) && NamespaceOk(g, d)
    ensures var g1 := g.(namespaces := g.namespaces[g.next := d], next := g.next + 1);
            GraphOk(h, g1) && Extends(g, g1)
  {
    var g1 := g.(namespaces := g.namespaces[g.next := d], next := g.next + 1);
    GraphOkStep(h, g, g1);
  }

  lemma TypeAdded(h: Host, g: Graph, d: TypeNode)
    requires GraphOk(h, g) && TypeOk(h, g, d)
    ensures var g1 := g.(types := g.types[g.next := d], next := g.next + 1);
            GraphOk(h, g1) && Extends(g, g1)
  {
    var g1 := g.(types := g.types[g.next := d], next := g.next + 1);
    TypeOkMono(h, g, g1, d);
    GraphOkStep(h, g, g1);
  }

  lemma MethodAdded(h: Host, g: Graph, d: MethodNode)
    requires GraphOk(h, g) && MethodOk(g, d)
    ensures var g1 := g.(methods := g.methods[g.next := d], next := g.next + 1);
            GraphOk(h, g1) && Extends(g, g1)
  {
    var g1 := g.(methods := g.methods[g.next := d], next := g.next + 1);
    MethodOkMono(g, g1, d);
    GraphOkStep(h, g, g1);
  }

  lemma PropertyAdded(h: Host, g: Graph, d: PropertyNode)
    requires GraphOk(h, g) && PropertyOk(g, d)
    ensures var g1 := g.(properties := g.properties[g.next := d], next := g.next + 1);
            GraphOk(h, g1) && Extends(g, g1)
  {
    var g1 := g.(properties := g.properties[g.next := d], next := g.next + 1);
    PropertyOkMono(g, g1, d);
    GraphOkStep(h, g, g1);
  }

  lemma TypeReplaced(h: Host, g: Graph, x: NodeId, d: TypeNode)
    requires GraphOk(h, g) && x in g.types && d.ident == g.types[x].ident && TypeOk(h, g, d)
    ensures GraphOk(h, g.(types := g.types[x := d]))
  {
    var g1 := g.(types := g.types[x := d]);
    TypeOkMono(h, g, g1, d);
    GraphOkStep(h, g, g1);
  }

  lemma NamespaceStateSet(h: Host, g: Graph, n: NodeId, s: State)
    requires GraphOk(h, g) && n in g.namespaces
    ensures GraphOk(h, g.(namespaces := g.namespaces[n := g.namespaces[n].(state := s)]))
  {
    assert NamespaceOk(g, g.namespaces[n]);
    GraphOkStep(h, g, g.(namespaces := g.namespaces[n := g.namespaces[n].(state := s)]));
  }

  lemma MethodStateSet(h: Host, g: Graph, m: NodeId, s: State)
    requires GraphOk(h, g) && m in g.methods
    ensures GraphOk(h, g.(methods := g.methods[m := g.methods[m].(state := s)]))
  {
    var g1 := g.(methods := g.methods[m := g.methods[m].(state := s)]);
    MethodOkMono(g, g1, g.methods[m]);
    GraphOkStep(h, g, g1);
  }

  lemma PropertyStateSet(h: Host, g: Graph, p: NodeId, s: State)
    requires GraphOk(h, g) && p in g.properties
    ensures GraphOk(h, g.(properties := g.properties[p := g.properties[p].(state := s)]))
  {
    var g1 := g.(properties := g.properties[p := g.properties[p].(state := s)]);
    PropertyOkMono(g, g1, g.properties[p]);
    GraphOkStep(h, g, g1);
  }

  // ---- the steps that create and update objects ------------------------------
  //
  // Each takes the graph before the step and returns the graph after it.

  /** `new Namespace(...)`: a fresh node; nothing else changes. */
  method NewNamespace(h: Host, g: Graph, d: NamespaceNode) returns (g1: Graph, n: NodeId)
    requires GraphOk(h, g) && NamespaceOk(g, d)
    ensures GraphOk(h, g1) && Extends(g, g1)
    ensures n == g.next && n !in g.namespaces
    ensures g1 == g.(namespaces := g.namespaces[n := d], next := n + 1)
  {
    NamespaceAdded(h, g, d);
    n := g.next;
    g1 := g.(namespaces := g.namespaces[n := d], next := n + 1);
  }

  /** `new DeclaredType(...)`. */
  method NewType(h: Host, g: Graph, d: TypeNode) returns (g1: Graph, x: NodeId)
    requires GraphOk(h, g) && TypeOk(h, g, d)
    ensures GraphOk(h, g1) && Extends(g, g1)
    ensures x == g.next && x !in g.types
    ensures g1 == g.(types := g.types[x := d], next := x + 1)
  {
    TypeAdded(h, g, d);
    x := g.next;
    g1 := g.(types := g.types[x := d], next := x + 1);
  }

  /** `new Method(...)`. */
  method NewMethod(h: Host, g: Graph, d: MethodNode) returns (g1: Graph, m: NodeId)
    requires GraphOk(h, g) && MethodOk(g, d)
    ensures GraphOk(h, g1) && Extends(g, g1)
    ensures m == g.next && m !in g.methods
    ensures g1 == g.(methods := g.methods[m := d], next := m + 1)
  {
    MethodAdded(h, g, d);
    m := g.next;
    g1 := g.(methods := g.methods[m := d], next := m + 1);
  }

  /** `new Property(...)`. */
  method NewProperty(h: Host, g: Graph, d: PropertyNode) returns (g1: Graph, p: NodeId)
    requires GraphOk(h, g) && PropertyOk(g, d)
    ensures GraphOk(h, g1) && Extends(g, g1)
    ensures p == g.next && p !in g.properties
    ensures g1 == g.(properties := g.properties[p := d], next := p + 1)
  {
    PropertyAdded(h, g, d);
    p := g.next;
    g1 := g.(properties := g.properties[p := d], next := p + 1);
  }

  /** Assignments to the fields of a declared type other than its identifier. */
  method UpdateType(h: Host, g: Graph, x: NodeId, d: TypeNode) returns (g1: Graph)
    requires GraphOk(h, g) && x in g.types && d.ident == g.types[x].ident && TypeOk(h, g, d)
    ensures GraphOk(h, g1)
    ensures g1 == g.(types := g.types[x := d])
  {
    TypeReplaced(h, g, x, d);
    g1 := g.(types := g.types[x := d]);
  }

  /**
   * `Namespace.AddType`: its code is not part of this model; it is taken to
   * append `x` to the types of `n`, nothing else changing.
   */
  method NamespaceAddType(h: Host, g: Graph, n: NodeId, x: NodeId) returns (g1: Graph)
    requires GraphOk(h, g) && n in g.namespaces && x in g.types
    ensures GraphOk(h, g1)
    ensures g1 == g.(namespaces := g.namespaces[n := g.namespaces[n].(types := g.namespaces[n].types + [x])])
  {
    NamespaceTypeAdded(h, g, n, x);
    g1 := g.(namespaces := g.namespaces[n := g.namespaces[n].(types := g.namespaces[n].types + [x])]);
  }

  lemma NamespaceTypeAdded(h: Host, g: Graph, n: NodeId, x: NodeId)
    requires GraphOk(h, g) && n in g.namespaces && x in g.types
    ensures GraphOk(h, g.(namespaces := g.namespaces[n := g.namespaces[n].(types := g.namespaces[n].types + [x])]))
  {
    var d := g.namespaces[n];
    assert NamespaceOk(g, d);
    GraphOkStep(h, g, g.(namespaces := g.namespaces[n := d.(types := d.types + [x])]));
  }

  // ---- resolution of the entities whose code is not modelled ----------------

  /**
   * What resolution makes of a node: resolved when its identifier is in the
   * table, an external reference otherwise.
   */
  function Verdict(id: Identifier, table: Table): (s: State)
    ensures IsResolved(s) && (s == Resolved <==> id in table)
  {
    if id in table then Resolved else External
  }

  /**
   * `Namespace.Resolve`, `Method.Resolve`, `Property.Resolve`: their code
   * is not part of this model; their effect is taken to be that the node
   * becomes `Resolved` when its identifier is in the table and `External`
   * otherwise, nothing else changing.
   */
  method ResolveNamespace(h: Host, g: Graph, n: NodeId, table: Table) returns (g1: Graph)
    requires GraphOk(h, g) && n in g.namespaces
    ensures GraphOk(h, g1)
    ensures g1 == g.(namespaces := g.namespaces[n := g.namespaces[n].(
                state := Verdict(g.namespaces[n].ident, table))])
  {
    var d := g.namespaces[n];
    var s := if d.ident in table then Resolved else External;
    NamespaceStateSet(h, g, n, s);
    g1 := g.(namespaces := g.namespaces[n := d.(state := s)]);
  }

  method ResolveMethod(h: Host, g: Graph, m: NodeId, table: Table) returns (g1: Graph)
    requires GraphOk(h, g) && m in g.methods
    ensures GraphOk(h, g1)
    ensures g1 == g.(methods := g.methods[m := g.methods[m].(
                state := Verdict(g.methods[m].ident, table))])
  {
    var d := g.methods[m];
    var s := if d.ident in table then Resolved else External;
    MethodStateSet(h, g, m, s);
    g1 := g.(methods := g.methods[m := d.(state := s)]);
  }

  method ResolveProperty(h: Host, g: Graph, p: NodeId, table: Table) returns (g1: Graph)
    requires GraphOk(h, g) && p in g.properties
    ensures GraphOk(h, g1)
    ensures g1 == g.(properties := g.properties[p := g.properties[p].(
                state := Verdict(g.properties[p].ident, table))])
  {
    var d := g.properties[p];
    var s := if d.ident in table then Resolved else External;
    PropertyStateSet(h, g, p, s);
    g1 := g.(properties := g.properties[p := d.(state := s)]);
  }
}
