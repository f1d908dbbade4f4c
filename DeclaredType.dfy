/**
 * `DeclaredType`: placeholder construction from host metadata (with the
 * direct-interface filter), in-place resolution against the entity table,
 * the name getters, and the member lists with their sort.
 */
module DeclaredType {
  import opened Wrappers
  import opened HostTypes
  import opened Entities
  import opened Names

  // ---- direct interfaces ----------------------------------------------------

  /**
   * `FilterInterfaces`: walks the interfaces of `t` (and then its base type),
   * removing each one still in `top` and descending only into those it did
   * not remove. The result keeps the order of `top`, drops only interfaces
   * found below `t`, and holds none of the interfaces `t` lists.
   */
  method FilterInterfaces(h: Host, top: seq<TypeId>, t: TypeId) returns (r: seq<TypeId>)
    requires WellFormed(h) && t in h && NoDuplicates(top)
    ensures IsSubsequence(r, top)
    ensures forall x :: x in top && x !in r ==> Below(h, t, x)
    ensures forall x :: x in h[t].interfaces ==> x !in r
    decreases h[t].depth
  {
    assert RankedAt(h, t) && ClosedAt(h, t);
    var faces := h[t].interfaces;
    r := top;
    SubsequenceReflexive(top);
    for i := 0 to |faces|
      invariant IsSubsequence(r, top)
      invariant forall x :: x in top && x !in r ==> Below(h, t, x)
      invariant forall k :: 0 <= k < i ==> faces[k] !in r
    {
      SubsequenceNoDuplicates(r, top);
      var face := faces[i];
      ghost var before := r;
      if face in r {
        forall y ensures y in RemoveFirst(r, face) <==> y in r && y != face {
          RemoveFirstMembers(r, face, y);
        }
        r := RemoveFirst(r, face);
      } else {
        r := FilterInterfaces(h, r, face);
        forall x | x in before && x !in r ensures Below(h, t, x) {
          assert face in h[t].interfaces && Below(h, face, x);
        }
      }
      SubsequenceTransitive(r, before, top);
      forall k | 0 <= k <= i ensures faces[k] !in r {
        if faces[k] in r { SubsequenceMembers(r, before, faces[k]); }
      }
    }
    if h[t].base.Some? {
      SubsequenceNoDuplicates(r, top);
      ghost var before := r;
      r := FilterInterfaces(h, r, h[t].base.value);
      SubsequenceTransitive(r, before, top);
      forall x | x in faces ensures x !in r {
        if x in r { SubsequenceMembers(r, before, x); }
      }
    }
  }

  /**
   * `GetInterfaces`: the interfaces of `t` less every interface that another
   * of them, or the base type, already brings; the order of
   * `GetInterfaces()` is kept.
   */
  method GetInterfaces(h: Host, t: TypeId) returns (r: seq<TypeId>)
    requires WellFormed(h) && t in h
    ensures r == DirectInterfaces(h, t)
  {
    assert RankedAt(h, t) && ClosedAt(h, t);
    var faces := h[t].interfaces;
    r := faces;
    SubsequenceReflexive(faces);
    for i := 0 to |faces|
      invariant IsSubsequence(r, faces)
      invariant forall x :: x in faces && x !in r ==> !IsDirect(h, t, x)
      invariant forall k, x :: 0 <= k < i && x in h[faces[k]].interfaces ==> x !in r
    {
      SubsequenceNoDuplicates(r, faces);
      ghost var before := r;
      r := FilterInterfaces(h, r, faces[i]);
      SubsequenceTransitive(r, before, faces);
      forall x | x in before && x !in r ensures !IsDirect(h, t, x) {
        BelowIsListed(h, faces[i], x);
      }
      forall k, x | 0 <= k < i && x in h[faces[k]].interfaces ensures x !in r {
        if x in r { SubsequenceMembers(r, before, x); }
      }
    }
    if h[t].base.Some? {
      var b := h[t].base.value;
      SubsequenceNoDuplicates(r, faces);
      ghost var before := r;
      r := FilterInterfaces(h, r, b);
      SubsequenceTransitive(r, before, faces);
      forall x | x in before && x !in r ensures !IsDirect(h, t, x) {
        BelowIsListed(h, b, x);
      }
      forall k, x | 0 <= k < |faces| && x in h[faces[k]].interfaces ensures x !in r {
        if x in r { SubsequenceMembers(r, before, x); }
      }
    }
    forall x ensures x in r <==> x in faces && IsDirect(h, t, x) {
      if x in r {
        SubsequenceMembers(r, faces, x);
        forall j | j in faces && j in h ensures x !in h[j].interfaces {
          var k :| 0 <= k < |faces| && faces[k] == j;
        }
      }
    }
    SubsequenceIsKeepDirect(h, t, r, faces);
  }

  // ---- placeholders ---------------------------------------------------------

  /** `Namespace.Unresolved(Identifier.FromNamespace(name))`. */
  function NamespacePlaceholder(name: string): (d: NamespaceNode)
    ensures d.ident == NsKey(name) && d.name == name && d.types == [] && d.state == State.Unresolved
  {
    NamespaceNode(NsKey(name), name, [], State.Unresolved)
  }

  /** `x`'s namespace is a fresh-looking placeholder for the namespace of `t`. */
  ghost predicate HasNamespacePlaceholder(h: Host, g: Graph, x: NodeId, t: TypeId)
    requires t in h
  {
    && x in g.types && g.types[x].ns.Some? && g.types[x].ns.value in g.namespaces
    && g.namespaces[g.types[x].ns.value] == NamespacePlaceholder(h[t].ns)
  }

  /**
   * `x` is what `Unresolved` builds for the host type `t`: an unresolved node
   * representing `t`, with a parent placeholder exactly when `t` has a base
   * type and one interface placeholder per direct interface of `t`, in order.
   */
  ghost predicate IsPlaceholder(h: Host, g: Graph, x: NodeId, t: TypeId)
    requires Ranked(h) && t in h
    decreases h[t].depth
  {
    assert RankedAt(h, t);
    && x in g.types
    && var d := g.types[x];
    && d.ident == TypeKey(t) && d.name == h[t].name && d.represented == Some(t)
    && d.state == State.Unresolved && d.methods == [] && d.properties == [] && d.summary == []
    && (d.parent.Some? <==> h[t].base.Some?)
    && (d.parent.Some? ==>
          HasNamespacePlaceholder(h, g, d.parent.value, h[t].base.value)
          && IsPlaceholder(h, g, d.parent.value, h[t].base.value))
    && |d.interfaces| == |DirectInterfaces(h, t)|
    && forall i :: 0 <= i < |d.interfaces| ==>
          HasNamespacePlaceholder(h, g, d.interfaces[i], DirectInterfaces(h, t)[i])
          && IsPlaceholder(h, g, d.interfaces[i], DirectInterfaces(h, t)[i])
  }

  lemma {:induction false} PlaceholderStable(h: Host, g0: Graph, g1: Graph, x: NodeId, t: TypeId)
    requires Ranked(h) && t in h && Extends(g0, g1) && IsPlaceholder(h, g0, x, t)
    ensures IsPlaceholder(h, g1, x, t)
    decreases h[t].depth
  {
    assert RankedAt(h, t);
    var d := g0.types[x];
    if d.parent.Some? {
      PlaceholderStable(h, g0, g1, d.parent.value, h[t].base.value);
    }
    forall i | 0 <= i < |d.interfaces|
      ensures IsPlaceholder(h, g1, d.interfaces[i], DirectInterfaces(h, t)[i])
    {
      PlaceholderStable(h, g0, g1, d.interfaces[i], DirectInterfaces(h, t)[i]);
    }
  }

  /** Each `ifs[k]` is a placeholder, with its namespace placeholder, for `faces[k]`. */
  ghost predicate ArePlaceholders(h: Host, g: Graph, ifs: seq<NodeId>, faces: seq<TypeId>)
    requires Ranked(h) && |ifs| <= |faces| && forall k :: 0 <= k < |faces| ==> faces[k] in h
  {
    forall k :: 0 <= k < |ifs| ==>
      HasNamespacePlaceholder(h, g, ifs[k], faces[k]) && IsPlaceholder(h, g, ifs[k], faces[k])
  }

  lemma ArePlaceholdersStable(h: Host, g0: Graph, g1: Graph, ifs: seq<NodeId>, faces: seq<TypeId>)
    requires Ranked(h) && |ifs| <= |faces| && forall k :: 0 <= k < |faces| ==> faces[k] in h
    requires Extends(g0, g1) && ArePlaceholders(h, g0, ifs, faces)
    ensures ArePlaceholders(h, g1, ifs, faces)
  {
    forall k | 0 <= k < |ifs|
      ensures HasNamespacePlaceholder(h, g1, ifs[k], faces[k]) && IsPlaceholder(h, g1, ifs[k], faces[k])
    {
      PlaceholderStable(h, g0, g1, ifs[k], faces[k]);
    }
  }

  lemma ArePlaceholdersSnoc(h: Host, g: Graph, ifs: seq<NodeId>, faces: seq<TypeId>, f: NodeId)
    requires Ranked(h) && |ifs| < |faces| && forall k :: 0 <= k < |faces| ==> faces[k] in h
    requires ArePlaceholders(h, g, ifs, faces)
    requires HasNamespacePlaceholder(h, g, f, faces[|ifs|]) && IsPlaceholder(h, g, f, faces[|ifs|])
    ensures ArePlaceholders(h, g, ifs + [f], faces)
  {
    var r := ifs + [f];
    forall k | 0 <= k < |r|
      ensures HasNamespacePlaceholder(h, g, r[k], faces[k]) && IsPlaceholder(h, g, r[k], faces[k])
    {
      if k < |ifs| { assert r[k] == ifs[k]; }
    }
  }

  lemma ExtendsTransitive(g0: Graph, g1: Graph, g2: Graph)
    requires Extends(g0, g1) && Extends(g1, g2)
    ensures Extends(g0, g2)
  {
  }

  /**
   * `Unresolved(Identifier.FromType(c), c, Namespace.Unresolved(Identifier.FromNamespace(c.Namespace)))`:
   * a placeholder for the host type `c` in a fresh namespace placeholder. It
   * builds each parent and interface placeholder, and the document model
   * builds return and parameter types with it.
   */
  method NewReference(h: Host, g: Graph, c: TypeId) returns (g1: Graph, f: NodeId)
    requires GraphOk(h, g) && WellFormed(h) && c in h
    ensures GraphOk(h, g1) && Extends(g, g1)
    ensures f !in g.types
    ensures HasNamespacePlaceholder(h, g1, f, c) && IsPlaceholder(h, g1, f, c)
    decreases h[c].depth, 3
  {
    var g0, n := NewNamespace(h, g, NamespacePlaceholder(h[c].ns));
    g1, f := Unresolved(h, g0, c, Some(n));
    ExtendsTransitive(g, g0, g1);
  }

  /** The loop of `Unresolved` over the direct interfaces `faces` of `t`. */
  method InterfacePlaceholders(h: Host, g: Graph, t: TypeId, faces: seq<TypeId>)
      returns (g1: Graph, ifs: seq<NodeId>)
    requires GraphOk(h, g) && WellFormed(h) && t in h
    requires forall k :: 0 <= k < |faces| ==> faces[k] in h && h[faces[k]].depth < h[t].depth
    ensures GraphOk(h, g1) && Extends(g, g1)
    ensures |ifs| == |faces| && ArePlaceholders(h, g1, ifs, faces)
    ensures forall k :: 0 <= k < |ifs| ==> ifs[k] !in g.types
    decreases h[t].depth, 1
  {
    g1 := g;
    ifs := [];
    for i := 0 to |faces|
      invariant GraphOk(h, g1) && Extends(g, g1)
      invariant |ifs| == i && ArePlaceholders(h, g1, ifs, faces)
      invariant forall k :: 0 <= k < |ifs| ==> ifs[k] !in g.types
    {
      g1, ifs := AddChild(h, g1, t, faces, ifs, g);
    }
  }

  /** One step of that loop: the placeholder for the next interface. */
  method AddChild(h: Host, g: Graph, t: TypeId, faces: seq<TypeId>, ifs: seq<NodeId>, ghost start: Graph)
      returns (g1: Graph, r: seq<NodeId>)
    requires GraphOk(h, g) && WellFormed(h) && t in h && |ifs| < |faces|
    requires forall k :: 0 <= k < |faces| ==> faces[k] in h && h[faces[k]].depth < h[t].depth
    requires Extends(start, g) && ArePlaceholders(h, g, ifs, faces)
    requires forall k :: 0 <= k < |ifs| ==> ifs[k] !in start.types
    ensures GraphOk(h, g1) && Extends(start, g1)
    ensures |r| == |ifs| + 1 && r[..|ifs|] == ifs
    ensures ArePlaceholders(h, g1, r, faces)
    ensures forall k :: 0 <= k < |r| ==> r[k] !in start.types
    decreases h[t].depth, 0
  {
    var f;
    g1, f := NewReference(h, g, faces[|ifs|]);
    ExtendsTransitive(start, g, g1);
    ArePlaceholdersStable(h, g, g1, ifs, faces);
    ArePlaceholdersSnoc(h, g1, ifs, faces, f);
    r := ifs + [f];
  }

  /**
   * `DeclaredType.Unresolved(Identifier.FromType(t), t, ns)`: a new
   * unresolved node for `t` whose parent and interfaces are new placeholders
   * built the same way, each with its own namespace placeholder. Nothing
   * already in the graph changes.
   */
  method Unresolved(h: Host, g: Graph, t: TypeId, ns: Option<NodeId>) returns (g1: Graph, x: NodeId)
    requires GraphOk(h, g) && WellFormed(h) && t in h && (ns.Some? ==> ns.value in g.namespaces)
    ensures GraphOk(h, g1) && Extends(g, g1)
    ensures x !in g.types && IsPlaceholder(h, g1, x, t) && g1.types[x].ns == ns
    decreases h[t].depth, 2
  {
    assert RankedAt(h, t);
    var ga := g;
    var parent: Option<NodeId> := None;
    if h[t].base.Some? {
      var p;
      ga, p := NewReference(h, g, h[t].base.value);
      parent := Some(p);
    }
    var faces := GetInterfaces(h, t);
    assert forall k :: 0 <= k < |faces| ==> faces[k] in h[t].interfaces;
    var gb, ifs := InterfacePlaceholders(h, ga, t, faces);
    ExtendsTransitive(g, ga, gb);
    if parent.Some? {
      PlaceholderStable(h, ga, gb, parent.value, h[t].base.value);
    }
    g1, x := NewPlaceholder(h, gb, t, ns, parent, ifs, faces);
    ExtendsTransitive(g, gb, g1);
  }

  /** The final allocation of `Unresolved`, once the parent and interfaces exist. */
  method NewPlaceholder(h: Host, g: Graph, t: TypeId, ns: Option<NodeId>, parent: Option<NodeId>,
                        ifs: seq<NodeId>, faces: seq<TypeId>) returns (g1: Graph, x: NodeId)
    requires GraphOk(h, g) && WellFormed(h) && t in h && (ns.Some? ==> ns.value in g.namespaces)
    requires RankedAt(h, t) && faces == DirectInterfaces(h, t) && |ifs| == |faces|
    requires ArePlaceholders(h, g, ifs, faces)
    requires parent.Some? <==> h[t].base.Some?
    requires parent.Some? ==>
               HasNamespacePlaceholder(h, g, parent.value, h[t].base.value)
               && IsPlaceholder(h, g, parent.value, h[t].base.value)
    ensures GraphOk(h, g1) && Extends(g, g1)
    ensures x !in g.types && IsPlaceholder(h, g1, x, t) && g1.types[x].ns == ns
  {
    var d := TypeNode(TypeKey(t), h[t].name, ns, Some(t), parent, ifs, [], [], [], State.Unresolved);
    forall i | 0 <= i < |ifs|
      ensures ifs[i] in g.types && Rank(h, g.types[ifs[i]].ident) < Rank(h, d.ident)
    {
      assert IsPlaceholder(h, g, ifs[i], faces[i]);
    }
    assert TypeOk(h, g, d);
    g1, x := NewType(h, g, d);
    if parent.Some? {
      PlaceholderStable(h, g, g1, parent.value, h[t].base.value);
    }
    ArePlaceholdersStable(h, g, g1, ifs, faces);
  }

  /**
   * `DeclaredType.Unresolved(typeIdentifier, ns)`, the overload that knows
   * only a type's key and name (as a comment cross-reference does): an
   * unresolved node with no represented type, parent or interfaces.
   */
  method UnresolvedNamed(h: Host, g: Graph, t: TypeId, name: string, ns: Option<NodeId>)
      returns (g1: Graph, x: NodeId)
    requires GraphOk(h, g) && (ns.Some? ==> ns.value in g.namespaces)
    ensures GraphOk(h, g1) && Extends(g, g1)
    ensures x !in g.types && x in g1.types
    ensures g1.types[x] == TypeNode(TypeKey(t), name, ns, None, None, [], [], [], [], State.Unresolved)
  {
    g1, x := NewType(h, g, TypeNode(TypeKey(t), name, ns, None, None, [], [], [], [], State.Unresolved));
  }

  // ---- resolution -------------------------------------------------------------

  /** What resolution never changes about a declared type. */
  predicate SameFixed(a: TypeNode, b: TypeNode)
  {
    a.ident == b.ident && a.name == b.name && a.methods == b.methods
    && a.properties == b.properties && a.summary == b.summary
  }

  /** A namespace as resolution may change it: its state alone. */
  predicate SameNamespace(a: NamespaceNode, b: NamespaceNode)
  {
    a.ident == b.ident && a.name == b.name && a.types == b.types
  }

  /** The namespace, parent and interfaces of `d` exist and are resolved. */
  ghost predicate Settled(g: Graph, d: TypeNode)
  {
    && (d.ns.Some? ==> d.ns.value in g.namespaces && IsResolved(g.namespaces[d.ns.value].state))
    && (d.parent.Some? ==> d.parent.value in g.types && IsResolved(g.types[d.parent.value].state))
    && InterfacesResolved(g, d)
  }

  /** Every interface of `d` exists and is resolved. */
  ghost predicate InterfacesResolved(g: Graph, d: TypeNode)
  {
    forall i :: 0 <= i < |d.interfaces| ==> d.interfaces[i] in g.types && IsResolved(g.types[d.interfaces[i]].state)
  }

  /**
   * What a resolution started at `x`, of rank `r`, may do to the type `y`:
   * change its state and copied fields only if it is `x`, or unresolved and
   * ranked below `r`; its state either stays or becomes its verdict.
   */
  ghost predicate TypeFrameAt(h: Host, g0: Graph, g1: Graph, x: NodeId, r: nat, table: Table, y: NodeId)
    requires y in g0.types && y in g1.types
  {
    && SameFixed(g1.types[y], g0.types[y])
    && (g1.types[y].state == g0.types[y].state || g1.types[y].state == Verdict(g0.types[y].ident, table))
    && (y != x && (IsResolved(g0.types[y].state) || Rank(h, g0.types[y].ident) >= r) ==>
          g1.types[y] == g0.types[y])
  }

  /** What resolution may do to the namespace `n`: give it its verdict, if it is not resolved yet. */
  ghost predicate NamespaceFrameAt(g0: Graph, g1: Graph, n: NodeId, table: Table)
    requires n in g0.namespaces && n in g1.namespaces
  {
    && SameNamespace(g1.namespaces[n], g0.namespaces[n])
    && (IsResolved(g0.namespaces[n].state) ==> g1.namespaces[n] == g0.namespaces[n])
    && (g1.namespaces[n].state == g0.namespaces[n].state ||
        g1.namespaces[n].state == Verdict(g0.namespaces[n].ident, table))
  }

  /**
   * The whole footprint of a resolution started at `x`: nothing is added or
   * removed, methods and properties are untouched, and every namespace and
   * type stays within its frame. The per-node facts are instantiated on
   * demand, by naming `TypeFrameAt` or `NamespaceFrameAt`.
   */
  ghost predicate ResolveFrame(h: Host, g0: Graph, g1: Graph, x: NodeId, r: nat, table: Table)
  {
    && g1.next == g0.next
    && g1.namespaces.Keys == g0.namespaces.Keys && g1.types.Keys == g0.types.Keys
    && g1.methods == g0.methods && g1.properties == g0.properties
    && (forall n {:trigger NamespaceFrameAt(g0, g1, n, table)} ::
          n in g0.namespaces ==> NamespaceFrameAt(g0, g1, n, table))
    && (forall y {:trigger TypeFrameAt(h, g0, g1, x, r, table, y)} ::
          y in g0.types ==> TypeFrameAt(h, g0, g1, x, r, table, y))
  }

  lemma FrameReflexive(h: Host, g: Graph, x: NodeId, r: nat, table: Table)
    ensures ResolveFrame(h, g, g, x, r, table)
  {
    forall n | n in g.namespaces ensures NamespaceFrameAt(g, g, n, table) { }
    forall y | y in g.types ensures TypeFrameAt(h, g, g, x, r, table, y) { }
  }

  lemma FrameTransitive(h: Host, g0: Graph, g1: Graph, g2: Graph, x: NodeId, r: nat, table: Table)
    requires ResolveFrame(h, g0, g1, x, r, table) && ResolveFrame(h, g1, g2, x, r, table)
    ensures ResolveFrame(h, g0, g2, x, r, table)
  {
    forall n | n in g0.namespaces ensures NamespaceFrameAt(g0, g2, n, table) {
      assert NamespaceFrameAt(g0, g1, n, table) && NamespaceFrameAt(g1, g2, n, table);
    }
    forall y | y in g0.types ensures TypeFrameAt(h, g0, g2, x, r, table, y) {
      assert TypeFrameAt(h, g0, g1, x, r, table, y) && TypeFrameAt(h, g1, g2, x, r, table, y);
    }
  }

  /** A nested resolution of an unresolved `p` ranked below `r` stays inside the frame of `x`. */
  lemma FrameNested(h: Host, g1: Graph, g2: Graph, p: NodeId, x: NodeId, r: nat, table: Table)
    requires p in g1.types && Rank(h, g1.types[p].ident) < r && !IsResolved(g1.types[p].state)
    requires ResolveFrame(h, g1, g2, p, Rank(h, g1.types[p].ident), table)
    ensures ResolveFrame(h, g1, g2, x, r, table)
  {
    forall y | y in g1.types ensures TypeFrameAt(h, g1, g2, x, r, table, y) {
      assert TypeFrameAt(h, g1, g2, p, Rank(h, g1.types[p].ident), table, y);
    }
  }

  lemma FrameTypeUpdate(h: Host, g: Graph, x: NodeId, d: TypeNode, r: nat, table: Table)
    requires x in g.types && SameFixed(d, g.types[x])
    requires d.state == g.types[x].state || d.state == Verdict(g.types[x].ident, table)
    ensures ResolveFrame(h, g, g.(types := g.types[x := d]), x, r, table)
  {
    var g1 := g.(types := g.types[x := d]);
    forall n | n in g.namespaces ensures NamespaceFrameAt(g, g1, n, table) { }
    forall y | y in g.types ensures TypeFrameAt(h, g, g1, x, r, table, y) { }
  }

  lemma FrameNamespaceUpdate(h: Host, g: Graph, n: NodeId, x: NodeId, r: nat, table: Table)
    requires n in g.namespaces && !IsResolved(g.namespaces[n].state)
    ensures ResolveFrame(h, g, g.(namespaces := g.namespaces[n := g.namespaces[n].(
                           state := Verdict(g.namespaces[n].ident, table))]), x, r, table)
  {
    var g1 := g.(namespaces := g.namespaces[n := g.namespaces[n].(state := Verdict(g.namespaces[n].ident, table))]);
    forall k | k in g.namespaces ensures NamespaceFrameAt(g, g1, k, table) { }
    forall y | y in g.types ensures TypeFrameAt(h, g, g1, x, r, table, y) { }
  }

  /** Updating a type without losing a known namespace keeps the table sound. */
  lemma TableSoundUpdate(g: Graph, x: NodeId, d: TypeNode, table: Table)
    requires TableSound(g, table) && x in g.types && (d.ns.Some? || g.types[x].ns.None?)
    ensures TableSound(g.(types := g.types[x := d]), table)
  {
  }

  /**
   * What `Resolve` leaves when the identifier of `x` names the declared type
   * `m`: the namespace, represented type, parent and interfaces of `m` are
   * copied into `x`; a missing namespace raises `NullReferenceException`
   * with nothing else changed; a failure leaves the state of `x` as it was;
   * success marks `x` resolved with all its links resolved.
   */
  ghost predicate Copied(g: Graph, g1: Graph, x: NodeId, m: TypeNode, o: Outcome)
    requires x in g.types && x in g1.types
  {
    var d := g.types[x];
    && g1.types[x] == d.(ns := m.ns, represented := m.represented, parent := m.parent,
                         interfaces := m.interfaces, state := g1.types[x].state)
    && (m.ns.None? ==> o == Fail(NullReference) && g1 == g.(types := g.types[x := g1.types[x]]))
    && (o.Fail? ==> g1.types[x].state == d.state)
    && (o == Ok ==> g1.types[x].state == Resolved && Settled(g1, g1.types[x]))
  }

  /**
   * `DeclaredType.Resolve`. When the type's identifier is not in the table
   * the type becomes an external reference. When it names something other
   * than a type, resolution raises `InvalidOperationException` and nothing
   * changes. Otherwise the fields of the documented type are copied (see
   * `Copied`). Under a sound table resolution always returns normally.
   */
  method Resolve(h: Host, g: Graph, x: NodeId, table: Table) returns (g1: Graph, o: Outcome)
    requires GraphOk(h, g) && x in g.types && TableOk(g, table)
    ensures GraphOk(h, g1) && TableOk(g1, table)
    ensures ResolveFrame(h, g, g1, x, Rank(h, g.types[x].ident), table)
    ensures TableSound(g, table) ==> o == Ok && TableSound(g1, table)
    ensures o == Ok ==> g1.types[x].state == Verdict(g.types[x].ident, table)
    ensures g.types[x].ident !in table ==>
              o == Ok && g1 == g.(types := g.types[x := g.types[x].(state := External)])
    ensures g.types[x].ident in table && !table[g.types[x].ident].TypeRef? ==>
              o == Fail(InvalidOperation) && g1 == g
    ensures g.types[x].ident in table && table[g.types[x].ident].TypeRef? ==>
              Copied(g, g1, x, g.types[table[g.types[x].ident].id], o)
    decreases Rank(h, g.types[x].ident), 4
  {
    var d := g.types[x];
    ghost var r := Rank(h, d.ident);
    if d.ident !in table {
      assert TypeOk(h, g, d);
      var d1 := d.(state := External);
      FrameTypeUpdate(h, g, x, d1, r, table);
      if TableSound(g, table) {
        TableSoundUpdate(g, x, d1, table);
      }
      g1 := UpdateType(h, g, x, d1);
      return g1, Ok;
    }
    if !table[d.ident].TypeRef? {
      FrameReflexive(h, g, x, r, table);
      return g, Fail(InvalidOperation);
    }
    g1, o := ResolveFound(h, g, x, table);
  }

  /** `Resolve` once the identifier is known to name a declared type. */
  method ResolveFound(h: Host, g: Graph, x: NodeId, table: Table) returns (g1: Graph, o: Outcome)
    requires GraphOk(h, g) && x in g.types && TableOk(g, table)
    requires g.types[x].ident in table && table[g.types[x].ident].TypeRef?
    ensures GraphOk(h, g1) && TableOk(g1, table)
    ensures ResolveFrame(h, g, g1, x, Rank(h, g.types[x].ident), table)
    ensures TableSound(g, table) ==> o == Ok && TableSound(g1, table)
    ensures o == Ok ==> IsResolved(g1.types[x].state)
    ensures Copied(g, g1, x, g.types[table[g.types[x].ident].id], o)
    decreases Rank(h, g.types[x].ident), 3
  {
    var d := g.types[x];
    ghost var r := Rank(h, d.ident);
    var m := g.types[table[d.ident].id];
    assert TypeOk(h, g, m) && TypeOk(h, g, d);
    var d1 := d.(ns := m.ns, represented := m.represented, parent := m.parent, interfaces := m.interfaces);
    FrameTypeUpdate(h, g, x, d1, r, table);
    if TableSound(g, table) {
      TableSoundUpdate(g, x, d1, table);
    }
    var ga := UpdateType(h, g, x, d1);
    if d1.ns.None? {
      return ga, Fail(NullReference);
    }
    g1, o := ResolveLinks(h, ga, x, table);
    FrameTransitive(h, g, ga, g1, x, r, table);
  }

  /**
   * The second half of `Resolve`: the namespace, the parent and the
   * interfaces in turn, then the type itself.
   */
  method ResolveLinks(h: Host, g: Graph, x: NodeId, table: Table) returns (g1: Graph, o: Outcome)
    requires GraphOk(h, g) && x in g.types && TableOk(g, table) && g.types[x].ns.Some?
    requires g.types[x].ident in table
    ensures GraphOk(h, g1) && TableOk(g1, table)
    ensures ResolveFrame(h, g, g1, x, Rank(h, g.types[x].ident), table)
    ensures TableSound(g, table) ==> o == Ok && TableSound(g1, table)
    ensures g1.types[x] == g.types[x].(state := g1.types[x].state)
    ensures o.Fail? ==> g1.types[x].state == g.types[x].state
    ensures o == Ok ==> g1.types[x].state == Resolved && Settled(g1, g1.types[x])
    decreases Rank(h, g.types[x].ident), 2
  {
    var d := g.types[x];
    ghost var r := Rank(h, d.ident);
    assert TypeOk(h, g, d);
    var n := d.ns.value;
    var gb := ResolveOwnNamespace(h, g, x, table);
    o := Ok;
    if d.parent.Some? {
      var ga := gb;
      gb, o := ResolveLink(h, ga, x, d.parent.value, table);
      FrameTransitive(h, g, ga, gb, x, r, table);
      assert NamespaceFrameAt(ga, gb, n, table);
      if o.Fail? {
        return gb, o;
      }
    }
    var gc;
    gc, o := ResolveFaces(h, gb, x, table);
    FrameTransitive(h, g, gb, gc, x, r, table);
    if o.Fail? {
      return gc, o;
    }
    assert NamespaceFrameAt(gb, gc, n, table);
    if d.parent.Some? {
      assert TypeFrameAt(h, gb, gc, x, r, table, d.parent.value);
    }
    g1 := MarkResolved(h, gc, x, table);
    FrameTransitive(h, g, gc, g1, x, r, table);
  }

  /** `if (!Namespace.IsResolved) Namespace.Resolve(...)`. */
  method ResolveOwnNamespace(h: Host, g: Graph, x: NodeId, table: Table) returns (g1: Graph)
    requires GraphOk(h, g) && x in g.types && TableOk(g, table)
    requires g.types[x].ns.Some? && g.types[x].ns.value in g.namespaces
    ensures GraphOk(h, g1) && TableOk(g1, table)
    ensures ResolveFrame(h, g, g1, x, Rank(h, g.types[x].ident), table)
    ensures g1.types == g.types
    ensures IsResolved(g1.namespaces[g.types[x].ns.value].state)
  {
    var n := g.types[x].ns.value;
    if IsResolved(g.namespaces[n].state) {
      FrameReflexive(h, g, x, Rank(h, g.types[x].ident), table);
      return g;
    }
    FrameNamespaceUpdate(h, g, n, x, Rank(h, g.types[x].ident), table);
    g1 := ResolveNamespace(h, g, n, table);
  }

  /** The loop of `Resolve` over the interfaces of `x`. */
  method ResolveFaces(h: Host, g: Graph, x: NodeId, table: Table) returns (g1: Graph, o: Outcome)
    requires GraphOk(h, g) && x in g.types && TableOk(g, table)
    ensures GraphOk(h, g1) && TableOk(g1, table)
    ensures ResolveFrame(h, g, g1, x, Rank(h, g.types[x].ident), table)
    ensures TableSound(g, table) ==> o == Ok && TableSound(g1, table)
    ensures g1.types[x] == g.types[x]
    ensures o == Ok ==> InterfacesResolved(g1, g1.types[x])
    decreases Rank(h, g.types[x].ident), 1
  {
    var d := g.types[x];
    ghost var r := Rank(h, d.ident);
    var faces := d.interfaces;
    FrameReflexive(h, g, x, r, table);
    g1 := g;
    for i := 0 to |faces|
      invariant GraphOk(h, g1) && TableOk(g1, table)
      invariant ResolveFrame(h, g, g1, x, r, table)
      invariant TableSound(g, table) ==> TableSound(g1, table)
      invariant g1.types[x] == d
      invariant forall k :: 0 <= k < i ==> faces[k] in g1.types && IsResolved(g1.types[faces[k]].state)
    {
      assert TypeOk(h, g1, d);
      var gp := g1;
      var o1;
      g1, o1 := ResolveLink(h, gp, x, faces[i], table);
      FrameTransitive(h, g, gp, g1, x, r, table);
      forall k | 0 <= k < i ensures faces[k] in g1.types && IsResolved(g1.types[faces[k]].state) {
        assert TypeFrameAt(h, gp, g1, x, r, table, faces[k]);
      }
      if o1.Fail? {
        return g1, o1;
      }
    }
    o := Ok;
  }

  /**
   * `if (!face.IsResolved) face.Resolve(...)` for a link `f` of `x`, ranked
   * below it: `x` itself is left as it is.
   */
  method ResolveLink(h: Host, g: Graph, x: NodeId, f: NodeId, table: Table) returns (g1: Graph, o: Outcome)
    requires GraphOk(h, g) && x in g.types && TableOk(g, table)
    requires f in g.types && Rank(h, g.types[f].ident) < Rank(h, g.types[x].ident)
    ensures GraphOk(h, g1) && TableOk(g1, table)
    ensures ResolveFrame(h, g, g1, x, Rank(h, g.types[x].ident), table)
    ensures TableSound(g, table) ==> o == Ok && TableSound(g1, table)
    ensures g1.types[x] == g.types[x]
    ensures o == Ok ==> IsResolved(g1.types[f].state)
    decreases Rank(h, g.types[x].ident), 0
  {
    ghost var r := Rank(h, g.types[x].ident);
    if IsResolved(g.types[f].state) {
      FrameReflexive(h, g, x, r, table);
      return g, Ok;
    }
    g1, o := Resolve(h, g, f, table);
    FrameNested(h, g, g1, f, x, r, table);
    assert TypeFrameAt(h, g, g1, f, Rank(h, g.types[f].ident), table, x);
  }

  /** `IsResolved = true`, the last step of a resolution that found its type. */
  method MarkResolved(h: Host, g: Graph, x: NodeId, table: Table) returns (g1: Graph)
    requires GraphOk(h, g) && x in g.types && TableOk(g, table) && g.types[x].ident in table
    ensures GraphOk(h, g1) && TableOk(g1, table)
    ensures g1 == g.(types := g.types[x := g.types[x].(state := Resolved)])
    ensures ResolveFrame(h, g, g1, x, Rank(h, g.types[x].ident), table)
    ensures TableSound(g, table) && g.types[x].ns.Some? ==> TableSound(g1, table)
    ensures Settled(g, g.types[x]) ==> Settled(g1, g1.types[x])
  {
    var d := g.types[x];
    assert TypeOk(h, g, d);
    var d1 := d.(state := Resolved);
    FrameTypeUpdate(h, g, x, d1, Rank(h, d.ident), table);
    if TableSound(g, table) && d.ns.Some? {
      TableSoundUpdate(g, x, d1, table);
    }
    g1 := UpdateType(h, g, x, d1);
    if Settled(g, d) {
      forall i | 0 <= i < |d.interfaces|
        ensures d.interfaces[i] in g1.types && IsResolved(g1.types[d.interfaces[i]].state)
      {
        assert d.interfaces[i] != x;
      }
    }
  }

  // ---- names ----------------------------------------------------------------

  /** `PrettyName`: the host's rendering of the represented type, else the node's own name. */
  function PrettyName(h: Host, d: TypeNode): string
    requires d.represented.Some? ==> d.represented.value in h
  {
    if d.represented.None? then d.name else h[d.represented.value].prettyName
  }

  /**
   * `Namespace.FullName`. The `Namespace` class is not part of this model;
   * its full name is taken to be the dotted name it was created with.
   */
  function NamespaceFullName(n: NamespaceNode): string
  {
    n.name
  }

  /** `FullName`: the namespace's full name and a dot, when there is a namespace, then `PrettyName`. */
  function FullName(h: Host, g: Graph, d: TypeNode): string
    requires d.represented.Some? ==> d.represented.value in h
    requires d.ns.Some? ==> d.ns.value in g.namespaces
  {
    (if d.ns.None? then "" else NamespaceFullName(g.namespaces[d.ns.value]) + ".") + PrettyName(h, d)
  }

  /**
   * `FullName` ends with `PrettyName`; without a namespace it is `PrettyName`,
   * with one it starts with the namespace's name followed by a dot.
   */
  lemma FullNameParts(h: Host, g: Graph, d: TypeNode)
    requires d.represented.Some? ==> d.represented.value in h
    requires d.ns.Some? ==> d.ns.value in g.namespaces
    ensures var f, p := FullName(h, g, d), PrettyName(h, d);
            && |p| <= |f| && f[|f| - |p|..] == p
            && (d.ns.None? ==> f == p)
            && (d.ns.Some? ==>
                  var n := g.namespaces[d.ns.value].name;
                  |f| == |n| + 1 + |p| && f[..|n|] == n && f[|n|] == '.')
  {
    var f, p := FullName(h, g, d), PrettyName(h, d);
    if d.ns.Some? {
      var n := g.namespaces[d.ns.value].name;
      assert f == n + "." + p;
      assert f[..|n|] == n;
    }
  }

  /** A placeholder built from host type `t` shows the host's pretty name of `t`. */
  lemma PlaceholderPrettyName(h: Host, g: Graph, x: NodeId, t: TypeId)
    requires Ranked(h) && t in h && IsPlaceholder(h, g, x, t)
    ensures PrettyName(h, g.types[x]) == h[t].prettyName
  {
    assert RankedAt(h, t);
  }

  /**
   * A type that has become an external reference keeps its name and its full
   * name (the cross-reference to an undocumented `Example.First` still shows
   * `First` and `Example.First`).
   */
  lemma ExternalKeepsNames(h: Host, g: Graph, x: NodeId)
    requires GraphOk(h, g) && x in g.types
    ensures var g1 := g.(types := g.types[x := g.types[x].(state := External)]);
            && TypeOk(h, g, g.types[x])
            && g1.types[x].name == g.types[x].name
            && PrettyName(h, g1.types[x]) == PrettyName(h, g.types[x])
            && FullName(h, g1, g1.types[x]) == FullName(h, g, g.types[x])
  {
    assert TypeOk(h, g, g.types[x]);
  }

  /**
   * A cross-reference built from a type key, a name and a namespace name,
   * once it is an external reference, has that name as its `PrettyName` and
   * `namespace.name` as its `FullName`.
   */
  lemma NamedReferenceNames(h: Host, g: Graph, x: NodeId, t: TypeId, name: string, n: NodeId)
    requires x in g.types && n in g.namespaces
    requires g.types[x] == TypeNode(TypeKey(t), name, Some(n), None, None, [], [], [], [], External)
    ensures PrettyName(h, g.types[x]) == name
    ensures FullName(h, g, g.types[x]) == g.namespaces[n].name + "." + name
  {
  }

  /**
   * After a resolution that found the documented type `m` and kept a
   * represented type, the reference renders exactly like `m`: same pretty
   * name and same full name.
   */
  lemma ResolvedRendersLikeMatch(h: Host, g: Graph, g1: Graph, x: NodeId, y: NodeId, o: Outcome, table: Table)
    requires GraphOk(h, g) && x in g.types && y in g.types && x in g1.types
    requires ResolveFrame(h, g, g1, x, Rank(h, g.types[x].ident), table)
    requires Copied(g, g1, x, g.types[y], o) && g.types[y].represented.Some?
    ensures TypeOk(h, g, g.types[y])
    ensures g1.types[x].ns.Some? ==> g1.types[x].ns.value in g1.namespaces
    ensures PrettyName(h, g1.types[x]) == PrettyName(h, g.types[y])
    ensures FullName(h, g1, g1.types[x]) == FullName(h, g, g.types[y])
  {
    var m := g.types[y];
    assert TypeOk(h, g, m);
    if m.ns.Some? {
      assert NamespaceFrameAt(g, g1, m.ns.value, table);
    }
  }

  // ---- members ----------------------------------------------------------------

  /** `DeclaredType.AddMethod`: `m` is appended to the methods of `x`; nothing else changes. */
  method AddMethod(h: Host, g: Graph, x: NodeId, m: NodeId) returns (g1: Graph)
    requires GraphOk(h, g) && x in g.types && m in g.methods
    ensures GraphOk(h, g1)
    ensures g1 == g.(types := g.types[x := g.types[x].(methods := g.types[x].methods + [m])])
  {
    var d := g.types[x];
    assert TypeOk(h, g, d);
    g1 := UpdateType(h, g, x, d.(methods := d.methods + [m]));
  }

  /** `DeclaredType.AddProperty`: `p` is appended to the properties of `x`; nothing else changes. */
  method AddProperty(h: Host, g: Graph, x: NodeId, p: NodeId) returns (g1: Graph)
    requires GraphOk(h, g) && x in g.types && p in g.properties
    ensures GraphOk(h, g1)
    ensures g1 == g.(types := g.types[x := g.types[x].(properties := g.types[x].properties + [p])])
  {
    var d := g.types[x];
    assert TypeOk(h, g, d);
    g1 := UpdateType(h, g, x, d.(properties := d.properties + [p]));
  }

  /** The names the comparison `x.Name.CompareTo(y.Name)` sorts methods by. */
  function MethodNames(g: Graph): map<NodeId, string>
  {
    map m | m in g.methods :: g.methods[m].name
  }

  function PropertyNames(g: Graph): map<NodeId, string>
  {
    map p | p in g.properties :: g.properties[p].name
  }

  /** The methods and properties of `d` are in name order. */
  ghost predicate MembersSorted(g: Graph, d: TypeNode)
  {
    SortedByName(d.methods, MethodNames(g)) && SortedByName(d.properties, PropertyNames(g))
  }

  /**
   * `DeclaredType.Sort`: the methods and the properties of `x` are each put
   * in name order, as permutations of what they were; nothing else changes.
   */
  method Sort(h: Host, g: Graph, x: NodeId) returns (g1: Graph)
    requires GraphOk(h, g) && x in g.types
    ensures GraphOk(h, g1) && x in g1.types
    ensures g1 == g.(types := g.types[x := g.types[x].(methods := g1.types[x].methods,
                                                       properties := g1.types[x].properties)])
    ensures MembersSorted(g1, g1.types[x])
    ensures multiset(g1.types[x].methods) == multiset(g.types[x].methods)
    ensures multiset(g1.types[x].properties) == multiset(g.types[x].properties)
  {
    var d := g.types[x];
    assert TypeOk(h, g, d);
    var ms := SortByName(d.methods, MethodNames(g));
    var ps := SortByName(d.properties, PropertyNames(g));
    forall m | m in ms ensures m in g.methods {
      assert m in multiset(d.methods);
    }
    forall p | p in ps ensures p in g.properties {
      assert p in multiset(d.properties);
    }
    g1 := UpdateType(h, g, x, d.(methods := ms, properties := ps));
  }
}
