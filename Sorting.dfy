/**
 * The final ordering step of `DocumentModel.Create`: the namespace list by
 * name, the types of each namespace by name, and the methods and properties
 * of each of those types by name. Sorting changes the order of lists and
 * nothing else.
 */
module Sorting {
  import opened Names
  import opened HostTypes
  import opened Entities
  import DeclaredType

  function NamespaceNames(g: Graph): map<NodeId, string>
  {
    map n | n in g.namespaces :: g.namespaces[n].name
  }

  function TypeNames(g: Graph): map<NodeId, string>
  {
    map x | x in g.types :: g.types[x].name
  }

  // ---- the footprint of sorting -------------------------------------------------

  /** The namespace `n` is as it was, but for the order of its types. */
  ghost predicate NamespaceReorderedAt(g0: Graph, g1: Graph, n: NodeId)
    requires n in g0.namespaces && n in g1.namespaces
  {
    && g1.namespaces[n] == g0.namespaces[n].(types := g1.namespaces[n].types)
    && multiset(g1.namespaces[n].types) == multiset(g0.namespaces[n].types)
  }

  /** The type `x` is as it was, but for the order of its methods and properties. */
  ghost predicate TypeReorderedAt(g0: Graph, g1: Graph, x: NodeId)
    requires x in g0.types && x in g1.types
  {
    && g1.types[x] == g0.types[x].(methods := g1.types[x].methods, properties := g1.types[x].properties)
    && multiset(g1.types[x].methods) == multiset(g0.types[x].methods)
    && multiset(g1.types[x].properties) == multiset(g0.types[x].properties)
  }

  /** `g1` is `g0` with some member lists permuted. */
  ghost predicate Reordered(g0: Graph, g1: Graph)
  {
    && g1.next == g0.next
    && g1.namespaces.Keys == g0.namespaces.Keys && g1.types.Keys == g0.types.Keys
    && g1.methods == g0.methods && g1.properties == g0.properties
    && (forall n {:trigger NamespaceReorderedAt(g0, g1, n)} ::
          n in g0.namespaces ==> NamespaceReorderedAt(g0, g1, n))
    && (forall x {:trigger TypeReorderedAt(g0, g1, x)} :: x in g0.types ==> TypeReorderedAt(g0, g1, x))
  }

  lemma ReorderedReflexive(g: Graph)
    ensures Reordered(g, g)
  {
    forall n | n in g.namespaces ensures NamespaceReorderedAt(g, g, n) { }
    forall x | x in g.types ensures TypeReorderedAt(g, g, x) { }
  }

  lemma ReorderedTransitive(g0: Graph, g1: Graph, g2: Graph)
    requires Reordered(g0, g1) && Reordered(g1, g2)
    ensures Reordered(g0, g2)
  {
    forall n | n in g0.namespaces ensures NamespaceReorderedAt(g0, g2, n) {
      assert NamespaceReorderedAt(g0, g1, n) && NamespaceReorderedAt(g1, g2, n);
    }
    forall x | x in g0.types ensures TypeReorderedAt(g0, g2, x) {
      assert TypeReorderedAt(g0, g1, x) && TypeReorderedAt(g1, g2, x);
    }
  }

  /** Reordering keeps every name. */
  lemma ReorderedNames(g0: Graph, g1: Graph)
    requires Reordered(g0, g1)
    ensures NamespaceNames(g1) == NamespaceNames(g0) && TypeNames(g1) == TypeNames(g0)
    ensures DeclaredType.MethodNames(g1) == DeclaredType.MethodNames(g0)
    ensures DeclaredType.PropertyNames(g1) == DeclaredType.PropertyNames(g0)
  {
    forall n | n in g0.namespaces ensures g1.namespaces[n].name == g0.namespaces[n].name {
      assert NamespaceReorderedAt(g0, g1, n);
    }
    forall x | x in g0.types ensures g1.types[x].name == g0.types[x].name {
      assert TypeReorderedAt(g0, g1, x);
    }
  }

  // ---- sorted graphs ----------------------------------------------------------------

  /** The types of `n` are in name order, and so are the members of each of them. */
  ghost predicate TypesSorted(g: Graph, n: NodeId)
    requires n in g.namespaces
  {
    && SortedByName(g.namespaces[n].types, TypeNames(g))
    && forall x :: x in g.namespaces[n].types ==> x in g.types && DeclaredType.MembersSorted(g, g.types[x])
  }

  /** A sorted namespace stays sorted while other lists are reordered. */
  lemma TypesSortedStable(g0: Graph, g1: Graph, n: NodeId)
    requires Reordered(g0, g1) && n in g0.namespaces && TypesSorted(g0, n)
    requires g1.namespaces[n] == g0.namespaces[n]
    requires forall x :: x in g0.types && DeclaredType.MembersSorted(g0, g0.types[x]) ==>
                         DeclaredType.MembersSorted(g1, g1.types[x])
    ensures TypesSorted(g1, n)
  {
    ReorderedNames(g0, g1);
  }

  // ---- the sorting steps --------------------------------------------------------------

  /** `DeclaredType.Sort` on `x`, seen from a graph `g0` that sorting started from. */
  method SortType(h: Host, g0: Graph, g: Graph, x: NodeId) returns (g1: Graph)
    requires GraphOk(h, g) && Reordered(g0, g) && x in g.types
    ensures GraphOk(h, g1) && Reordered(g0, g1) && g1.namespaces == g.namespaces
    ensures forall y :: y in g.types && (y == x || DeclaredType.MembersSorted(g, g.types[y])) ==>
                        DeclaredType.MembersSorted(g1, g1.types[y])
  {
    g1 := DeclaredType.Sort(h, g, x);
    MembersPermuted(g, x, g1.types[x].methods, g1.types[x].properties);
    ReorderedTransitive(g0, g, g1);
  }

  /** Permuting the members of one type reorders the graph and leaves the other types as they were. */
  lemma MembersPermuted(g: Graph, x: NodeId, ms: seq<NodeId>, ps: seq<NodeId>)
    requires x in g.types
    requires multiset(ms) == multiset(g.types[x].methods) && multiset(ps) == multiset(g.types[x].properties)
    ensures var g1 := g.(types := g.types[x := g.types[x].(methods := ms, properties := ps)]);
            && Reordered(g, g1)
            && forall y :: y in g.types && y != x && DeclaredType.MembersSorted(g, g.types[y]) ==>
                           DeclaredType.MembersSorted(g1, g1.types[y])
  {
    var g1 := g.(types := g.types[x := g.types[x].(methods := ms, properties := ps)]);
    forall n | n in g.namespaces ensures NamespaceReorderedAt(g, g1, n) { }
    forall y | y in g.types ensures TypeReorderedAt(g, g1, y) { }
    ReorderedNames(g, g1);
  }

  /** `DeclaredType.Sort` on each of `ts`, in order. */
  method SortTypes(h: Host, g: Graph, ts: seq<NodeId>) returns (g1: Graph)
    requires GraphOk(h, g) && forall x :: x in ts ==> x in g.types
    ensures GraphOk(h, g1) && Reordered(g, g1) && g1.namespaces == g.namespaces
    ensures forall x :: x in g.types && (x in ts || DeclaredType.MembersSorted(g, g.types[x])) ==>
                        DeclaredType.MembersSorted(g1, g1.types[x])
  {
    g1 := g;
    ReorderedReflexive(g);
    for i := 0 to |ts|
      invariant GraphOk(h, g1) && Reordered(g, g1) && g1.namespaces == g.namespaces
      invariant forall x :: x in g.types && (x in ts[..i] || DeclaredType.MembersSorted(g, g.types[x])) ==>
                            DeclaredType.MembersSorted(g1, g1.types[x])
    {
      assert ts[i] in g.types;
      g1 := SortType(h, g, g1, ts[i]);
      assert forall x :: x in ts[..i + 1] ==> x in ts[..i] || x == ts[i];
    }
    assert ts[..|ts|] == ts;
  }

  /** Permuting the types of a namespace keeps the graph valid. */
  lemma NamespaceTypesPermuted(h: Host, g: Graph, n: NodeId, ts: seq<NodeId>)
    requires GraphOk(h, g) && n in g.namespaces && multiset(ts) == multiset(g.namespaces[n].types)
    ensures GraphOk(h, g.(namespaces := g.namespaces[n := g.namespaces[n].(types := ts)]))
    ensures Reordered(g, g.(namespaces := g.namespaces[n := g.namespaces[n].(types := ts)]))
  {
    var d := g.namespaces[n];
    var g1 := g.(namespaces := g.namespaces[n := d.(types := ts)]);
    assert NamespaceOk(g, d);
    forall x | x in ts ensures x in g.types {
      assert x in multiset(d.types);
    }
    GraphOkStep(h, g, g1);
    forall k | k in g.namespaces ensures NamespaceReorderedAt(g, g1, k) { }
    forall x | x in g.types ensures TypeReorderedAt(g, g1, x) { }
  }

  /**
   * `Namespace.Sort`. Its code is not part of this model; it is taken to
   * order the namespace's types by name and then to call `DeclaredType.Sort`
   * on each of them.
   */
  method SortNamespace(h: Host, g: Graph, n: NodeId) returns (g1: Graph)
    requires GraphOk(h, g) && n in g.namespaces
    ensures GraphOk(h, g1) && Reordered(g, g1) && TypesSorted(g1, n)
    ensures forall k :: k in g.namespaces && k != n ==> g1.namespaces[k] == g.namespaces[k]
    ensures forall x :: x in g.types && DeclaredType.MembersSorted(g, g.types[x]) ==>
                        DeclaredType.MembersSorted(g1, g1.types[x])
  {
    var d := g.namespaces[n];
    assert NamespaceOk(g, d);
    var ts := SortByName(d.types, TypeNames(g));
    NamespaceTypesPermuted(h, g, n, ts);
    var g0 := g.(namespaces := g.namespaces[n := d.(types := ts)]);
    ReorderedNames(g, g0);
    g1 := SortTypes(h, g0, ts);
    ReorderedTransitive(g, g0, g1);
    ReorderedNames(g0, g1);
  }

  /**
   * `DocumentModel.Sort`: the namespace list is put in name order, as a
   * permutation of itself, and then every namespace in it is sorted.
   */
  method SortModel(h: Host, g: Graph, nss: seq<NodeId>) returns (g1: Graph, sorted: seq<NodeId>)
    requires GraphOk(h, g) && forall n :: n in nss ==> n in g.namespaces
    ensures GraphOk(h, g1) && Reordered(g, g1)
    ensures multiset(sorted) == multiset(nss)
    ensures SortedByName(sorted, NamespaceNames(g1))
    ensures forall n :: n in sorted ==> n in g1.namespaces && TypesSorted(g1, n)
  {
    sorted := SortByName(nss, NamespaceNames(g));
    g1 := g;
    ReorderedReflexive(g);
    for i := 0 to |sorted|
      invariant GraphOk(h, g1) && Reordered(g, g1)
      invariant forall n :: n in sorted ==> n in g1.namespaces
      invariant forall j :: 0 <= j < i ==> TypesSorted(g1, sorted[j])
    {
      g1 := SortModelStep(h, g, g1, sorted, i);
    }
    ReorderedNames(g, g1);
  }

  /** One namespace of `DocumentModel.Sort`. */
  method SortModelStep(h: Host, g0: Graph, g: Graph, sorted: seq<NodeId>, i: nat) returns (g1: Graph)
    requires GraphOk(h, g) && Reordered(g0, g) && i < |sorted|
    requires forall n :: n in sorted ==> n in g.namespaces
    requires forall j :: 0 <= j < i ==> TypesSorted(g, sorted[j])
    ensures GraphOk(h, g1) && Reordered(g0, g1)
    ensures forall n :: n in sorted ==> n in g1.namespaces
    ensures forall j :: 0 <= j < i + 1 ==> TypesSorted(g1, sorted[j])
  {
    var n := sorted[i];
    g1 := SortNamespace(h, g, n);
    forall j | 0 <= j < i + 1 ensures TypesSorted(g1, sorted[j]) {
      if sorted[j] != n {
        TypesSortedStable(g, g1, sorted[j]);
      }
    }
    ReorderedTransitive(g0, g, g1);
  }
}
