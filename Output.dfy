/**
 * The namespace forest `DocumentModel.Create` returns, as seen through the
 * identifier table: every namespace once, under its own identifier, and
 * every registered type in the type list of its namespace. The shape is
 * established by the building passes and survives resolution and sorting.
 */
module Output {
  import opened HostTypes
  import opened Entities
  import opened Builder
  import opened Resolution
  import opened Sorting

  /** The type entry `k` sits in the type list of a listed namespace keyed by its host type's namespace. */
  ghost predicate TypePlaced(h: Host, g: Graph, table: Table, nss: seq<NodeId>, k: Identifier)
    requires k in table && k.TypeKey?
  {
    && k.t in h && table[k].TypeRef? && table[k].id in g.types
    && exists n :: n in nss && n in g.namespaces && g.namespaces[n].ident == NsKey(h[k.t].ns)
                   && table[k].id in g.namespaces[n].types
  }

  /** What the table and the returned namespace list say about each other. */
  ghost predicate Forest(h: Host, g: Graph, table: Table, nss: seq<NodeId>)
  {
    && (forall n :: n in nss ==> n in g.namespaces) && NoDuplicates(nss)
    && (forall n :: n in nss ==> g.namespaces[n].ident in table && table[g.namespaces[n].ident] == NsRef(n))
    && (forall k :: k in table && k.NsKey? ==> table[k].NsRef? && table[k].id in nss)
    && (forall k {:trigger TypePlaced(h, g, table, nss, k)} :: k in table && k.TypeKey? ==>
          TypePlaced(h, g, table, nss, k))
    && (forall n, x :: n in nss && x in g.namespaces[n].types ==>
          x in g.types && g.types[x].ident in table && table[g.types[x].ident] == TypeRef(x))
  }

  /** No two namespaces of the forest share an identifier. */
  lemma ForestDistinct(h: Host, g: Graph, table: Table, nss: seq<NodeId>)
    requires Forest(h, g, table, nss)
    ensures forall i, j :: 0 <= i < j < |nss| ==> g.namespaces[nss[i]].ident != g.namespaces[nss[j]].ident
  {
    forall i, j | 0 <= i < j < |nss| ensures g.namespaces[nss[i]].ident != g.namespaces[nss[j]].ident {
      assert nss[i] in nss && nss[j] in nss;
    }
  }

  /** The building passes leave a forest behind. */
  lemma ForestBuilt(h: Host, g: Graph, table: Table, nss: seq<NodeId>)
    requires Entries(h, g, table, nss)
    ensures Forest(h, g, table, nss)
  {
    forall n | n in nss ensures n in g.namespaces && g.namespaces[n].ident in table
                                && table[g.namespaces[n].ident] == NsRef(n) {
      var i :| 0 <= i < |nss| && nss[i] == n;
    }
    forall k | k in table && k.NsKey? ensures table[k].NsRef? && table[k].id in nss {
      assert NamespaceEntry(g, table, nss, k);
    }
    forall k | k in table && k.TypeKey? ensures TypePlaced(h, g, table, nss, k) {
      assert TypeEntry(h, g, table, nss, k);
      var n := FindNamespace(g, nss, NsKey(h[k.t].ns)).value;
      assert n in nss && g.namespaces[n].ident == NsKey(h[k.t].ns) && table[k].id in g.namespaces[n].types;
    }
    forall n, x | n in nss && x in g.namespaces[n].types
      ensures x in g.types && g.types[x].ident in table && table[g.types[x].ident] == TypeRef(x)
    {
      var i :| 0 <= i < |nss| && nss[i] == n;
    }
  }

  /** Resolution keeps the forest: it changes no identifier and no type list. */
  lemma ForestSettles(h: Host, g0: Graph, g1: Graph, table: Table, nss: seq<NodeId>)
    requires Forest(h, g0, table, nss) && Settles(g0, g1, table)
    ensures Forest(h, g1, table, nss)
  {
    forall n | n in nss ensures g1.namespaces[n].ident == g0.namespaces[n].ident
                                && g1.namespaces[n].types == g0.namespaces[n].types {
      assert DeclaredType.NamespaceFrameAt(g0, g1, n, table);
    }
    forall x | x in g0.types ensures g1.types[x].ident == g0.types[x].ident {
      assert TypeSettledAt(g0, g1, table, x);
    }
    forall k | k in table && k.TypeKey? ensures TypePlaced(h, g1, table, nss, k) {
      assert TypePlaced(h, g0, table, nss, k);
      var n :| n in nss && n in g0.namespaces && g0.namespaces[n].ident == NsKey(h[k.t].ns)
               && table[k].id in g0.namespaces[n].types;
      assert n in g1.namespaces && table[k].id in g1.namespaces[n].types;
    }
  }

  /** A permutation of a list without repetitions has none either. */
  lemma {:induction false} NoDuplicatesCount<T>(s: seq<T>, x: T)
    requires NoDuplicates(s)
    ensures multiset(s)[x] <= 1
  {
    if s != [] {
      var t := s[..|s| - 1];
      assert s == t + [s[|s| - 1]];
      assert NoDuplicates(t);
      NoDuplicatesCount(t, x);
      if x == s[|s| - 1] {
        assert x !in t;
      }
    }
  }

  lemma NoDuplicatesPermuted<T>(a: seq<T>, b: seq<T>)
    requires NoDuplicates(a) && multiset(a) == multiset(b)
    ensures NoDuplicates(b)
  {
    forall i, j | 0 <= i < j < |b| ensures b[i] != b[j] {
      if b[i] == b[j] {
        assert b == b[..j] + [b[j]] + b[j + 1..];
        assert b[i] in b[..j];
        assert multiset(b)[b[j]] >= 2;
        NoDuplicatesCount(a, b[j]);
        assert false;
      }
    }
  }

  /** Sorting keeps the forest, for the permuted namespace list. */
  lemma ForestReordered(h: Host, g0: Graph, g1: Graph, table: Table, nss: seq<NodeId>, sorted: seq<NodeId>)
    requires Forest(h, g0, table, nss) && Reordered(g0, g1) && multiset(sorted) == multiset(nss)
    ensures Forest(h, g1, table, sorted)
  {
    NoDuplicatesPermuted(nss, sorted);
    forall n | n in sorted ensures n in nss {
      assert n in multiset(sorted);
    }
    forall n | n in nss ensures n in sorted {
      assert n in multiset(nss);
    }
    forall n | n in g0.namespaces ensures g1.namespaces[n].ident == g0.namespaces[n].ident
                                         && (forall x :: x in g1.namespaces[n].types <==> x in g0.namespaces[n].types) {
      assert NamespaceReorderedAt(g0, g1, n);
      forall x ensures x in g1.namespaces[n].types <==> x in g0.namespaces[n].types {
        assert x in g1.namespaces[n].types <==> x in multiset(g1.namespaces[n].types);
        assert x in g0.namespaces[n].types <==> x in multiset(g0.namespaces[n].types);
      }
    }
    forall x | x in g0.types ensures g1.types[x].ident == g0.types[x].ident {
      assert TypeReorderedAt(g0, g1, x);
    }
    forall k | k in table && k.TypeKey? ensures TypePlaced(h, g1, table, sorted, k) {
      assert TypePlaced(h, g0, table, nss, k);
      var n :| n in nss && n in g0.namespaces && g0.namespaces[n].ident == NsKey(h[k.t].ns)
               && table[k].id in g0.namespaces[n].types;
      assert n in sorted && n in g1.namespaces && table[k].id in g1.namespaces[n].types;
    }
  }

  // ---- resolved references ------------------------------------------------------

  /** Every reference of `refs` points at a node that is resolved or external. */
  ghost predicate AllResolved(g: Graph, refs: seq<Ref>)
  {
    forall r :: r in refs ==> Holds(g, r) && IsResolved(StateOf(g, r))
  }

  lemma AllResolvedLoop(g: Graph, refs: seq<Ref>)
    requires ResolvedUpTo(g, refs, |refs|)
    ensures AllResolved(g, refs)
  {
    forall r | r in refs ensures Holds(g, r) && IsResolved(StateOf(g, r)) {
      var j :| 0 <= j < |refs| && refs[j] == r;
    }
  }

  /** Sorting changes no state and no identifier, so every verdict stands. */
  lemma VerdictsReordered(g0: Graph, g1: Graph, table: Table, refs: seq<Ref>)
    requires Reordered(g0, g1)
    requires forall r :: r in refs ==> Holds(g0, r) && StateOf(g0, r) == Verdict(IdentOf(g0, r), table)
    ensures forall r :: r in refs ==> Holds(g1, r) && StateOf(g1, r) == Verdict(IdentOf(g1, r), table)
  {
    forall r | r in refs ensures Holds(g1, r) && StateOf(g1, r) == Verdict(IdentOf(g1, r), table) {
      match r
      case NsRef(n) => assert NamespaceReorderedAt(g0, g1, n);
      case TypeRef(x) => assert TypeReorderedAt(g0, g1, x);
      case MethodRef(m) =>
      case PropertyRef(p) =>
    }
  }

  /** Sorting changes no state. */
  lemma AllResolvedReordered(g0: Graph, g1: Graph, refs: seq<Ref>)
    requires AllResolved(g0, refs) && Reordered(g0, g1)
    ensures AllResolved(g1, refs)
  {
    forall r | r in refs ensures Holds(g1, r) && IsResolved(StateOf(g1, r)) {
      match r
      case NsRef(n) => assert NamespaceReorderedAt(g0, g1, n);
      case TypeRef(x) => assert TypeReorderedAt(g0, g1, x);
      case MethodRef(m) =>
      case PropertyRef(p) =>
    }
  }
}
