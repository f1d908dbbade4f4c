/**
 * What the passes of `DocumentModel.Create` keep true of the namespace list
 * and of `matchedAssociations` while they build the graph, and the lookups
 * `namespaces.Find(...)` and `Types.FirstOrDefault(...)`.
 */
module Builder {
  import opened Wrappers
  import opened HostTypes
  import opened Entities

  /** Every listed namespace is a node of the graph. */
  ghost predicate Listed(g: Graph, nss: seq<NodeId>)
  {
    forall i :: 0 <= i < |nss| ==> nss[i] in g.namespaces
  }

  /** `namespaces.Find(x => x.IsIdentifiedBy(k))`: the first listed namespace keyed `k`. */
  function FindNamespace(g: Graph, nss: seq<NodeId>, k: Identifier): (r: Option<NodeId>)
    requires Listed(g, nss)
    ensures r.Some? ==> r.value in nss && g.namespaces[r.value].ident == k
    ensures r.None? <==> forall i :: 0 <= i < |nss| ==> g.namespaces[nss[i]].ident != k
    ensures r.Some? ==> exists i :: 0 <= i < |nss| && nss[i] == r.value &&
                                    forall j :: 0 <= j < i ==> g.namespaces[nss[j]].ident != k
  {
    if nss == [] then None
    else if g.namespaces[nss[0]].ident == k then Some(nss[0])
    else
      assert forall i :: 1 <= i < |nss| ==> nss[1..][i - 1] == nss[i];
      var r := FindNamespace(g, nss[1..], k);
      assert r.Some? ==> exists i :: 1 <= i < |nss| && nss[i] == r.value &&
                                     forall j :: 0 <= j < i ==> g.namespaces[nss[j]].ident != k;
      r
  }

  /** `Types.FirstOrDefault(x => x.IsIdentifiedBy(k))` over the type list `ts`. */
  function FindType(g: Graph, ts: seq<NodeId>, k: Identifier): (r: Option<NodeId>)
    ensures r.Some? ==> r.value in ts && r.value in g.types && g.types[r.value].ident == k
    ensures r.None? <==> forall x :: x in ts && x in g.types ==> g.types[x].ident != k
    ensures r.Some? ==> exists i :: 0 <= i < |ts| && ts[i] == r.value &&
                                    forall j :: 0 <= j < i ==> !(ts[j] in g.types && g.types[ts[j]].ident == k)
  {
    if ts == [] then None
    else if ts[0] in g.types && g.types[ts[0]].ident == k then Some(ts[0])
    else
      assert forall x :: x in ts && x != ts[0] ==> x in ts[1..];
      assert forall i :: 1 <= i < |ts| ==> ts[1..][i - 1] == ts[i];
      var r := FindType(g, ts[1..], k);
      assert r.Some? ==> exists i :: 1 <= i < |ts| && ts[i] == r.value &&
                                     forall j :: 0 <= j < i ==> !(ts[j] in g.types && g.types[ts[j]].ident == k);
      r
  }

  /**
   * Namespace entries of the table are exactly the listed namespaces, each
   * under its own identifier.
   */
  ghost predicate NamespaceEntries(g: Graph, table: Table, nss: seq<NodeId>)
    requires Listed(g, nss)
  {
    && (forall k {:trigger NamespaceEntry(g, table, nss, k)} :: k in table && k.NsKey? ==>
          NamespaceEntry(g, table, nss, k))
    && (forall i :: 0 <= i < |nss| ==>
          g.namespaces[nss[i]].ident in table && table[g.namespaces[nss[i]].ident] == NsRef(nss[i]))
  }

  /** A namespace entry names a listed namespace keyed alike. */
  ghost predicate NamespaceEntry(g: Graph, table: Table, nss: seq<NodeId>, k: Identifier)
    requires Listed(g, nss) && k in table
  {
    table[k].NsRef? && table[k].id in nss && g.namespaces[table[k].id].ident == k
  }

  /**
   * A type entry names a documented host type whose node sits, as its
   * namespace says, in the listed namespace of the host type's namespace.
   */
  ghost predicate TypeEntry(h: Host, g: Graph, table: Table, nss: seq<NodeId>, k: Identifier)
    requires Listed(g, nss) && k in table && k.TypeKey?
  {
    && k.t in h && table[k].TypeRef? && table[k].id in g.types
    && var n := FindNamespace(g, nss, NsKey(h[k.t].ns));
    && n.Some? && g.types[table[k].id].ns == n && table[k].id in g.namespaces[n.value].types
  }

  /** Type entries are placed; the type lists of listed namespaces hold only registered types. */
  ghost predicate TypeEntries(h: Host, g: Graph, table: Table, nss: seq<NodeId>)
    requires Listed(g, nss)
  {
    && (forall k {:trigger TypeEntry(h, g, table, nss, k)} :: k in table && k.TypeKey? ==>
          TypeEntry(h, g, table, nss, k))
    && (forall i, x :: 0 <= i < |nss| && x in g.namespaces[nss[i]].types ==>
          x in g.types && g.types[x].ident in table && table[g.types[x].ident] == TypeRef(x))
  }

  /** What the table and the namespace list say about each other. */
  ghost predicate Entries(h: Host, g: Graph, table: Table, nss: seq<NodeId>)
  {
    && Listed(g, nss) && NoDuplicates(nss)
    && NamespaceEntries(g, table, nss) && TypeEntries(h, g, table, nss)
  }

  /** The invariant of the building passes. */
  ghost predicate Built(h: Host, g: Graph, table: Table, nss: seq<NodeId>)
  {
    WellFormed(h) && GraphOk(h, g) && TableOk(g, table) && Entries(h, g, table, nss)
  }

  /** Every reference in `refs` points at a node that is not resolved yet. */
  ghost predicate RefsOk(g: Graph, refs: seq<Ref>)
  {
    forall i :: 0 <= i < |refs| ==> Holds(g, refs[i]) && StateOf(g, refs[i]) == State.Unresolved
  }

  /** Every reference in `rs` points at a node that is not resolved yet. */
  ghost predicate AllUnresolved(g: Graph, rs: seq<Ref>)
  {
    forall r :: r in rs ==> Holds(g, r) && StateOf(g, r) == State.Unresolved
  }

  /** `g1` keeps every node of `g0`, in the state it had. */
  ghost predicate StatesKept(g0: Graph, g1: Graph)
  {
    && (forall n :: n in g0.namespaces ==> n in g1.namespaces && g1.namespaces[n].state == g0.namespaces[n].state)
    && (forall x :: x in g0.types ==> x in g1.types && g1.types[x].state == g0.types[x].state)
    && (forall m :: m in g0.methods ==> m in g1.methods && g1.methods[m].state == g0.methods[m].state)
    && (forall p :: p in g0.properties ==> p in g1.properties && g1.properties[p].state == g0.properties[p].state)
  }

  /** First wins: every entry of `t0` is still in `t1`, unchanged. */
  predicate Kept(t0: Table, t1: Table)
  {
    forall k :: k in t0 ==> k in t1 && t1[k] == t0[k]
  }

  lemma KeptTransitive(t0: Table, t1: Table, t2: Table)
    requires Kept(t0, t1) && Kept(t1, t2)
    ensures Kept(t0, t2)
  {
  }

  /** No two listed namespaces share an identifier. */
  ghost predicate DistinctNamespaces(g: Graph, nss: seq<NodeId>)
    requires Listed(g, nss)
  {
    forall i, j :: 0 <= i < j < |nss| ==> g.namespaces[nss[i]].ident != g.namespaces[nss[j]].ident
  }


  // ---- lemmas ------------------------------------------------------------------

  /** The builder's table is one under which resolution cannot fail. */
  lemma EntriesSound(h: Host, g: Graph, table: Table, nss: seq<NodeId>)
    requires Entries(h, g, table, nss)
    ensures TableSound(g, table)
  {
    forall k | k in table && k.TypeKey?
      ensures table[k].TypeRef? && table[k].id in g.types && g.types[table[k].id].ns.Some?
    {
      assert TypeEntry(h, g, table, nss, k);
    }
  }

  /** A namespace is never listed twice under the same identifier. */
  lemma EntriesDistinct(h: Host, g: Graph, table: Table, nss: seq<NodeId>)
    requires Entries(h, g, table, nss)
    ensures DistinctNamespaces(g, nss)
  {
    forall i, j | 0 <= i < j < |nss|
      ensures g.namespaces[nss[i]].ident != g.namespaces[nss[j]].ident
    {
      assert table[g.namespaces[nss[j]].ident] == NsRef(nss[j]);
    }
  }

  /** The lookup only reads the identifiers of the listed namespaces. */
  lemma {:induction false} FindNamespaceAgrees(g0: Graph, g1: Graph, nss: seq<NodeId>, k: Identifier)
    requires Listed(g0, nss) && Listed(g1, nss)
    requires forall i :: 0 <= i < |nss| ==> g1.namespaces[nss[i]].ident == g0.namespaces[nss[i]].ident
    ensures FindNamespace(g1, nss, k) == FindNamespace(g0, nss, k)
  {
    if nss != [] && g0.namespaces[nss[0]].ident != k {
      assert forall i :: 1 <= i < |nss| ==> nss[1..][i - 1] == nss[i];
      FindNamespaceAgrees(g0, g1, nss[1..], k);
    }
  }

  /** Appending a namespace leaves earlier matches in place. */
  lemma {:induction false} FindNamespaceSnoc(g: Graph, nss: seq<NodeId>, n: NodeId, k: Identifier)
    requires Listed(g, nss) && n in g.namespaces
    ensures Listed(g, nss + [n])
    ensures FindNamespace(g, nss + [n], k) ==
              if FindNamespace(g, nss, k).Some? then FindNamespace(g, nss, k)
              else if g.namespaces[n].ident == k then Some(n) else None
  {
    assert forall i :: 0 <= i < |nss| ==> (nss + [n])[i] == nss[i];
    if nss != [] {
      assert (nss + [n])[1..] == nss[1..] + [n];
      FindNamespaceSnoc(g, nss[1..], n, k);
    } else {
      assert (nss + [n])[1..] == [];
    }
  }

  /** In a built state the lookup finds the namespace listed under a key. */
  lemma FindNamespaceUnique(h: Host, g: Graph, table: Table, nss: seq<NodeId>, i: nat)
    requires Entries(h, g, table, nss) && i < |nss|
    ensures FindNamespace(g, nss, g.namespaces[nss[i]].ident) == Some(nss[i])
  {
    var k := g.namespaces[nss[i]].ident;
    var r := FindNamespace(g, nss, k);
    assert table[k] == NsRef(nss[i]);
    var j :| 0 <= j < |nss| && nss[j] == r.value;
    assert table[k] == NsRef(nss[j]);
  }

  /** A namespace key is registered exactly when a listed namespace has it, and then names that namespace. */
  lemma NamespaceKeyListed(h: Host, g: Graph, table: Table, nss: seq<NodeId>, k: Identifier)
    requires Entries(h, g, table, nss) && k.NsKey?
    ensures k in table <==> FindNamespace(g, nss, k).Some?
    ensures k in table ==> FindNamespace(g, nss, k) == Some(table[k].id)
  {
    if k in table {
      assert NamespaceEntry(g, table, nss, k);
      var j :| 0 <= j < |nss| && nss[j] == table[k].id;
      FindNamespaceUnique(h, g, table, nss, j);
    }
    var r := FindNamespace(g, nss, k);
    if r.Some? {
      var j :| 0 <= j < |nss| && nss[j] == r.value;
      assert table[g.namespaces[nss[j]].ident] == NsRef(nss[j]);
    }
  }

  /** A type entry survives a step that keeps its node, its namespace and the lookup of it. */
  lemma TypeEntryMoved(h: Host, g: Graph, g1: Graph, table: Table, t1: Table,
                       nss: seq<NodeId>, nss1: seq<NodeId>, k: Identifier)
    requires Listed(g, nss) && Listed(g1, nss1) && k in table && k.TypeKey?
    requires TypeEntry(h, g, table, nss, k) && k in t1 && t1[k] == table[k]
    requires FindNamespace(g1, nss1, NsKey(h[k.t].ns)) == FindNamespace(g, nss, NsKey(h[k.t].ns))
    requires table[k].id in g1.types && g1.types[table[k].id].ns == g.types[table[k].id].ns
    requires table[k].id in g1.namespaces[FindNamespace(g, nss, NsKey(h[k.t].ns)).value].types
    ensures TypeEntry(h, g1, t1, nss1, k)
  {
  }

  /** The entries only read the listed namespaces and the registered types. */
  lemma EntriesFrame(h: Host, g: Graph, g1: Graph, table: Table, nss: seq<NodeId>)
    requires Entries(h, g, table, nss)
    requires forall i :: 0 <= i < |nss| ==> nss[i] in g1.namespaces && g1.namespaces[nss[i]] == g.namespaces[nss[i]]
    requires forall x :: x in g.types && g.types[x].ident in table && table[g.types[x].ident] == TypeRef(x) ==>
               x in g1.types && g1.types[x].ident == g.types[x].ident && g1.types[x].ns == g.types[x].ns
    ensures Entries(h, g1, table, nss)
  {
    assert Listed(g1, nss);
    forall k ensures FindNamespace(g1, nss, k) == FindNamespace(g, nss, k) {
      FindNamespaceAgrees(g, g1, nss, k);
    }
    forall k | k in table && k.NsKey? ensures NamespaceEntry(g1, table, nss, k) {
      assert NamespaceEntry(g, table, nss, k);
    }
    forall k | k in table && k.TypeKey? ensures TypeEntry(h, g1, table, nss, k) {
      assert TypeEntry(h, g, table, nss, k);
      assert g.types[table[k].id].ident in table;
    }
  }

  /** Registering a method under a new key keeps the entries. */
  lemma EntriesMethodEntry(h: Host, g: Graph, table: Table, nss: seq<NodeId>, k: Identifier, m: NodeId)
    requires Entries(h, g, table, nss) && k.MethodKey? && k !in table
    ensures Entries(h, g, table[k := MethodRef(m)], nss)
  {
    var t1 := table[k := MethodRef(m)];
    forall k' | k' in t1 && k'.NsKey? ensures NamespaceEntry(g, t1, nss, k') {
      assert NamespaceEntry(g, table, nss, k');
    }
    forall k' | k' in t1 && k'.TypeKey? ensures TypeEntry(h, g, t1, nss, k') {
      assert TypeEntry(h, g, table, nss, k');
    }
  }

  /**
   * `AddNamespace` on a missing key: the new namespace, with no types yet,
   * is listed last and registered under its identifier, which was not in
   * the table.
   */
  lemma EntriesNamespaceAdded(h: Host, g: Graph, g1: Graph, table: Table, nss: seq<NodeId>, n: NodeId)
    requires Entries(h, g, table, nss) && n !in g.namespaces && n in g1.namespaces
    requires g1.namespaces == g.namespaces[n := g1.namespaces[n]] && g1.types == g.types
    requires g1.namespaces[n].ident.NsKey? && g1.namespaces[n].types == []
    requires FindNamespace(g, nss, g1.namespaces[n].ident).None?
    ensures g1.namespaces[n].ident !in table
    ensures Entries(h, g1, table[g1.namespaces[n].ident := NsRef(n)], nss + [n])
  {
    var k := g1.namespaces[n].ident;
    NamespaceKeyListed(h, g, table, nss, k);
    assert n !in nss;
    assert forall i :: 0 <= i < |nss| ==> (nss + [n])[i] == nss[i];
    assert Listed(g1, nss);
    FindNamespaceSnoc(g1, nss, n, k);
    var t1 := table[k := NsRef(n)];
    forall k' | k' in t1 && k'.NsKey? ensures NamespaceEntry(g1, t1, nss + [n], k') {
      if k' != k {
        assert NamespaceEntry(g, table, nss, k');
      }
    }
    NamespaceAddedTypes(h, g, g1, table, nss, n);
  }

  /** The type entries of `EntriesNamespaceAdded`. */
  lemma NamespaceAddedTypes(h: Host, g: Graph, g1: Graph, table: Table, nss: seq<NodeId>, n: NodeId)
    requires Entries(h, g, table, nss) && n !in g.namespaces && n in g1.namespaces
    requires g1.namespaces == g.namespaces[n := g1.namespaces[n]] && g1.types == g.types
    requires g1.namespaces[n].ident.NsKey? && g1.namespaces[n].types == [] && g1.namespaces[n].ident !in table
    requires Listed(g1, nss + [n])
    ensures TypeEntries(h, g1, table[g1.namespaces[n].ident := NsRef(n)], nss + [n])
  {
    var nss1 := nss + [n];
    var t1 := table[g1.namespaces[n].ident := NsRef(n)];
    assert forall i :: 0 <= i < |nss| ==> nss1[i] == nss[i];
    assert Listed(g1, nss);
    forall k | k in t1 && k.TypeKey? ensures TypeEntry(h, g1, t1, nss1, k) {
      assert k in table && TypeEntry(h, g, table, nss, k);
      var key := NsKey(h[k.t].ns);
      FindNamespaceAgrees(g, g1, nss, key);
      FindNamespaceSnoc(g1, nss, n, key);
      TypeEntryMoved(h, g, g1, table, t1, nss, nss1, k);
    }
    forall i, x | 0 <= i < |nss1| && x in g1.namespaces[nss1[i]].types
      ensures x in g1.types && g1.types[x].ident in t1 && t1[g1.types[x].ident] == TypeRef(x)
    {
      assert i < |nss|;
    }
  }

  /**
   * `@namespace.AddType(doc)` after registering `doc` under its own, new,
   * key: the type is appended to the namespace its host type belongs to.
   */
  lemma EntriesTypeAdded(h: Host, g: Graph, g1: Graph, table: Table, nss: seq<NodeId>, x: NodeId, n: NodeId)
    requires Entries(h, g, table, nss) && x in g.types && n in g.namespaces
    requires g.types[x].ident.TypeKey? && g.types[x].ident !in table && g.types[x].ident.t in h
    requires FindNamespace(g, nss, NsKey(h[g.types[x].ident.t].ns)) == Some(n) && g.types[x].ns == Some(n)
    requires g1.namespaces == g.namespaces[n := g.namespaces[n].(types := g.namespaces[n].types + [x])]
    requires g1.types == g.types
    ensures Entries(h, g1, table[g.types[x].ident := TypeRef(x)], nss)
  {
    var k := g.types[x].ident;
    var t1 := table[k := TypeRef(x)];
    assert Listed(g1, nss);
    forall i | 0 <= i < |nss| ensures g1.namespaces[nss[i]].ident == g.namespaces[nss[i]].ident {
    }
    forall k' | k' in t1 && k'.NsKey? ensures NamespaceEntry(g1, t1, nss, k') {
      assert NamespaceEntry(g, table, nss, k');
    }
    TypeAddedEntries(h, g, g1, table, nss, x, n);
    TypeAddedLists(h, g, g1, table, nss, x, n);
  }

  /** The type entries of `EntriesTypeAdded`. */
  lemma TypeAddedEntries(h: Host, g: Graph, g1: Graph, table: Table, nss: seq<NodeId>, x: NodeId, n: NodeId)
    requires Entries(h, g, table, nss) && x in g.types && n in g.namespaces
    requires g.types[x].ident.TypeKey? && g.types[x].ident !in table && g.types[x].ident.t in h
    requires FindNamespace(g, nss, NsKey(h[g.types[x].ident.t].ns)) == Some(n) && g.types[x].ns == Some(n)
    requires g1.namespaces == g.namespaces[n := g.namespaces[n].(types := g.namespaces[n].types + [x])]
    requires g1.types == g.types && Listed(g1, nss)
    ensures forall k' :: k' in table[g.types[x].ident := TypeRef(x)] && k'.TypeKey? ==>
              TypeEntry(h, g1, table[g.types[x].ident := TypeRef(x)], nss, k')
  {
    var k := g.types[x].ident;
    var t1 := table[k := TypeRef(x)];
    forall k' ensures FindNamespace(g1, nss, k') == FindNamespace(g, nss, k') {
      FindNamespaceAgrees(g, g1, nss, k');
    }
    forall k' | k' in t1 && k'.TypeKey? ensures TypeEntry(h, g1, t1, nss, k') {
      if k' != k {
        assert TypeEntry(h, g, table, nss, k');
        TypeEntryMoved(h, g, g1, table, t1, nss, nss, k');
      }
    }
  }

  /** The type lists of `EntriesTypeAdded`. */
  lemma TypeAddedLists(h: Host, g: Graph, g1: Graph, table: Table, nss: seq<NodeId>, x: NodeId, n: NodeId)
    requires Entries(h, g, table, nss) && x in g.types && n in g.namespaces
    requires g.types[x].ident !in table
    requires g1.namespaces == g.namespaces[n := g.namespaces[n].(types := g.namespaces[n].types + [x])]
    requires g1.types == g.types && Listed(g1, nss)
    ensures forall i, y :: 0 <= i < |nss| && y in g1.namespaces[nss[i]].types ==>
              y in g1.types && g1.types[y].ident in table[g.types[x].ident := TypeRef(x)]
              && table[g.types[x].ident := TypeRef(x)][g1.types[y].ident] == TypeRef(y)
  {
    var k := g.types[x].ident;
    var t1 := table[k := TypeRef(x)];
    forall i, y | 0 <= i < |nss| && y in g1.namespaces[nss[i]].types
      ensures y in g1.types && g1.types[y].ident in t1 && t1[g1.types[y].ident] == TypeRef(y)
    {
      if y != x {
        if nss[i] == n {
          assert y in g.namespaces[n].types;
        } else {
          assert g1.namespaces[nss[i]] == g.namespaces[nss[i]];
        }
        assert g.types[y].ident in table;
      }
    }
  }

  /** Adding nodes, and changing none, keeps the invariant of the passes. */
  lemma BuiltExtends(h: Host, g: Graph, g1: Graph, table: Table, nss: seq<NodeId>)
    requires Built(h, g, table, nss) && Extends(g, g1) && GraphOk(h, g1)
    ensures Built(h, g1, table, nss)
    ensures forall k :: FindNamespace(g1, nss, k) == FindNamespace(g, nss, k)
  {
    EntriesFrame(h, g, g1, table, nss);
    TableOkMono(g, g1, table);
    forall k ensures FindNamespace(g1, nss, k) == FindNamespace(g, nss, k) {
      FindNamespaceAgrees(g, g1, nss, k);
    }
  }

  /**
   * `@namespace.Types.FirstOrDefault(x => x.IsIdentifiedBy(typeName))` in
   * the namespace of a host type finds a type exactly when the type's key is
   * registered, and then finds the registered node.
   */
  lemma FindTypeRegistered(h: Host, g: Graph, table: Table, nss: seq<NodeId>, k: Identifier)
    requires Built(h, g, table, nss) && k.TypeKey? && k.t in h
    requires FindNamespace(g, nss, NsKey(h[k.t].ns)).Some?
    ensures var n := FindNamespace(g, nss, NsKey(h[k.t].ns)).value;
            n in g.namespaces &&
            (k in table <==> FindType(g, g.namespaces[n].types, k).Some?) &&
            (k in table ==> FindType(g, g.namespaces[n].types, k) == Some(table[k].id))
  {
    var n := FindNamespace(g, nss, NsKey(h[k.t].ns)).value;
    var i :| 0 <= i < |nss| && nss[i] == n;
    var r := FindType(g, g.namespaces[n].types, k);
    if k in table {
      assert TypeEntry(h, g, table, nss, k);
      assert table[k].id in g.namespaces[n].types;
    }
    if r.Some? {
      assert table[g.types[r.value].ident] == TypeRef(r.value);
    }
  }

  /** `@namespace.AddType(doc)` after registering `doc`, for a graph that is valid as a whole. */
  lemma BuiltTypeRegistered(h: Host, g: Graph, table: Table, nss: seq<NodeId>, x: NodeId, n: NodeId)
    requires Built(h, g, table, nss) && x in g.types && n in g.namespaces
    requires g.types[x].ident.TypeKey? && g.types[x].ident !in table && g.types[x].ident.t in h
    requires FindNamespace(g, nss, NsKey(h[g.types[x].ident.t].ns)) == Some(n) && g.types[x].ns == Some(n)
    requires GraphOk(h, g.(namespaces := g.namespaces[n := g.namespaces[n].(types := g.namespaces[n].types + [x])]))
    ensures Built(h, g.(namespaces := g.namespaces[n := g.namespaces[n].(types := g.namespaces[n].types + [x])]),
                  table[g.types[x].ident := TypeRef(x)], nss)
  {
    var g1 := g.(namespaces := g.namespaces[n := g.namespaces[n].(types := g.namespaces[n].types + [x])]);
    EntriesTypeAdded(h, g, g1, table, nss, x, n);
    TableOkMono(g, g1, table);
  }

  /** Every registered type and method is among the pending references. */
  ghost predicate Recorded(table: Table, refs: seq<Ref>)
  {
    forall k :: k in table && (k.TypeKey? || k.MethodKey?) ==> table[k] in refs
  }

  /**
   * Pending references stay valid and unresolved while no state changes, and
   * more such references may follow.
   */
  lemma RefsAppend(g: Graph, g1: Graph, refs: seq<Ref>, more: seq<Ref>)
    requires RefsOk(g, refs) && StatesKept(g, g1)
    requires AllUnresolved(g1, more)
    ensures RefsOk(g1, refs + more)
  {
    forall i | 0 <= i < |refs + more|
      ensures Holds(g1, (refs + more)[i]) && StateOf(g1, (refs + more)[i]) == State.Unresolved
    {
      if i < |refs| {
        assert Holds(g, refs[i]);
      } else {
        assert (refs + more)[i] in more;
      }
    }
  }

  /** Appending references keeps the record. */
  lemma RecordedAppend(table: Table, refs: seq<Ref>, more: seq<Ref>)
    requires Recorded(table, refs)
    ensures Recorded(table, refs + more)
  {
  }

  /** Registering an entity whose reference is pending keeps the record. */
  lemma RecordedRegister(table: Table, refs: seq<Ref>, k: Identifier, r: Ref)
    requires Recorded(table, refs) && r in refs
    ensures Recorded(table[k := r], refs)
  {
  }

  /** A step that only adds nodes, and appends references to them, keeps the invariant. */
  lemma StepExtends(h: Host, g: Graph, g1: Graph, table: Table, nss: seq<NodeId>, refs: seq<Ref>, more: seq<Ref>)
    requires Built(h, g, table, nss) && RefsOk(g, refs) && Recorded(table, refs)
    requires Extends(g, g1) && GraphOk(h, g1)
    requires AllUnresolved(g1, more)
    ensures Built(h, g1, table, nss) && RefsOk(g1, refs + more) && Recorded(table, refs + more)
    ensures forall k :: FindNamespace(g1, nss, k) == FindNamespace(g, nss, k)
  {
    BuiltExtends(h, g, g1, table, nss);
    RefsAppend(g, g1, refs, more);
    RecordedAppend(table, refs, more);
  }

  /** `AddNamespace` on a missing key, for a graph that is valid as a whole. */
  lemma BuiltNamespaceAdded(h: Host, g: Graph, g1: Graph, table: Table, nss: seq<NodeId>, n: NodeId)
    requires Built(h, g, table, nss) && GraphOk(h, g1) && Extends(g, g1)
    requires n !in g.namespaces && n in g1.namespaces
    requires g1.namespaces == g.namespaces[n := g1.namespaces[n]] && g1.types == g.types
    requires g1.namespaces[n].ident.NsKey? && g1.namespaces[n].types == []
    requires FindNamespace(g, nss, g1.namespaces[n].ident).None?
    ensures g1.namespaces[n].ident !in table
    ensures Built(h, g1, table[g1.namespaces[n].ident := NsRef(n)], nss + [n])
    ensures FindNamespace(g1, nss + [n], g1.namespaces[n].ident) == Some(n)
  {
    var t1 := table[g1.namespaces[n].ident := NsRef(n)];
    EntriesNamespaceAdded(h, g, g1, table, nss, n);
    TableOkMono(g, g1, table);
    assert TableOk(g1, t1);
    FindNamespaceUnique(h, g1, t1, nss + [n], |nss|);
  }

  /**
   * What the passes of `Create` work on: the objects built so far,
   * `matchedAssociations`, the `namespaces` list and the `references` list.
   */
  datatype Session = Session(graph: Graph, matched: Table, namespaces: seq<NodeId>, references: seq<Ref>)

  /** What holds between the steps of the passes. */
  ghost predicate Building(h: Host, s: Session)
  {
    Built(h, s.graph, s.matched, s.namespaces) && RefsOk(s.graph, s.references) && Recorded(s.matched, s.references)
  }

  /** The session after listing the new namespace `d` last and registering it under its identifier. */
  function Listing(s: Session, d: NamespaceNode): Session
  {
    var n := s.graph.next;
    Session(s.graph.(namespaces := s.graph.namespaces[n := d], next := n + 1),
            s.matched[d.ident := NsRef(n)], s.namespaces + [n], s.references)
  }

  /**
   * Listing and registering a new namespace `d` with no types, under an
   * identifier no listed namespace has, keeps the invariant of the passes;
   * afterwards `Find` finds the new namespace.
   */
  lemma BuildingListing(h: Host, s: Session, d: NamespaceNode)
    requires Building(h, s) && NamespaceOk(s.graph, d) && d.ident.NsKey? && d.types == []
    requires FindNamespace(s.graph, s.namespaces, d.ident).None?
    ensures Building(h, Listing(s, d))
    ensures FindNamespace(Listing(s, d).graph, Listing(s, d).namespaces, d.ident) == Some(s.graph.next)
  {
    var g := s.graph;
    var g1 := g.(namespaces := g.namespaces[g.next := d], next := g.next + 1);
    NamespaceAdded(h, g, d);
    BuiltNamespaceAdded(h, g, g1, s.matched, s.namespaces, g.next);
    RefsAppend(g, g1, s.references, []);
    assert s.references + [] == s.references;
  }

  /**
   * `references.Add(doc)`, `matchedAssociations.Add(association.Name, doc)`
   * and `@namespace.AddType(doc)` for the type node `x` and its namespace `n`.
   */
  function Registering(s: Session, x: NodeId, n: NodeId): Session
    requires x in s.graph.types && n in s.graph.namespaces
  {
    var d := s.graph.namespaces[n];
    Session(s.graph.(namespaces := s.graph.namespaces[n := d.(types := d.types + [x])]),
            s.matched[s.graph.types[x].ident := TypeRef(x)], s.namespaces, s.references + [TypeRef(x)])
  }

  /**
   * Registering a type node under a type key that is not registered yet, in
   * the listed namespace of its host type, keeps the invariant of the passes.
   */
  lemma BuildingRegistering(h: Host, s: Session, x: NodeId, n: NodeId)
    requires Building(h, s) && x in s.graph.types && n in s.graph.namespaces
    requires s.graph.types[x].ident.TypeKey? && s.graph.types[x].ident !in s.matched && s.graph.types[x].ident.t in h
    requires s.graph.types[x].state == State.Unresolved
    requires FindNamespace(s.graph, s.namespaces, NsKey(h[s.graph.types[x].ident.t].ns)) == Some(n)
    requires s.graph.types[x].ns == Some(n)
    ensures Building(h, Registering(s, x, n))
  {
    var g := s.graph;
    var k := g.types[x].ident;
    var g1 := g.(namespaces := g.namespaces[n := g.namespaces[n].(types := g.namespaces[n].types + [x])]);
    NamespaceTypeAdded(h, g, n, x);
    BuiltTypeRegistered(h, g, s.matched, s.namespaces, x, n);
    RefsAppend(g, g1, s.references, [TypeRef(x)]);
    RecordedAppend(s.matched, s.references, [TypeRef(x)]);
    RecordedRegister(s.matched, s.references + [TypeRef(x)], k, TypeRef(x));
  }

  /**
   * The duplicate check of `AddType` and `AddMethod`-style steps on the
   * built type node `x`: when its key is registered already nothing
   * changes, otherwise `x` is registered.
   */
  function TypeRegistration(s: Session, x: NodeId, n: NodeId): Session
    requires x in s.graph.types && n in s.graph.namespaces
  {
    if s.graph.types[x].ident in s.matched then s else Registering(s, x, n)
  }

  /**
   * The duplicate check keeps every entry (first wins), adds exactly the
   * key of `x`, which then names the first node registered under it, and
   * leaves the namespace list alone.
   */
  lemma TypeRegistrationKeys(s: Session, x: NodeId, n: NodeId)
    requires x in s.graph.types && n in s.graph.namespaces
    ensures var s1 := TypeRegistration(s, x, n);
            var k := s.graph.types[x].ident;
            && s1.matched.Keys == s.matched.Keys + {k} && Kept(s.matched, s1.matched)
            && s1.matched[k] == (if k in s.matched then s.matched[k] else TypeRef(x))
            && s1.namespaces == s.namespaces
  {
  }

  /**
   * `references.Add(doc)`, `matchedAssociations.Add(association.Name, doc)`
   * and `type.AddMethod(doc)`: the method node `d` takes the next id, is
   * pending, registered under its identifier and appended to the methods of
   * `ty`.
   */
  function MethodRegistering(s: Session, d: MethodNode, ty: NodeId): Session
    requires ty in s.graph.types
  {
    var m := s.graph.next;
    var g := s.graph.(methods := s.graph.methods[m := d], next := m + 1);
    var x := g.types[ty];
    Session(g.(types := g.types[ty := x.(methods := x.methods + [m])]),
            s.matched[d.ident := MethodRef(m)], s.namespaces, s.references + [MethodRef(m)])
  }

  /** The duplicate check of `AddMethod`: a method whose key is registered already is dropped. */
  function MethodRegistration(s: Session, d: MethodNode, ty: NodeId): Session
    requires ty in s.graph.types
  {
    if d.ident in s.matched then s else MethodRegistering(s, d, ty)
  }

  /**
   * The duplicate check keeps every entry (first wins), adds exactly the
   * method's key and leaves the namespace list alone.
   */
  lemma MethodRegistrationKeys(s: Session, d: MethodNode, ty: NodeId)
    requires ty in s.graph.types
    ensures var s1 := MethodRegistration(s, d, ty);
            && s1.matched.Keys == s.matched.Keys + {d.ident} && Kept(s.matched, s1.matched)
            && s1.namespaces == s.namespaces
  {
  }

  /**
   * Changing the member lists of a type node, in a graph that stays valid,
   * keeps the invariant: the entries do not look at members.
   */
  lemma BuiltMembersChanged(h: Host, g: Graph, table: Table, nss: seq<NodeId>, ty: NodeId, x: TypeNode)
    requires Built(h, g, table, nss) && ty in g.types
    requires x == g.types[ty].(methods := x.methods, properties := x.properties)
    requires GraphOk(h, g.(types := g.types[ty := x]))
    ensures Built(h, g.(types := g.types[ty := x]), table, nss)
  {
    var g1 := g.(types := g.types[ty := x]);
    EntriesFrame(h, g, g1, table, nss);
    TableOkMono(g, g1, table);
  }

  /** A new method node appended to the methods of `ty` keeps the invariant, the table unchanged. */
  lemma BuiltMethodAdded(h: Host, g: Graph, table: Table, nss: seq<NodeId>, d: MethodNode, ty: NodeId)
    requires Built(h, g, table, nss) && ty in g.types && MethodOk(g, d)
    ensures var g0 := g.(methods := g.methods[g.next := d], next := g.next + 1);
            var x := g0.types[ty];
            Built(h, g0.(types := g0.types[ty := x.(methods := x.methods + [g.next])]), table, nss)
  {
    var g0 := g.(methods := g.methods[g.next := d], next := g.next + 1);
    MethodAdded(h, g, d);
    BuiltExtends(h, g, g0, table, nss);
    var x := g0.types[ty];
    assert TypeOk(h, g0, x);
    TypeReplaced(h, g0, ty, x.(methods := x.methods + [g.next]));
    BuiltMembersChanged(h, g0, table, nss, ty, x.(methods := x.methods + [g.next]));
  }

  /** ... and registering it under a method key that is new keeps it too. */
  lemma BuiltMethodRegistered(h: Host, g: Graph, table: Table, nss: seq<NodeId>, d: MethodNode, ty: NodeId)
    requires Built(h, g, table, nss) && ty in g.types && MethodOk(g, d)
    requires d.ident.MethodKey? && d.ident !in table
    ensures var g0 := g.(methods := g.methods[g.next := d], next := g.next + 1);
            var x := g0.types[ty];
            var g1 := g0.(types := g0.types[ty := x.(methods := x.methods + [g.next])]);
            Built(h, g1, table[d.ident := MethodRef(g.next)], nss) && Compatible(g, g1)
  {
    var g0 := g.(methods := g.methods[g.next := d], next := g.next + 1);
    var x := g0.types[ty];
    var g1 := g0.(types := g0.types[ty := x.(methods := x.methods + [g.next])]);
    BuiltMethodAdded(h, g, table, nss, d, ty);
    EntriesMethodEntry(h, g1, table, nss, d.ident, g.next);
    assert TableOk(g1, table[d.ident := MethodRef(g.next)]);
  }

  /** Registering a well-formed method under a method key that is new keeps the invariant. */
  lemma BuildingMethodRegistering(h: Host, s: Session, d: MethodNode, ty: NodeId)
    requires Building(h, s) && ty in s.graph.types && MethodOk(s.graph, d) && d.state == State.Unresolved
    requires d.ident.MethodKey? && d.ident !in s.matched
    ensures Building(h, MethodRegistering(s, d, ty))
  {
    var g := s.graph;
    var m := g.next;
    var g0 := g.(methods := g.methods[m := d], next := m + 1);
    var x := g0.types[ty];
    var g1 := g0.(types := g0.types[ty := x.(methods := x.methods + [m])]);
    assert MethodRegistering(s, d, ty) ==
           Session(g1, s.matched[d.ident := MethodRef(m)], s.namespaces, s.references + [MethodRef(m)]);
    BuiltMethodRegistered(h, g, s.matched, s.namespaces, d, ty);
    RefsAppend(g, g1, s.references, [MethodRef(m)]);
    RecordedAppend(s.matched, s.references, [MethodRef(m)]);
    RecordedRegister(s.matched, s.references + [MethodRef(m)], d.ident, MethodRef(m));
  }

  /** The duplicate check of `AddMethod` keeps the invariant either way. */
  lemma BuildingMethodRegistration(h: Host, s: Session, d: MethodNode, ty: NodeId)
    requires Building(h, s) && ty in s.graph.types && MethodOk(s.graph, d) && d.ident.MethodKey?
    requires d.state == State.Unresolved
    ensures Building(h, MethodRegistration(s, d, ty))
  {
    if d.ident !in s.matched {
      BuildingMethodRegistering(h, s, d, ty);
    }
  }

  /**
   * `references.Add(doc)` and `type.AddProperty(doc)`: the property node
   * `d` takes the next id, is pending and is appended to the properties of
   * `ty`; properties are never registered.
   */
  function PropertyAdding(s: Session, d: PropertyNode, ty: NodeId): Session
    requires ty in s.graph.types
  {
    var p := s.graph.next;
    var g := s.graph.(properties := s.graph.properties[p := d], next := p + 1);
    var x := g.types[ty];
    Session(g.(types := g.types[ty := x.(properties := x.properties + [p])]),
            s.matched, s.namespaces, s.references + [PropertyRef(p)])
  }

  /** A new property node appended to the properties of `ty` keeps the invariant. */
  lemma BuiltPropertyAdded(h: Host, g: Graph, table: Table, nss: seq<NodeId>, d: PropertyNode, ty: NodeId)
    requires Built(h, g, table, nss) && ty in g.types && PropertyOk(g, d)
    ensures var g0 := g.(properties := g.properties[g.next := d], next := g.next + 1);
            var x := g0.types[ty];
            Built(h, g0.(types := g0.types[ty := x.(properties := x.properties + [g.next])]), table, nss)
  {
    var g0 := g.(properties := g.properties[g.next := d], next := g.next + 1);
    PropertyAdded(h, g, d);
    BuiltExtends(h, g, g0, table, nss);
    var x := g0.types[ty];
    assert TypeOk(h, g0, x);
    TypeReplaced(h, g0, ty, x.(properties := x.properties + [g.next]));
    BuiltMembersChanged(h, g0, table, nss, ty, x.(properties := x.properties + [g.next]));
  }

  /** Adding a well-formed property keeps the invariant. */
  lemma BuildingPropertyAdding(h: Host, s: Session, d: PropertyNode, ty: NodeId)
    requires Building(h, s) && ty in s.graph.types && PropertyOk(s.graph, d) && d.state == State.Unresolved
    ensures Building(h, PropertyAdding(s, d, ty))
  {
    var g := s.graph;
    var p := g.next;
    var g0 := g.(properties := g.properties[p := d], next := p + 1);
    var x := g0.types[ty];
    var g1 := g0.(types := g0.types[ty := x.(properties := x.properties + [p])]);
    assert PropertyAdding(s, d, ty) == Session(g1, s.matched, s.namespaces, s.references + [PropertyRef(p)]);
    BuiltPropertyAdded(h, g, s.matched, s.namespaces, d, ty);
    RefsAppend(g, g1, s.references, [PropertyRef(p)]);
    RecordedAppend(s.matched, s.references, [PropertyRef(p)]);
  }
}
