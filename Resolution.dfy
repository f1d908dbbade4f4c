/**
 * The resolve loop of `DocumentModel.Create`: every pending reference that
 * is not resolved yet is resolved against the identifier table, in the
 * order the references were collected.
 */
module Resolution {
  import opened HostTypes
  import opened Entities
  import DeclaredType

  function IdentOf(g: Graph, r: Ref): Identifier
    requires Holds(g, r)
  {
    match r
    case NsRef(n) => g.namespaces[n].ident
    case TypeRef(x) => g.types[x].ident
    case MethodRef(m) => g.methods[m].ident
    case PropertyRef(p) => g.properties[p].ident
  }

  // ---- the footprint of resolution ----------------------------------------------

  /**
   * A type keeps its identity and members; once resolved it no longer
   * changes; its state either stays or becomes its verdict.
   */
  ghost predicate TypeSettledAt(g0: Graph, g1: Graph, table: Table, y: NodeId)
    requires y in g0.types && y in g1.types
  {
    && DeclaredType.SameFixed(g1.types[y], g0.types[y])
    && (IsResolved(g0.types[y].state) ==> g1.types[y] == g0.types[y])
    && (g1.types[y].state == g0.types[y].state || g1.types[y].state == Verdict(g0.types[y].ident, table))
  }

  /** A method is left alone, or it was unresolved and now carries its verdict. */
  ghost predicate MethodSettledAt(g0: Graph, g1: Graph, table: Table, m: NodeId)
    requires m in g0.methods && m in g1.methods
  {
    || g1.methods[m] == g0.methods[m]
    || (!IsResolved(g0.methods[m].state) &&
        g1.methods[m] == g0.methods[m].(state := Verdict(g0.methods[m].ident, table)))
  }

  /** A property is left alone, or it was unresolved and now carries its verdict. */
  ghost predicate PropertySettledAt(g0: Graph, g1: Graph, table: Table, p: NodeId)
    requires p in g0.properties && p in g1.properties
  {
    || g1.properties[p] == g0.properties[p]
    || (!IsResolved(g0.properties[p].state) &&
        g1.properties[p] == g0.properties[p].(state := Verdict(g0.properties[p].ident, table)))
  }

  /**
   * What any number of resolution steps may do to a graph: no node is added
   * or removed, and every node stays within its per-node footprint above.
   */
  ghost predicate Settles(g0: Graph, g1: Graph, table: Table)
  {
    && g1.next == g0.next
    && g1.namespaces.Keys == g0.namespaces.Keys && g1.types.Keys == g0.types.Keys
    && g1.methods.Keys == g0.methods.Keys && g1.properties.Keys == g0.properties.Keys
    && (forall n {:trigger DeclaredType.NamespaceFrameAt(g0, g1, n, table)} ::
          n in g0.namespaces ==> DeclaredType.NamespaceFrameAt(g0, g1, n, table))
    && (forall y {:trigger TypeSettledAt(g0, g1, table, y)} :: y in g0.types ==> TypeSettledAt(g0, g1, table, y))
    && (forall m {:trigger MethodSettledAt(g0, g1, table, m)} ::
          m in g0.methods ==> MethodSettledAt(g0, g1, table, m))
    && (forall p {:trigger PropertySettledAt(g0, g1, table, p)} ::
          p in g0.properties ==> PropertySettledAt(g0, g1, table, p))
  }

  lemma SettlesReflexive(g: Graph, table: Table)
    ensures Settles(g, g, table)
  {
    forall n | n in g.namespaces ensures DeclaredType.NamespaceFrameAt(g, g, n, table) { }
    forall y | y in g.types ensures TypeSettledAt(g, g, table, y) { }
    forall m | m in g.methods ensures MethodSettledAt(g, g, table, m) { }
    forall p | p in g.properties ensures PropertySettledAt(g, g, table, p) { }
  }

  lemma SettlesTransitive(g0: Graph, g1: Graph, g2: Graph, table: Table)
    requires Settles(g0, g1, table) && Settles(g1, g2, table)
    ensures Settles(g0, g2, table)
  {
    forall n | n in g0.namespaces ensures DeclaredType.NamespaceFrameAt(g0, g2, n, table) {
      assert DeclaredType.NamespaceFrameAt(g0, g1, n, table) && DeclaredType.NamespaceFrameAt(g1, g2, n, table);
    }
    forall y | y in g0.types ensures TypeSettledAt(g0, g2, table, y) {
      assert TypeSettledAt(g0, g1, table, y) && TypeSettledAt(g1, g2, table, y);
    }
    forall m | m in g0.methods ensures MethodSettledAt(g0, g2, table, m) {
      assert MethodSettledAt(g0, g1, table, m) && MethodSettledAt(g1, g2, table, m);
    }
    forall p | p in g0.properties ensures PropertySettledAt(g0, g2, table, p) {
      assert PropertySettledAt(g0, g1, table, p) && PropertySettledAt(g1, g2, table, p);
    }
  }

  /** A resolved reference stays resolved. */
  lemma SettlesKeepsResolved(g0: Graph, g1: Graph, table: Table, r: Ref)
    requires Settles(g0, g1, table) && Holds(g0, r) && IsResolved(StateOf(g0, r))
    ensures Holds(g1, r) && StateOf(g1, r) == StateOf(g0, r)
  {
    match r
    case NsRef(n) => assert DeclaredType.NamespaceFrameAt(g0, g1, n, table);
    case TypeRef(x) => assert TypeSettledAt(g0, g1, table, x);
    case MethodRef(m) => assert MethodSettledAt(g0, g1, table, m);
    case PropertyRef(p) => assert PropertySettledAt(g0, g1, table, p);
  }

  /**
   * A reference keeps its identifier, and its state either stays or becomes
   * its verdict.
   */
  lemma SettlesVerdict(g0: Graph, g1: Graph, table: Table, r: Ref)
    requires Settles(g0, g1, table) && Holds(g0, r)
    ensures Holds(g1, r) && IdentOf(g1, r) == IdentOf(g0, r)
    ensures StateOf(g1, r) == StateOf(g0, r) || StateOf(g1, r) == Verdict(IdentOf(g0, r), table)
  {
    match r
    case NsRef(n) => assert DeclaredType.NamespaceFrameAt(g0, g1, n, table);
    case TypeRef(x) => assert TypeSettledAt(g0, g1, table, x);
    case MethodRef(m) => assert MethodSettledAt(g0, g1, table, m);
    case PropertyRef(p) => assert PropertySettledAt(g0, g1, table, p);
  }

  /** `DeclaredType.Resolve` on an unresolved type stays inside the footprint. */
  lemma SettlesFromFrame(h: Host, g0: Graph, g1: Graph, x: NodeId, r: nat, table: Table)
    requires x in g0.types && !IsResolved(g0.types[x].state)
    requires DeclaredType.ResolveFrame(h, g0, g1, x, r, table)
    ensures Settles(g0, g1, table)
  {
    forall y | y in g0.types ensures TypeSettledAt(g0, g1, table, y) {
      assert DeclaredType.TypeFrameAt(h, g0, g1, x, r, table, y);
    }
    forall m | m in g0.methods ensures MethodSettledAt(g0, g1, table, m) { }
    forall p | p in g0.properties ensures PropertySettledAt(g0, g1, table, p) { }
  }

  lemma SettlesNamespace(g: Graph, n: NodeId, table: Table)
    requires n in g.namespaces && !IsResolved(g.namespaces[n].state)
    ensures Settles(g, g.(namespaces := g.namespaces[n := g.namespaces[n].(
                      state := Verdict(g.namespaces[n].ident, table))]), table)
  {
    var g1 := g.(namespaces := g.namespaces[n := g.namespaces[n].(state := Verdict(g.namespaces[n].ident, table))]);
    forall k | k in g.namespaces ensures DeclaredType.NamespaceFrameAt(g, g1, k, table) { }
    forall y | y in g.types ensures TypeSettledAt(g, g1, table, y) { }
    forall m | m in g.methods ensures MethodSettledAt(g, g1, table, m) { }
    forall p | p in g.properties ensures PropertySettledAt(g, g1, table, p) { }
  }

  lemma SettlesMethod(g: Graph, m: NodeId, table: Table)
    requires m in g.methods && !IsResolved(g.methods[m].state)
    ensures Settles(g, g.(methods := g.methods[m := g.methods[m].(
                      state := Verdict(g.methods[m].ident, table))]), table)
  {
    var g1 := g.(methods := g.methods[m := g.methods[m].(state := Verdict(g.methods[m].ident, table))]);
    forall n | n in g.namespaces ensures DeclaredType.NamespaceFrameAt(g, g1, n, table) { }
    forall y | y in g.types ensures TypeSettledAt(g, g1, table, y) { }
    forall k | k in g.methods ensures MethodSettledAt(g, g1, table, k) { }
    forall p | p in g.properties ensures PropertySettledAt(g, g1, table, p) { }
  }

  lemma SettlesProperty(g: Graph, p: NodeId, table: Table)
    requires p in g.properties && !IsResolved(g.properties[p].state)
    ensures Settles(g, g.(properties := g.properties[p := g.properties[p].(
                      state := Verdict(g.properties[p].ident, table))]), table)
  {
    var g1 := g.(properties := g.properties[p := g.properties[p].(state := Verdict(g.properties[p].ident, table))]);
    forall n | n in g.namespaces ensures DeclaredType.NamespaceFrameAt(g, g1, n, table) { }
    forall y | y in g.types ensures TypeSettledAt(g, g1, table, y) { }
    forall m | m in g.methods ensures MethodSettledAt(g, g1, table, m) { }
    forall k | k in g.properties ensures PropertySettledAt(g, g1, table, k) { }
  }

  /** Resolution keeps the identifier of every type, so the table stays valid. */
  lemma SettlesTableOk(g0: Graph, g1: Graph, table: Table)
    requires Settles(g0, g1, table) && TableOk(g0, table)
    ensures TableOk(g1, table)
  {
    forall x | x in g0.types ensures g1.types[x].ident == g0.types[x].ident {
      assert TypeSettledAt(g0, g1, table, x);
    }
    assert Compatible(g0, g1);
    TableOkMono(g0, g1, table);
  }

  // ---- the loop -------------------------------------------------------------------

  /**
   * One iteration of the resolve loop of `Create`: a resolved reference is skipped; a type is
   * resolved by `DeclaredType.Resolve`; a namespace, method or property gets
   * its verdict. A failure is the exception `Resolve` throws.
   */
  method ResolveOne(h: Host, g: Graph, table: Table, r: Ref) returns (g1: Graph, o: Outcome)
    requires GraphOk(h, g) && TableOk(g, table) && Holds(g, r)
    ensures GraphOk(h, g1) && TableOk(g1, table) && Settles(g, g1, table)
    ensures TableSound(g, table) ==> o == Ok && TableSound(g1, table)
    ensures o == Ok ==> Holds(g1, r) && IsResolved(StateOf(g1, r))
    ensures IsResolved(StateOf(g, r)) ==> g1 == g && o == Ok
    ensures !IsResolved(StateOf(g, r)) && !r.TypeRef? ==> o == Ok
    ensures !IsResolved(StateOf(g, r)) && o == Ok ==> StateOf(g1, r) == Verdict(IdentOf(g, r), table)
  {
    if IsResolved(StateOf(g, r)) {
      SettlesReflexive(g, table);
      return g, Ok;
    }
    match r
    case TypeRef(x) =>
      g1, o := DeclaredType.Resolve(h, g, x, table);
      SettlesFromFrame(h, g, g1, x, Rank(h, g.types[x].ident), table);
    case NsRef(n) =>
      g1 := ResolveNamespace(h, g, n, table);
      o := Ok;
      SettlesNamespace(g, n, table);
      SettlesTableOk(g, g1, table);
    case MethodRef(m) =>
      g1 := ResolveMethod(h, g, m, table);
      o := Ok;
      SettlesMethod(g, m, table);
      SettlesTableOk(g, g1, table);
    case PropertyRef(p) =>
      g1 := ResolveProperty(h, g, p, table);
      o := Ok;
      SettlesProperty(g, p, table);
      SettlesTableOk(g, g1, table);
  }

  /** Every reference of `refs[..i]` is resolved in `g`. */
  ghost predicate ResolvedUpTo(g: Graph, refs: seq<Ref>, i: nat)
    requires i <= |refs|
  {
    forall j :: 0 <= j < i ==> Holds(g, refs[j]) && IsResolved(StateOf(g, refs[j]))
  }

  lemma ResolvedUpToStep(g1: Graph, g2: Graph, table: Table, refs: seq<Ref>, i: nat)
    requires i < |refs| && ResolvedUpTo(g1, refs, i) && Settles(g1, g2, table)
    requires Holds(g2, refs[i]) && IsResolved(StateOf(g2, refs[i]))
    ensures ResolvedUpTo(g2, refs, i + 1)
  {
    forall j | 0 <= j < i ensures Holds(g2, refs[j]) && IsResolved(StateOf(g2, refs[j])) {
      SettlesKeepsResolved(g1, g2, table, refs[j]);
    }
  }

  /**
   * Every reference of `refs[..i]` that was unresolved in `g0` carries its
   * verdict in `g`.
   */
  ghost predicate VerdictUpTo(g0: Graph, g: Graph, table: Table, refs: seq<Ref>, i: nat)
    requires i <= |refs|
  {
    forall j :: 0 <= j < i && Holds(g0, refs[j]) && !IsResolved(StateOf(g0, refs[j])) ==>
      Holds(g, refs[j]) && StateOf(g, refs[j]) == Verdict(IdentOf(g0, refs[j]), table)
  }

  lemma VerdictUpToStep(g0: Graph, g1: Graph, g2: Graph, table: Table, refs: seq<Ref>, i: nat)
    requires i < |refs| && VerdictUpTo(g0, g1, table, refs, i) && Settles(g0, g1, table) && Settles(g1, g2, table)
    requires Holds(g0, refs[i]) && !IsResolved(StateOf(g0, refs[i])) ==>
               Holds(g2, refs[i]) && StateOf(g2, refs[i]) == Verdict(IdentOf(g0, refs[i]), table)
    ensures VerdictUpTo(g0, g2, table, refs, i + 1)
  {
    forall j | 0 <= j < i && Holds(g0, refs[j]) && !IsResolved(StateOf(g0, refs[j]))
      ensures Holds(g2, refs[j]) && StateOf(g2, refs[j]) == Verdict(IdentOf(g0, refs[j]), table)
    {
      SettlesKeepsResolved(g1, g2, table, refs[j]);
    }
  }

  /**
   * The resolve loop of `Create`. It stops at the first failure, as the
   * exception would. Under a table the builder produced nothing fails, and
   * afterwards every pending reference is resolved: one that was not
   * resolved before the loop is `Resolved` when its identifier is in the
   * table and `External` otherwise.
   */
  method ResolveReferences(h: Host, g: Graph, table: Table, refs: seq<Ref>) returns (g1: Graph, o: Outcome)
    requires GraphOk(h, g) && TableOk(g, table) && forall i :: 0 <= i < |refs| ==> Holds(g, refs[i])
    ensures GraphOk(h, g1) && TableOk(g1, table) && Settles(g, g1, table)
    ensures TableSound(g, table) ==> o == Ok
    ensures o == Ok ==> ResolvedUpTo(g1, refs, |refs|)
    ensures o == Ok ==> forall i :: 0 <= i < |refs| && !IsResolved(StateOf(g, refs[i])) ==>
                          StateOf(g1, refs[i]) == Verdict(IdentOf(g1, refs[i]), table)
  {
    g1, o := g, Ok;
    SettlesReflexive(g, table);
    var i := 0;
    while i < |refs| && o == Ok
      invariant 0 <= i <= |refs|
      invariant GraphOk(h, g1) && TableOk(g1, table) && Settles(g, g1, table)
      invariant TableSound(g, table) ==> o == Ok && TableSound(g1, table)
      invariant o == Ok ==> ResolvedUpTo(g1, refs, i) && VerdictUpTo(g, g1, table, refs, i)
    {
      assert Holds(g, refs[i]);
      SettlesVerdict(g, g1, table, refs[i]);
      var g2, o2 := ResolveOne(h, g1, table, refs[i]);
      if o2 == Ok {
        ResolvedUpToStep(g1, g2, table, refs, i);
        VerdictUpToStep(g, g1, g2, table, refs, i);
      }
      SettlesTransitive(g, g1, g2, table);
      g1, o := g2, o2;
      i := i + 1;
    }
    if o == Ok {
      forall j | 0 <= j < |refs| && !IsResolved(StateOf(g, refs[j]))
        ensures StateOf(g1, refs[j]) == Verdict(IdentOf(g1, refs[j]), table)
      {
        SettlesVerdict(g, g1, table, refs[j]);
      }
    }
  }
}
