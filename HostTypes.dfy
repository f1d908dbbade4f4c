/**
 * The reflected type metadata the engine reads (`System.Type`: `BaseType`,
 * `GetInterfaces()`, `Namespace`), as a finite table, and the
 * direct-interface computation of `DeclaredType.GetInterfaces`.
 */
module HostTypes {
  import opened Wrappers

  /** Opaque handle of a reflected type. */
  type TypeId = nat

  /**
   * What the host reports about one type. `interfaces` is `GetInterfaces()`:
   * every interface the type implements, inherited ones included. `depth`
   * ranks the inheritance graph, which the host guarantees is acyclic.
   */
  datatype HostType = HostType(
    name: string,
    prettyName: string,
    ns: string,
    base: Option<TypeId>,
    interfaces: seq<TypeId>,
    depth: nat)

  type Host = map<TypeId, HostType>

  predicate NoDuplicates<T(==)>(s: seq<T>)
  {
    forall i, j :: 0 <= i < j < |s| ==> s[i] != s[j]
  }

  /** The base type and interfaces of `t` are known and strictly lower in the ranking. */
  ghost predicate RankedAt(h: Host, t: TypeId)
    requires t in h
  {
    && (h[t].base.Some? ==> h[t].base.value in h && h[h[t].base.value].depth < h[t].depth)
    && (forall i :: i in h[t].interfaces ==> i in h && h[i].depth < h[t].depth)
  }

  /**
   * Every type is ranked. The trigger keeps the solver from following base
   * types without end; a proof asks for `RankedAt(h, t)` where it needs it.
   */
  ghost predicate Ranked(h: Host)
  {
    forall t {:trigger RankedAt(h, t)} :: t in h ==> RankedAt(h, t)
  }

  /**
   * `GetInterfaces()` of `t` lists each interface once and includes the
   * interfaces of every listed interface and of the base type.
   */
  ghost predicate ClosedAt(h: Host, t: TypeId)
    requires t in h
  {
    && NoDuplicates(h[t].interfaces)
    && (forall i, x :: i in h[t].interfaces && i in h && x in h[i].interfaces ==> x in h[t].interfaces)
    && (h[t].base.Some? && h[t].base.value in h ==>
          forall x :: x in h[h[t].base.value].interfaces ==> x in h[t].interfaces)
  }

  ghost predicate Closed(h: Host)
  {
    forall t {:trigger ClosedAt(h, t)} :: t in h ==> ClosedAt(h, t)
  }

  ghost predicate WellFormed(h: Host)
  {
    Ranked(h) && Closed(h)
  }

  /** `x` is reached from `t` through interface and base-type edges. */
  ghost predicate Below(h: Host, t: TypeId, x: TypeId)
    requires Ranked(h) && t in h
    decreases h[t].depth
  {
    assert RankedAt(h, t);
    || x in h[t].interfaces
    || (exists j :: j in h[t].interfaces && Below(h, j, x))
    || (h[t].base.Some? && Below(h, h[t].base.value, x))
  }

  /** Under the host's closure guarantee, whatever is below `t` is listed by `t` itself. */
  lemma {:induction false} BelowIsListed(h: Host, t: TypeId, x: TypeId)
    requires WellFormed(h) && t in h && Below(h, t, x)
    ensures x in h[t].interfaces
    decreases h[t].depth
  {
    assert RankedAt(h, t) && ClosedAt(h, t);
    if x !in h[t].interfaces {
      if j :| j in h[t].interfaces && Below(h, j, x) {
        BelowIsListed(h, j, x);
      } else {
        BelowIsListed(h, h[t].base.value, x);
      }
    }
  }

  /**
   * `x` is declared directly on `t`: no other interface of `t` and not the
   * base type of `t` already brings it.
   */
  predicate IsDirect(h: Host, t: TypeId, x: TypeId)
    requires t in h
  {
    && (forall j :: j in h[t].interfaces && j in h ==> x !in h[j].interfaces)
    && (h[t].base.Some? && h[t].base.value in h ==> x !in h[h[t].base.value].interfaces)
  }

  /** The elements of `s` that are declared directly on `t`, in order. */
  function KeepDirect(h: Host, t: TypeId, s: seq<TypeId>): (r: seq<TypeId>)
    requires t in h
    ensures forall x :: x in r <==> x in s && IsDirect(h, t, x)
  {
    if s == [] then []
    else (if IsDirect(h, t, s[0]) then [s[0]] else []) + KeepDirect(h, t, s[1..])
  }

  /** The interfaces `DeclaredType` reports for `t`: the directly declared ones. */
  function DirectInterfaces(h: Host, t: TypeId): (r: seq<TypeId>)
    requires t in h
  {
    KeepDirect(h, t, h[t].interfaces)
  }

  // ---- subsequences -------------------------------------------------------

  /** `a` is `b` with some elements left out, order kept. */
  predicate IsSubsequence<T(==)>(a: seq<T>, b: seq<T>)
    decreases |b|
  {
    if a == [] then true
    else if b == [] then false
    else (a[0] == b[0] && IsSubsequence(a[1..], b[1..])) || IsSubsequence(a, b[1..])
  }

  lemma {:induction false} SubsequenceReflexive<T>(a: seq<T>)
    ensures IsSubsequence(a, a)
    decreases |a|
  {
    if a != [] { SubsequenceReflexive(a[1..]); }
  }

  lemma {:induction false} SubsequenceTransitive<T>(a: seq<T>, b: seq<T>, c: seq<T>)
    requires IsSubsequence(a, b) && IsSubsequence(b, c)
    ensures IsSubsequence(a, c)
    decreases |c|
  {
    if a != [] {
      assert b != [] && c != [];
      if IsSubsequence(b, c[1..]) {
        SubsequenceTransitive(a, b, c[1..]);
      } else if a[0] == b[0] && IsSubsequence(a[1..], b[1..]) {
        SubsequenceTransitive(a[1..], b[1..], c[1..]);
      } else {
        SubsequenceTransitive(a, b[1..], c[1..]);
      }
    }
  }

  lemma {:induction false} SubsequenceMembers<T>(a: seq<T>, b: seq<T>, x: T)
    requires IsSubsequence(a, b) && x in a
    ensures x in b
    decreases |b|
  {
    if a[0] == b[0] && IsSubsequence(a[1..], b[1..]) {
      if x != a[0] { SubsequenceMembers(a[1..], b[1..], x); }
    } else {
      SubsequenceMembers(a, b[1..], x);
    }
  }

  lemma {:induction false} SubsequenceNoDuplicates<T>(a: seq<T>, b: seq<T>)
    requires IsSubsequence(a, b) && NoDuplicates(b)
    ensures NoDuplicates(a)
    decreases |b|
  {
    if a != [] {
      if a[0] == b[0] && IsSubsequence(a[1..], b[1..]) {
        SubsequenceNoDuplicates(a[1..], b[1..]);
        forall k | 1 <= k < |a| ensures a[k] != a[0] {
          SubsequenceMembers(a[1..], b[1..], a[k]);
        }
      } else {
        SubsequenceNoDuplicates(a, b[1..]);
      }
    }
  }

  /** `List.Remove`: drops the first occurrence of `x`, if any. */
  function RemoveFirst<T(==)>(s: seq<T>, x: T): (r: seq<T>)
    ensures IsSubsequence(r, s)
    ensures x in s ==> |r| == |s| - 1
    ensures x !in s ==> r == s
  {
    if s == [] then []
    else if s[0] == x then (SubsequenceDrop(s); s[1..])
    else [s[0]] + RemoveFirst(s[1..], x)
  }

  lemma SubsequenceDrop<T>(s: seq<T>)
    requires s != []
    ensures IsSubsequence(s[1..], s)
  {
    SubsequenceReflexive(s[1..]);
  }

  lemma {:induction false} RemoveFirstMembers<T>(s: seq<T>, x: T, y: T)
    requires NoDuplicates(s)
    ensures y in RemoveFirst(s, x) <==> y in s && y != x
    decreases |s|
  {
    if s != [] && s[0] != x {
      RemoveFirstMembers(s[1..], x, y);
    }
  }

  /**
   * A subsequence of a duplicate-free list that keeps exactly the directly
   * declared elements is the filtered list.
   */
  lemma {:induction false} SubsequenceIsKeepDirect(h: Host, t: TypeId, r: seq<TypeId>, s: seq<TypeId>)
    requires t in h && IsSubsequence(r, s) && NoDuplicates(s)
    requires forall x :: x in r <==> x in s && IsDirect(h, t, x)
    ensures r == KeepDirect(h, t, s)
    decreases |s|
  {
    if s != [] {
      SubsequenceNoDuplicates(r, s);
      if IsDirect(h, t, s[0]) {
        assert s[0] in r;
        if r[0] == s[0] && IsSubsequence(r[1..], s[1..]) {
          forall x ensures x in r[1..] <==> x in s[1..] && IsDirect(h, t, x) {
            if x in r[1..] {
              var k :| 0 <= k < |r| - 1 && r[1..][k] == x;
              assert r[k + 1] == x;
              assert x != r[0];
              assert x in r;
              assert x in s;
              assert s == [s[0]] + s[1..];
              assert x in s[1..];
            }
            if x in s[1..] && IsDirect(h, t, x) {
              var k :| 0 <= k < |s| - 1 && s[1..][k] == x;
              assert s[k + 1] == x;
              assert x != s[0];
              assert x in s;
              assert r == [r[0]] + r[1..];
              assert x in r[1..];
            }
          }
          SubsequenceIsKeepDirect(h, t, r[1..], s[1..]);
        } else {
          SubsequenceMembers(r, s[1..], s[0]);
          assert false;
        }
      } else {
        if r != [] {
          assert r[0] != s[0];
          assert IsSubsequence(r, s[1..]);
        }
        forall x ensures x in r <==> x in s[1..] && IsDirect(h, t, x) {
          if x in s[1..] { assert x in s; }
        }
        SubsequenceIsKeepDirect(h, t, r, s[1..]);
      }
    }
  }
}
