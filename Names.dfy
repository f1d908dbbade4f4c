/**
 * Names of documentation elements and the order `string.CompareTo` puts
 * them in. Culture-sensitive comparison is abstracted to the ordinal
 * (lexicographic, character by character) order, which is a total order.
 */
module Names {

  /** `a` sorts at or before `b`. */
  predicate NameLe(a: string, b: string)
    decreases |a|
  {
    if a == [] then true
    else if b == [] then false
    else if a[0] != b[0] then a[0] < b[0]
    else NameLe(a[1..], b[1..])
  }

  lemma {:induction false} NameLeReflexive(a: string)
    ensures NameLe(a, a)
    decreases |a|
  {
    if a != [] { NameLeReflexive(a[1..]); }
  }

  lemma {:induction false} NameLeTotal(a: string, b: string)
    ensures NameLe(a, b) || NameLe(b, a)
    decreases |a|
  {
    if a != [] && b != [] && a[0] == b[0] { NameLeTotal(a[1..], b[1..]); }
  }

  lemma {:induction false} NameLeTransitive(a: string, b: string, c: string)
    requires NameLe(a, b) && NameLe(b, c)
    ensures NameLe(a, c)
    decreases |a|
  {
    if a != [] && b != [] && c != [] && a[0] == b[0] && b[0] == c[0] {
      NameLeTransitive(a[1..], b[1..], c[1..]);
    }
  }

  lemma {:induction false} NameLeAntisymmetric(a: string, b: string)
    requires NameLe(a, b) && NameLe(b, a)
    ensures a == b
    decreases |a|
  {
    if a != [] && b != [] {
      NameLeAntisymmetric(a[1..], b[1..]);
      assert a == [a[0]] + a[1..] && b == [b[0]] + b[1..];
    }
  }

  /** `ids` is ordered by the names `name` gives its elements. */
  ghost predicate SortedByName<K>(ids: seq<K>, name: map<K, string>)
  {
    && (forall k :: k in ids ==> k in name)
    && forall i, j :: 0 <= i < j < |ids| ==> NameLe(name[ids[i]], name[ids[j]])
  }

  /**
   * `List.Sort` with the comparison `(x, y) => x.Name.CompareTo(y.Name)`,
   * over a sequence instead of a list: the result is ordered by name and a
   * permutation of the input. The source's sort is not stable, so nothing is
   * promised about the relative order of elements with equal names.
   */
  method SortByName<K>(ids: seq<K>, name: map<K, string>) returns (r: seq<K>)
    requires forall k :: k in ids ==> k in name
    ensures SortedByName(r, name)
    ensures multiset(r) == multiset(ids)
  {
    r := [];
    for i := 0 to |ids|
      invariant SortedByName(r, name)
      invariant multiset(r) == multiset(ids[..i])
    {
      r := Insert(r, ids[i], name);
      assert ids[..i + 1] == ids[..i] + [ids[i]];
    }
    assert ids[..|ids|] == ids;
  }

  /** Inserts `x` after every element whose name sorts at or before its own. */
  method Insert<K>(s: seq<K>, x: K, name: map<K, string>) returns (r: seq<K>)
    requires SortedByName(s, name) && x in name
    ensures SortedByName(r, name)
    ensures multiset(r) == multiset(s) + multiset{x}
  {
    var j := 0;
    while j < |s| && NameLe(name[s[j]], name[x])
      invariant 0 <= j <= |s|
      invariant forall k :: 0 <= k < j ==> NameLe(name[s[k]], name[x])
    {
      j := j + 1;
    }
    r := s[..j] + [x] + s[j..];
    if j < |s| {
      NameLeTotal(name[s[j]], name[x]);
      forall k | j <= k < |s| ensures NameLe(name[x], name[s[k]]) {
        if k > j { NameLeTransitive(name[x], name[s[j]], name[s[k]]); }
      }
    }
    forall p, q | 0 <= p < q < |r| ensures NameLe(name[r[p]], name[r[q]]) {
      if p < j && q == j {
      } else if p < j && q > j {
        assert r[q] == s[q - 1];
        if j < |s| { NameLeTransitive(name[s[p]], name[x], name[s[q - 1]]); }
      } else if p == j {
        assert r[q] == s[q - 1];
      } else if p > j {
        assert r[p] == s[p - 1] && r[q] == s[q - 1];
      }
    }
    assert s == s[..j] + s[j..];
  }
}
