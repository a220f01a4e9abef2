/**
 * The `d.setdefault(k, []).append(v)` idiom the scripts use to group rows:
 * a Python dict keeps its keys in first-insertion order, and each key's list
 * keeps its values in the order they were appended.
 */
module Grouping {

  /** The keys of the dict, in the order they were first inserted. */
  function KeyOrder<K(==), V>(es: seq<(K, V)>): seq<K> {
    if es == [] then []
    else
      var ks := KeyOrder(es[..|es| - 1]);
      var k := es[|es| - 1].0;
      if k in ks then ks else ks + [k]
  }

  /** The list stored under `k`: the values appended for `k`, in order. */
  function ValuesOf<K(==), V>(es: seq<(K, V)>, k: K): seq<V> {
    if es == [] then []
    else
      var last := es[|es| - 1];
      ValuesOf(es[..|es| - 1], k) + (if last.0 == k then [last.1] else [])
  }

  predicate Distinct<K(==)>(ks: seq<K>) {
    forall i, j :: 0 <= i < j < |ks| ==> ks[i] != ks[j]
  }

  /** A key is listed exactly when some value was appended under it, and only once. */
  lemma {:induction false} KeyOrderFacts<K, V>(es: seq<(K, V)>)
    ensures Distinct(KeyOrder(es))
    ensures forall k :: k in KeyOrder(es) <==> ValuesOf(es, k) != []
  {
    if es != [] {
      var init := es[..|es| - 1];
      KeyOrderFacts(init);
      var last := es[|es| - 1];
      forall k ensures k in KeyOrder(es) <==> ValuesOf(es, k) != [] {
        assert ValuesOf(es, k) == ValuesOf(init, k) + (if last.0 == k then [last.1] else []);
      }
    }
  }

  /** Builds the dict entry by entry, as the scripts' loops do. */
  method Group<K(==), V>(es: seq<(K, V)>) returns (keys: seq<K>, groups: map<K, seq<V>>)
    ensures keys == KeyOrder(es)
    ensures groups.Keys == set k | k in keys
    ensures forall k :: k in groups ==> groups[k] == ValuesOf(es, k)
  {
    keys, groups := [], map[];
    for i := 0 to |es|
      invariant keys == KeyOrder(es[..i])
      invariant groups.Keys == set k | k in keys
      invariant forall k :: k in groups ==> groups[k] == ValuesOf(es[..i], k)
    {
      var (k, v) := es[i];
      assert es[..i + 1][..i] == es[..i];
      KeyOrderFacts(es[..i]);
      if k in groups {
        groups := groups[k := groups[k] + [v]];
      } else {
        keys := keys + [k];
        groups := groups[k := [v]];
      }
    }
    assert es[..|es|] == es;
  }

  /** How many entries have a key satisfying `p`. */
  function CountWhere<K, V>(es: seq<(K, V)>, p: K -> bool): nat {
    if es == [] then 0
    else CountWhere(es[..|es| - 1], p) + (if p(es[|es| - 1].0) then 1 else 0)
  }

  /** The total length of the lists stored under the keys `ks` that satisfy `p`. */
  function SizesWhere<K(==), V>(ks: seq<K>, es: seq<(K, V)>, p: K -> bool): nat {
    if ks == [] then 0
    else (if p(ks[0]) then |ValuesOf(es, ks[0])| else 0) + SizesWhere(ks[1..], es, p)
  }

  function Occurrences<K(==)>(ks: seq<K>, k: K): nat {
    if ks == [] then 0 else (if ks[0] == k then 1 else 0) + Occurrences(ks[1..], k)
  }

  lemma {:induction false} OccurrencesDistinct<K>(ks: seq<K>, k: K)
    requires Distinct(ks)
    ensures Occurrences(ks, k) == if k in ks then 1 else 0
  {
    if ks != [] {
      OccurrencesDistinct(ks[1..], k);
      assert k in ks <==> ks[0] == k || k in ks[1..];
    }
  }

  lemma {:induction false} SizesWhereExtend<K, V>(ks: seq<K>, es: seq<(K, V)>, e: (K, V), p: K -> bool)
    ensures SizesWhere(ks, es + [e], p) == SizesWhere(ks, es, p) + (if p(e.0) then Occurrences(ks, e.0) else 0)
  {
    if ks != [] {
      SizesWhereExtend(ks[1..], es, e, p);
      assert (es + [e])[..|es + [e]| - 1] == es;
    }
  }

  lemma {:induction false} SizesWhereAppendKey<K, V>(ks: seq<K>, k: K, es: seq<(K, V)>, p: K -> bool)
    ensures SizesWhere(ks + [k], es, p) == SizesWhere(ks, es, p) + (if p(k) then |ValuesOf(es, k)| else 0)
  {
    if ks == [] {
      assert ks + [k] == [k];
    } else {
      assert (ks + [k])[1..] == ks[1..] + [k];
      SizesWhereAppendKey(ks[1..], k, es, p);
    }
  }

  /** Every entry lands in exactly one group: the group sizes add up to the entries. */
  lemma {:induction false} GroupSizesAddUp<K, V>(es: seq<(K, V)>, p: K -> bool)
    ensures SizesWhere(KeyOrder(es), es, p) == CountWhere(es, p)
  {
    if es != [] {
      var init, e := es[..|es| - 1], es[|es| - 1];
      assert es == init + [e];
      GroupSizesAddUp(init, p);
      KeyOrderFacts(init);
      var ks := KeyOrder(init);
      OccurrencesDistinct(ks, e.0);
      SizesWhereExtend(ks, init, e, p);
      if e.0 !in ks {
        SizesWhereAppendKey(ks, e.0, es, p);
      }
    }
  }

  /** No two elements share a key. */
  predicate DistinctBy<T, K(==)>(s: seq<T>, key: T -> K) {
    forall i, j :: 0 <= i < j < |s| ==> key(s[i]) != key(s[j])
  }

  /** Rearranging elements whose keys are distinct keeps them distinct. */
  lemma PermutationDistinctBy<T, K>(s: seq<T>, t: seq<T>, key: T -> K)
    requires multiset(t) == multiset(s)
    requires DistinctBy(s, key)
    ensures DistinctBy(t, key)
  {
    forall i, j | 0 <= i < j < |t| ensures key(t[i]) != key(t[j]) {
      assert t[i] in multiset(s) && t[j] in multiset(s);
      var a :| 0 <= a < |s| && s[a] == t[i];
      var b :| 0 <= b < |s| && s[b] == t[j];
      if a == b {
        TwiceIn(t, i, j);
        MultiplicityDistinctBy(s, t[i], key);
      }
    }
  }

  lemma TwiceIn<T>(s: seq<T>, i: nat, j: nat)
    requires 0 <= i < j < |s| && s[i] == s[j]
    ensures multiset(s)[s[i]] >= 2
  {
    var x := s[i];
    assert s == s[..i] + [x] + s[i + 1..j] + [x] + s[j + 1..];
  }

  lemma {:induction false} MultiplicityDistinctBy<T, K>(s: seq<T>, x: T, key: T -> K)
    requires DistinctBy(s, key)
    ensures multiset(s)[x] <= 1
  {
    if s != [] {
      assert s == [s[0]] + s[1..];
      MultiplicityDistinctBy(s[1..], x, key);
      if s[0] == x {
        assert x !in s[1..];
      }
    }
  }
}
