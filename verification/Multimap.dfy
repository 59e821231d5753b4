/** A multimap keyed by distance, as the sequence an in-order walk visits: keys never
    decrease, and a new entry goes after the entries that share its key. */
module Multimap {

  datatype Entry<+V> = Entry(key: nat, val: V)

  ghost predicate Sorted<V>(m: seq<Entry<V>>)
  {
    forall i, j :: 0 <= i < j < |m| ==> m[i].key <= m[j].key
  }

  /** Index of the first entry whose key is at least k. */
  function LowerBound<V>(m: seq<Entry<V>>, k: nat): (n: nat)
    ensures n <= |m|
  {
    if m == [] || k <= m[0].key then 0 else 1 + LowerBound(m[1..], k)
  }

  /** Index of the first entry whose key is above k. */
  function UpperBound<V>(m: seq<Entry<V>>, k: nat): (n: nat)
    ensures n <= |m|
  {
    if m == [] || k < m[0].key then 0 else 1 + UpperBound(m[1..], k)
  }

  function Insert<V>(m: seq<Entry<V>>, e: Entry<V>): (r: seq<Entry<V>>)
  {
    var n := UpperBound(m, e.key);
    m[..n] + [e] + m[n..]
  }

  function Take<V>(m: seq<V>, n: nat): (r: seq<V>)
  {
    if |m| <= n then m else m[..n]
  }

  /** The bounds split a sorted multimap at the entries that share the key. */
  lemma {:induction false} Bounds<V>(m: seq<Entry<V>>, k: nat)
    requires Sorted(m)
    ensures LowerBound(m, k) <= UpperBound(m, k)
    ensures forall i :: 0 <= i < |m| ==> (i < LowerBound(m, k) <==> m[i].key < k)
    ensures forall i :: 0 <= i < |m| ==> (i < UpperBound(m, k) <==> m[i].key <= k)
  {
    if m == [] {
    } else {
      Bounds(m[1..], k);
      assert forall i :: 0 < i < |m| ==> m[i] == m[1..][i - 1];
    }
  }

  lemma InsertSorted<V>(m: seq<Entry<V>>, e: Entry<V>)
    requires Sorted(m)
    ensures Sorted(Insert(m, e))
  {
    Bounds(m, e.key);
  }

  lemma InsertContents<V>(m: seq<Entry<V>>, e: Entry<V>)
    ensures multiset(Insert(m, e)) == multiset(m) + multiset{e}
    ensures |Insert(m, e)| == |m| + 1
  {
    var n := UpperBound(m, e.key);
    assert m == m[..n] + m[n..];
  }

  lemma InsertMembers<V>(m: seq<Entry<V>>, e: Entry<V>, x: Entry<V>)
    ensures x in Insert(m, e) <==> x in m || x == e
  {
    var n := UpperBound(m, e.key);
    assert m == m[..n] + m[n..];
  }

  function InsertAll<V>(m: seq<Entry<V>>, es: seq<Entry<V>>): (r: seq<Entry<V>>)
  {
    if es == [] then m else Insert(InsertAll(m, es[..|es| - 1]), es[|es| - 1])
  }

  lemma LastContents<T>(s: seq<T>)
    requires s != []
    ensures multiset(s) == multiset(s[..|s| - 1]) + multiset{s[|s| - 1]}
  {
    assert s == s[..|s| - 1] + [s[|s| - 1]];
  }

  lemma {:induction false} InsertAllKeeps<V>(m: seq<Entry<V>>, es: seq<Entry<V>>)
    requires Sorted(m)
    ensures Sorted(InsertAll(m, es))
    ensures multiset(InsertAll(m, es)) == multiset(m) + multiset(es)
    ensures |InsertAll(m, es)| == |m| + |es|
  {
    if es == [] {
    } else {
      var before, e := es[..|es| - 1], es[|es| - 1];
      InsertAllKeeps(m, before);
      InsertSorted(InsertAll(m, before), e);
      InsertContents(InsertAll(m, before), e);
      LastContents(es);
    }
  }

  lemma InsertLast<V>(m: seq<Entry<V>>, e: Entry<V>)
    requires Sorted(m) && forall i :: 0 <= i < |m| ==> m[i].key <= e.key
    ensures Insert(m, e) == m + [e]
  {
    Bounds(m, e.key);
  }

  /** Inserting entries that are already in order appends them. */
  lemma {:induction false} InsertAllSorted<V>(es: seq<Entry<V>>)
    requires Sorted(es)
    ensures InsertAll([], es) == es
  {
    if es == [] {
    } else {
      var before, e := es[..|es| - 1], es[|es| - 1];
      InsertAllSorted(before);
      InsertLast(before, e);
      assert es == before + [e];
    }
  }
}
