/**
 * java.util.LinkedHashSet and java.util.LinkedHashMap as sequences: a set is
 * the sequence of its elements in insertion order, a map the sequence of its
 * entries in the order their keys were first put.
 */
module Ordered {

  predicate NoDuplicates<T(==)>(xs: seq<T>) {
    forall i, j :: 0 <= i < j < |xs| ==> xs[i] != xs[j]
  }

  /** Position of the first occurrence of `x`. */
  function FirstIndex<T(==)>(xs: seq<T>, x: T): (k: nat)
    requires x in xs
    ensures k < |xs| && xs[k] == x
    ensures forall i :: 0 <= i < k ==> xs[i] != x
  {
    if xs[0] == x then 0 else 1 + FirstIndex(xs[1..], x)
  }

  // ---------------------------------------------------------------------
  // LinkedHashSet
  // ---------------------------------------------------------------------

  /** `LinkedHashSet.add`: appended when new, otherwise nothing changes. */
  function Insert<T(==)>(xs: seq<T>, x: T): seq<T> {
    if x in xs then xs else xs + [x]
  }

  /** `add` keeps the set free of duplicates, keeps every element, and adds only `x`. */
  lemma InsertSpec<T>(xs: seq<T>, x: T)
    ensures NoDuplicates(xs) ==> NoDuplicates(Insert(xs, x))
    ensures xs <= Insert(xs, x) && x in Insert(xs, x)
    ensures forall y :: y in Insert(xs, x) <==> y in xs || y == x
  {
  }

  /** The set that `add`ing the elements of `xs` in order builds. */
  function Dedup<T(==)>(xs: seq<T>): seq<T> {
    if xs == [] then [] else Insert(Dedup(xs[..|xs| - 1]), xs[|xs| - 1])
  }

  /** The set holds every element of `xs` exactly once, and nothing else. */
  lemma {:induction false} DedupSpec<T>(xs: seq<T>)
    ensures NoDuplicates(Dedup(xs))
    ensures forall i :: 0 <= i < |Dedup(xs)| ==> Dedup(xs)[i] in xs
    ensures forall i :: 0 <= i < |xs| ==> xs[i] in Dedup(xs)
  {
    if xs != [] {
      var front := xs[..|xs| - 1];
      DedupSpec(front);
      InsertSpec(Dedup(front), xs[|xs| - 1]);
      assert xs == front + [xs[|xs| - 1]];
    }
  }

  lemma FirstIndexOfExtension<T>(xs: seq<T>, x: T, y: T)
    requires y in xs
    ensures FirstIndex(xs + [x], y) == FirstIndex(xs, y)
  {
    var k, k' := FirstIndex(xs, y), FirstIndex(xs + [x], y);
    assert (xs + [x])[k] == y;
    assert k' < |xs| ==> xs[k'] == y;
  }

  /** The set lists its elements in the order of their first occurrence. */
  lemma {:induction false} DedupKeepsFirstOccurrenceOrder<T>(xs: seq<T>, i: nat, j: nat)
    requires i < j < |Dedup(xs)|
    ensures Dedup(xs)[i] in xs && Dedup(xs)[j] in xs
    ensures FirstIndex(xs, Dedup(xs)[i]) < FirstIndex(xs, Dedup(xs)[j])
  {
    DedupSpec(xs);
    var front, x := xs[..|xs| - 1], xs[|xs| - 1];
    assert xs == front + [x];
    var d := Dedup(front);
    DedupSpec(front);
    if x in d {
      DedupKeepsFirstOccurrenceOrder(front, i, j);
      FirstIndexOfExtension(front, x, d[i]);
      FirstIndexOfExtension(front, x, d[j]);
    } else if j < |d| {
      DedupKeepsFirstOccurrenceOrder(front, i, j);
      FirstIndexOfExtension(front, x, d[i]);
      FirstIndexOfExtension(front, x, d[j]);
    } else {
      assert Dedup(xs) == d + [x];
      assert Dedup(xs)[j] == x && x !in front;
      assert i < |d| && d[i] in d;
      FirstIndexOfExtension(front, x, d[i]);
    }
  }

  // ---------------------------------------------------------------------
  // LinkedHashMap
  // ---------------------------------------------------------------------

  function Keys<K, V>(m: seq<(K, V)>): (ks: seq<K>)
    ensures |ks| == |m|
    ensures forall i :: 0 <= i < |m| ==> ks[i] == m[i].0
  {
    if m == [] then [] else Keys(m[..|m| - 1]) + [m[|m| - 1].0]
  }

  /** Position of the entry for `k`, or `|m|` when there is none. */
  function KeyIndex<K(==), V>(m: seq<(K, V)>, k: K): (i: nat)
    ensures i <= |m|
    ensures i < |m| ==> m[i].0 == k
    ensures forall j :: 0 <= j < i ==> m[j].0 != k
  {
    if m == [] then 0 else if m[0].0 == k then 0 else 1 + KeyIndex(m[1..], k)
  }

  /**
   * `LinkedHashMap.put`: a key already present keeps its position and takes
   * the new value; a new key is appended.
   */
  function Put<K(==), V>(m: seq<(K, V)>, k: K, v: V): (r: seq<(K, V)>)
    ensures |m| <= |r| <= |m| + 1
  {
    var i := KeyIndex(m, k);
    if i < |m| then m[i := (k, v)] else m + [(k, v)]
  }

  /** The keys after `put` are the keys before, with `k` added as `add` would. */
  lemma PutKeys<K, V>(m: seq<(K, V)>, k: K, v: V)
    ensures Keys(Put(m, k, v)) == Insert(Keys(m), k)
  {
    var i := KeyIndex(m, k);
    if i < |m| {
      assert k in Keys(m) by { assert Keys(m)[i] == k; }
      assert Keys(m[i := (k, v)]) == Keys(m);
    } else {
      assert Keys(m + [(k, v)]) == Keys(m) + [k];
    }
  }

  /**
   * `put` adds `k` to the keys as `add` would, leaves every other entry
   * where it was, and `k` maps to `v` afterwards.
   */
  lemma PutSpec<K, V>(m: seq<(K, V)>, k: K, v: V)
    ensures Keys(Put(m, k, v)) == Insert(Keys(m), k)
    ensures forall j :: 0 <= j < |m| && m[j].0 != k ==> Put(m, k, v)[j] == m[j]
    ensures NoDuplicates(Keys(m)) ==> forall j :: 0 <= j < |Put(m, k, v)| && Put(m, k, v)[j].0 == k ==> Put(m, k, v)[j].1 == v
    ensures forall j :: |m| <= j < |Put(m, k, v)| ==> Put(m, k, v)[j] == (k, v)
  {
    PutKeys(m, k, v);
    var i := KeyIndex(m, k);
    if i < |m| {
      assert Keys(m)[i] == k;
    }
  }

  /** The map that `put`ting the entries of `es` in order builds. */
  function PutAll<K(==), V>(es: seq<(K, V)>): seq<(K, V)>
  {
    if es == [] then [] else Put(PutAll(es[..|es| - 1]), es[|es| - 1].0, es[|es| - 1].1)
  }

  /** The value the last entry for `k` carries. */
  function LastValue<K(==), V>(es: seq<(K, V)>, k: K): V
    requires k in Keys(es)
  {
    var front := es[..|es| - 1];
    if es[|es| - 1].0 == k then es[|es| - 1].1
    else
      assert k in Keys(front) by {
        var j :| 0 <= j < |es| && Keys(es)[j] == k;
        assert j < |front| && Keys(front)[j] == k;
      }
      LastValue(front, k)
  }

  /**
   * The keys of the built map are the distinct keys of the entries, in order
   * of first appearance.
   */
  lemma {:induction false} PutAllKeys<K, V>(es: seq<(K, V)>)
    ensures Keys(PutAll(es)) == Dedup(Keys(es))
  {
    if es != [] {
      var front := es[..|es| - 1];
      PutAllKeys(front);
      PutSpec(PutAll(front), es[|es| - 1].0, es[|es| - 1].1);
      assert Keys(es)[..|es| - 1] == Keys(front);
    }
  }

  /** Every key of the built map holds the value of the last entry for it. */
  lemma {:induction false} PutAllLastValueWins<K, V>(es: seq<(K, V)>, i: nat)
    requires i < |PutAll(es)|
    ensures PutAll(es)[i].0 in Keys(es)
    ensures PutAll(es)[i].1 == LastValue(es, PutAll(es)[i].0)
  {
    var front, e := es[..|es| - 1], es[|es| - 1];
    var m := PutAll(front);
    assert Keys(es) == Keys(front) + [e.0];
    PutAllKeys(front);
    DedupSpec(Keys(front));
    PutSpec(m, e.0, e.1);
    if PutAll(es)[i].0 != e.0 {
      PutAllLastValueWins(front, i);
      assert PutAll(es)[i] == m[i];
    }
  }

  /** The last value for `k` is carried by an entry for `k`. */
  lemma {:induction false} LastValueEntry<K, V>(es: seq<(K, V)>, k: K)
    requires k in Keys(es)
    ensures (k, LastValue(es, k)) in es
  {
    var front := es[..|es| - 1];
    if es[|es| - 1].0 != k {
      var j :| 0 <= j < |es| && Keys(es)[j] == k;
      assert j < |front| && Keys(front)[j] == k;
      LastValueEntry(front, k);
      var i :| 0 <= i < |front| && front[i] == (k, LastValue(front, k));
      assert es[i] == front[i];
    }
  }
}
