/**
 * Generic counting over finite sequences: duplicate-free key lists (what a
 * JavaScript `Set` enumerates), occurrence counts of a key, and the laws that
 * make a count table conserve the number of counted items.
 */
module Counting {

  /** No element of `s` occurs twice. */
  predicate NoDup<K(==)>(s: seq<K>) {
    forall i, j :: 0 <= i < j < |s| ==> s[i] != s[j]
  }

  /**
   * The elements of `s`, each once, in order of first occurrence: the
   * enumeration order of `new Set(s)`.
   */
  function Distinct<K(==,!new)>(s: seq<K>): (r: seq<K>)
    ensures NoDup(r)
    ensures forall x :: x in r <==> x in s
    ensures |r| <= |s|
  {
    if |s| == 0 then []
    else
      var d := Distinct(s[..|s| - 1]);
      assert s == s[..|s| - 1] + [s[|s| - 1]];
      if s[|s| - 1] in d then d else d + [s[|s| - 1]]
  }

  /** The number of items of `fs` whose key is `k`. */
  function Occurrences<F, K(==)>(fs: seq<F>, key: F -> K, k: K): (n: nat)
    ensures n <= |fs|
  {
    if |fs| == 0 then 0
    else Occurrences(fs[..|fs| - 1], key, k) + if key(fs[|fs| - 1]) == k then 1 else 0
  }

  /** A key occurs exactly when some item carries it. */
  lemma {:induction false} OccurrencesPositive<F, K>(fs: seq<F>, key: F -> K, k: K)
    ensures Occurrences(fs, key, k) > 0 <==> exists i :: 0 <= i < |fs| && key(fs[i]) == k
    decreases |fs|
  {
    if |fs| > 0 {
      var n := |fs| - 1;
      OccurrencesPositive(fs[..n], key, k);
      assert forall i :: 0 <= i < n ==> fs[..n][i] == fs[i];
    }
  }

  /** The sum, over the keys of `ks`, of their occurrences in `fs`. */
  function SumOccurrences<F, K(==)>(ks: seq<K>, fs: seq<F>, key: F -> K): nat
  {
    if |ks| == 0 then 0
    else SumOccurrences(ks[..|ks| - 1], fs, key) + Occurrences(fs, key, ks[|ks| - 1])
  }

  /** The number of items of `fs` whose key is one of `ks`. */
  function CountIn<F, K(==)>(fs: seq<F>, key: F -> K, ks: seq<K>): nat
  {
    if |fs| == 0 then 0
    else CountIn(fs[..|fs| - 1], key, ks) + if key(fs[|fs| - 1]) in ks then 1 else 0
  }

  /** Counting a concatenation counts each part. */
  lemma {:induction false} OccurrencesAppend<F, K>(a: seq<F>, b: seq<F>, key: F -> K, k: K)
    ensures Occurrences(a + b, key, k) == Occurrences(a, key, k) + Occurrences(b, key, k)
    decreases |b|
  {
    if |b| == 0 {
      assert a + b == a;
    } else {
      assert (a + b)[..|a + b| - 1] == a + b[..|b| - 1];
      OccurrencesAppend(a, b[..|b| - 1], key, k);
    }
  }

  /** Taking out the item at `j` takes it out of the multiset. */
  lemma MultisetRemoveAt<F>(gs: seq<F>, j: nat)
    requires j < |gs|
    ensures multiset(gs) == multiset(gs[..j] + gs[j + 1..]) + multiset{gs[j]}
  {
    assert gs[..j + 1] == gs[..j] + [gs[j]];
    assert gs == gs[..j + 1] + gs[j + 1..];
  }

  /** Taking out the item at `j` takes it out of the count. */
  lemma {:induction false} OccurrencesRemoveAt<F, K>(gs: seq<F>, j: nat, key: F -> K, k: K)
    requires j < |gs|
    ensures Occurrences(gs, key, k) ==
            Occurrences(gs[..j] + gs[j + 1..], key, k) + if key(gs[j]) == k then 1 else 0
    decreases |gs|
  {
    var n := |gs| - 1;
    if j == n {
      assert gs[..j] + gs[j + 1..] == gs[..n];
    } else {
      var rest := gs[..j] + gs[j + 1..];
      assert rest[..|rest| - 1] == gs[..n][..j] + gs[..n][j + 1..];
      assert rest[|rest| - 1] == gs[n];
      OccurrencesRemoveAt(gs[..n], j, key, k);
    }
  }

  /** Occurrence counts do not depend on the order of the items. */
  lemma {:induction false} OccurrencesPermutation<F, K>(fs: seq<F>, gs: seq<F>, key: F -> K, k: K)
    requires multiset(fs) == multiset(gs)
    ensures Occurrences(fs, key, k) == Occurrences(gs, key, k)
    decreases |fs|
  {
    if |fs| == 0 {
      assert |gs| == |multiset(gs)| == 0;
    } else {
      var n := |fs| - 1;
      var x := fs[n];
      assert fs == fs[..n] + [x];
      assert multiset(fs) == multiset(fs[..n]) + multiset{x};
      assert x in multiset(gs);
      var j :| 0 <= j < |gs| && gs[j] == x;
      MultisetRemoveAt(gs, j);
      OccurrencesRemoveAt(gs, j, key, k);
      var rest := gs[..j] + gs[j + 1..];
      assert multiset(fs[..n]) == multiset(rest) by {
        assert multiset(fs[..n]) == multiset(fs) - multiset{x};
        assert multiset(rest) == multiset(gs) - multiset{x};
      }
      OccurrencesPermutation(fs[..n], rest, key, k);
    }
  }

  /** With no keys to look for, nothing is counted. */
  lemma {:induction false} CountInNone<F, K>(fs: seq<F>, key: F -> K)
    ensures CountIn(fs, key, []) == 0
    decreases |fs|
  {
    if |fs| > 0 {
      CountInNone(fs[..|fs| - 1], key);
    }
  }

  /** Adding a new key to look for adds that key's occurrences. */
  lemma {:induction false} CountInExtend<F, K>(fs: seq<F>, key: F -> K, ks: seq<K>, k: K)
    requires k !in ks
    ensures CountIn(fs, key, ks + [k]) == CountIn(fs, key, ks) + Occurrences(fs, key, k)
    decreases |fs|
  {
    if |fs| > 0 {
      CountInExtend(fs[..|fs| - 1], key, ks, k);
    }
  }

  /** When every item's key is among `ks`, every item is counted. */
  lemma {:induction false} CountInAll<F, K>(fs: seq<F>, key: F -> K, ks: seq<K>)
    requires forall i :: 0 <= i < |fs| ==> key(fs[i]) in ks
    ensures CountIn(fs, key, ks) == |fs|
    decreases |fs|
  {
    if |fs| > 0 {
      CountInAll(fs[..|fs| - 1], key, ks);
    }
  }

  /** Summing the counts of distinct keys counts every item whose key is among them, once. */
  lemma {:induction false} SumOfDistinctKeys<F, K>(ks: seq<K>, fs: seq<F>, key: F -> K)
    requires NoDup(ks)
    ensures SumOccurrences(ks, fs, key) == CountIn(fs, key, ks)
    decreases |ks|
  {
    if |ks| == 0 {
      CountInNone(fs, key);
    } else {
      var n := |ks| - 1;
      assert ks == ks[..n] + [ks[n]];
      SumOfDistinctKeys(ks[..n], fs, key);
      CountInExtend(fs, key, ks[..n], ks[n]);
    }
  }

  /**
   * Count conservation: over a duplicate-free key universe that holds every
   * item's key, the counts add up to the number of items.
   */
  lemma SumOverUniverse<F, K>(ks: seq<K>, fs: seq<F>, key: F -> K)
    requires NoDup(ks)
    requires forall i :: 0 <= i < |fs| ==> key(fs[i]) in ks
    ensures SumOccurrences(ks, fs, key) == |fs|
  {
    SumOfDistinctKeys(ks, fs, key);
    CountInAll(fs, key, ks);
  }

  /** A duplicate-free sequence has as many elements as its set. */
  lemma {:induction false} NoDupCardinality<K>(s: seq<K>)
    requires NoDup(s)
    ensures |set x | x in s| == |s|
    decreases |s|
  {
    if |s| > 0 {
      var n := |s| - 1;
      assert s == s[..n] + [s[n]];
      NoDupCardinality(s[..n]);
      assert (set x | x in s) == (set x | x in s[..n]) + {s[n]};
    }
  }
}
