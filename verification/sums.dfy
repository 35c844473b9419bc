/**
 * Sums of an amount over a sequence of rows, and the group-by sums of
 * pandas (`groupby(key)[amount].sum()`): the sum at one key, and the
 * conservation law that the group totals over a covering list of distinct
 * keys add up to the plain total.
 */
module Sums {

  /** The sum of `f` over all rows. */
  function Sum<T>(xs: seq<T>, f: T -> real): real
  {
    if |xs| == 0 then 0.0 else f(xs[0]) + Sum(xs[1..], f)
  }

  /** The sum of `f` over the rows whose key is `k`: one group of a group-by. */
  function SumAt<T, K(==)>(xs: seq<T>, key: T -> K, f: T -> real, k: K): real
  {
    if |xs| == 0 then 0.0
    else (if key(xs[0]) == k then f(xs[0]) else 0.0) + SumAt(xs[1..], key, f, k)
  }

  /** The sum of `f` over the rows whose key lies in `ks`. */
  function SumIn<T, K(==)>(xs: seq<T>, key: T -> K, f: T -> real, ks: set<K>): real
  {
    if |xs| == 0 then 0.0
    else (if key(xs[0]) in ks then f(xs[0]) else 0.0) + SumIn(xs[1..], key, f, ks)
  }

  /** The group totals added up over the list of keys `ks`. */
  function SumOver<T, K(==)>(xs: seq<T>, key: T -> K, f: T -> real, ks: seq<K>): real
  {
    if |ks| == 0 then 0.0 else SumAt(xs, key, f, ks[0]) + SumOver(xs, key, f, ks[1..])
  }

  ghost predicate Distinct<K>(ks: seq<K>) {
    forall i, j :: 0 <= i < j < |ks| ==> ks[i] != ks[j]
  }

  lemma {:induction false} SumAppend<T>(a: seq<T>, b: seq<T>, f: T -> real)
    ensures Sum(a + b, f) == Sum(a, f) + Sum(b, f)
    decreases |a|
  {
    if |a| > 0 {
      assert (a + b)[1..] == a[1..] + b;
      SumAppend(a[1..], b, f);
    } else {
      assert a + b == b;
    }
  }

  /** Reordering the rows does not change their sum. */
  lemma {:induction false} SumPermutation<T>(a: seq<T>, b: seq<T>, f: T -> real)
    requires multiset(a) == multiset(b)
    ensures Sum(a, f) == Sum(b, f)
    decreases |a|
  {
    if |a| == 0 {
      assert |multiset(b)| == |b|;
    } else {
      var x := a[0];
      assert x in multiset(a);
      var i :| 0 <= i < |b| && b[i] == x;
      var rest := b[..i] + b[i + 1..];
      assert b == b[..i] + [x] + b[i + 1..];
      SumAppend(b[..i] + [x], b[i + 1..], f);
      SumAppend(b[..i], [x], f);
      SumAppend(b[..i], b[i + 1..], f);
      assert a == [x] + a[1..];
      assert multiset(b) == multiset(b[..i]) + multiset([x]) + multiset(b[i + 1..]);
      assert multiset(rest) == multiset(b[..i]) + multiset(b[i + 1..]);
      assert multiset(a) == multiset([x]) + multiset(a[1..]);
      assert multiset(a[1..]) == multiset(a) - multiset{x};
      assert multiset(rest) == multiset(b) - multiset{x};
      SumPermutation(a[1..], rest, f);
    }
  }

  lemma {:induction false} SumInAddKey<T, K>(xs: seq<T>, key: T -> K, f: T -> real, ks: set<K>, k: K)
    requires k !in ks
    ensures SumIn(xs, key, f, ks + {k}) == SumIn(xs, key, f, ks) + SumAt(xs, key, f, k)
    decreases |xs|
  {
    if |xs| > 0 {
      SumInAddKey(xs[1..], key, f, ks, k);
    }
  }

  lemma {:induction false} SumInCovering<T, K>(xs: seq<T>, key: T -> K, f: T -> real, ks: set<K>)
    requires forall x :: x in xs ==> key(x) in ks
    ensures SumIn(xs, key, f, ks) == Sum(xs, f)
    decreases |xs|
  {
    if |xs| > 0 {
      assert xs[0] in xs;
      SumInCovering(xs[1..], key, f, ks);
    }
  }

  lemma {:induction false} SumOverIsSumIn<T, K>(xs: seq<T>, key: T -> K, f: T -> real, ks: seq<K>)
    requires Distinct(ks)
    ensures SumOver(xs, key, f, ks) == SumIn(xs, key, f, set k | k in ks)
    decreases |ks|
  {
    if |ks| == 0 {
      assert (set k | k in ks) == {};
      SumInNone(xs, key, f);
    } else {
      var rest := set k | k in ks[1..];
      assert ks[0] !in rest by {
        forall j | 0 <= j < |ks[1..]| ensures ks[1..][j] != ks[0] {
          assert ks[1..][j] == ks[j + 1];
        }
      }
      assert (set k | k in ks) == rest + {ks[0]} by {
        assert ks == [ks[0]] + ks[1..];
      }
      SumOverIsSumIn(xs, key, f, ks[1..]);
      SumInAddKey(xs, key, f, rest, ks[0]);
    }
  }

  lemma {:induction false} SumInNone<T, K>(xs: seq<T>, key: T -> K, f: T -> real)
    ensures SumIn(xs, key, f, {}) == 0.0
    decreases |xs|
  {
    if |xs| > 0 {
      SumInNone(xs[1..], key, f);
    }
  }

  /**
   * Conservation through a group-by: adding up the group totals over a list
   * of distinct keys that covers every row's key gives the plain total, so
   * grouping neither loses nor duplicates a row.
   */
  lemma Conservation<T, K>(xs: seq<T>, key: T -> K, f: T -> real, ks: seq<K>)
    requires Distinct(ks)
    requires forall x :: x in xs ==> key(x) in ks
    ensures SumOver(xs, key, f, ks) == Sum(xs, f)
  {
    SumOverIsSumIn(xs, key, f, ks);
    SumInCovering(xs, key, f, set k | k in ks);
  }

  /** A group with no rows sums to 0: the 0 that fills the missing side of an outer join. */
  lemma {:induction false} SumAtAbsent<T, K>(xs: seq<T>, key: T -> K, f: T -> real, k: K)
    requires forall x :: x in xs ==> key(x) != k
    ensures SumAt(xs, key, f, k) == 0.0
    decreases |xs|
  {
    if |xs| > 0 {
      assert xs[0] in xs;
      SumAtAbsent(xs[1..], key, f, k);
    }
  }

  /**
   * Summing over the rows whose key lies in `ks` is summing one coarser
   * group, when a row's key lies in `ks` exactly when its coarser group is `p`.
   */
  lemma {:induction false} SumInIsSumAt<T, K, L>(xs: seq<T>, key: T -> K, f: T -> real, ks: set<K>, group: T -> L, p: L)
    requires forall x :: x in xs ==> (key(x) in ks <==> group(x) == p)
    ensures SumIn(xs, key, f, ks) == SumAt(xs, group, f, p)
    decreases |xs|
  {
    if |xs| > 0 {
      assert xs[0] in xs;
      SumInIsSumAt(xs[1..], key, f, ks, group, p);
    }
  }
}
