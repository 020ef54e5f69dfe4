/**
 * The order in which the nested loops `for i … for j = i + 1 …` of
 * src/utils/forces.ts and the nested `forEach … if (i >= j) return` of
 * src/App.tsx visit index pairs: every pair i < j, lexicographically.
 */
module Pairs {
  type Pair = (nat, nat)

  /** The pairs (i, lo), (i, lo + 1), …, (i, hi - 1). */
  function PairRow(i: nat, lo: nat, hi: nat): (r: seq<Pair>)
    ensures |r| == if lo <= hi then hi - lo else 0
    ensures forall k :: 0 <= k < |r| ==> r[k] == (i, lo + k)
  {
    if hi <= lo then [] else PairRow(i, lo, hi - 1) + [(i, hi - 1)]
  }

  /** The rows 0 .. i - 1 of the visit order over n items. */
  function PairRows(n: nat, i: nat): seq<Pair>
  {
    if i == 0 then [] else PairRows(n, i - 1) + PairRow(i - 1, i, n)
  }

  /** The whole visit order over n items. */
  function PairOrder(n: nat): seq<Pair>
  {
    PairRows(n, n)
  }

  /** Strict lexicographic order on pairs. */
  predicate LexLess(p: Pair, q: Pair) {
    p.0 < q.0 || (p.0 == q.0 && p.1 < q.1)
  }

  predicate Ascending(s: seq<Pair>) {
    forall a, b :: 0 <= a < b < |s| ==> LexLess(s[a], s[b])
  }

  /** Twice the number of pairs in the first i rows over n items. */
  lemma {:induction false} PairRowsLength(n: nat, i: nat)
    requires i <= n
    ensures 2 * |PairRows(n, i)| == 2 * i * n - i * (i + 1)
  {
    if i > 0 {
      PairRowsLength(n, i - 1);
      assert |PairRows(n, i)| == |PairRows(n, i - 1)| + (n - i);
      RowsArithmetic(n, i);
    }
  }

  /** The step of the closed form: the rows before i plus row i - 1 of n - i pairs. */
  lemma RowsArithmetic(n: int, i: int)
    ensures 2 * (i - 1) * n - (i - 1) * i + 2 * (n - i) == 2 * i * n - i * (i + 1)
  {
    assert 2 * (i - 1) * n == 2 * i * n - 2 * n;
    assert (i - 1) * i == i * i - i;
    assert i * (i + 1) == i * i + i;
  }

  /** The pairs of the first i rows are i' < j < n with i' < i, ascending. */
  lemma {:induction false} PairRowsShape(n: nat, i: nat)
    requires i <= n
    ensures forall k :: 0 <= k < |PairRows(n, i)| ==>
      PairRows(n, i)[k].0 < i && PairRows(n, i)[k].0 < PairRows(n, i)[k].1 < n
    ensures Ascending(PairRows(n, i))
  {
    if i > 0 {
      PairRowsShape(n, i - 1);
    }
  }

  /** Every pair a < b < n with a < i is among the first i rows. */
  lemma {:induction false} PairRowsComplete(n: nat, i: nat)
    requires i <= n
    ensures forall a: nat, b: nat :: a < i && a < b < n ==> (a, b) in PairRows(n, i)
  {
    if i > 0 {
      PairRowsComplete(n, i - 1);
      var prev, row := PairRows(n, i - 1), PairRow(i - 1, i, n);
      assert PairRows(n, i) == prev + row;
      forall a: nat, b: nat | a < i && a < b < n ensures (a, b) in PairRows(n, i) {
        if a < i - 1 {
          assert (a, b) in prev;
        } else {
          assert row[b - i] == (a, b);
        }
      }
    }
  }

  /**
   * The visit order over n items holds n (n - 1) / 2 pairs, each i < j < n,
   * in strictly ascending lexicographic order (so each pair at most once), and
   * every pair i < j < n occurs in it.
   */
  lemma PairOrderSpec(n: nat)
    ensures |PairOrder(n)| == n * (n - 1) / 2
    ensures forall k :: 0 <= k < |PairOrder(n)| ==> PairOrder(n)[k].0 < PairOrder(n)[k].1 < n
    ensures Ascending(PairOrder(n))
    ensures forall a: nat, b: nat :: a < b < n ==> (a, b) in PairOrder(n)
  {
    PairRowsLength(n, n);
    PairRowsShape(n, n);
    PairRowsComplete(n, n);
    assert 2 * n * n - n * (n + 1) == n * (n - 1);
  }
}
