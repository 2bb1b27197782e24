/** The order in which the exhaustive collision pass visits index pairs: row by
    row, every (i, j) with i < j, in lexicographic order. */
module Pairs {

  type Pair = (nat, nat)

  /** The pairs (i, j), (i, j + 1), ..., (i, n - 1): what the inner loop still
      visits for row `i` once it has reached column `j`. */
  function Row(i: nat, j: nat, n: nat): (row: seq<Pair>)
    decreases n - j
  {
    if j < n then [(i, j)] + Row(i, j + 1, n) else []
  }

  /** The pairs of rows i, i + 1, ..., n - 1: what the outer loop still visits
      once it has reached row `i`. */
  function PairsFrom(i: nat, n: nat): (ps: seq<Pair>)
    decreases n - i
  {
    if i < n then Row(i, i + 1, n) + PairsFrom(i + 1, n) else []
  }

  /** Every pair the exhaustive pass over `n` particles visits, in order. */
  function AllPairs(n: nat): (ps: seq<Pair>) {
    PairsFrom(0, n)
  }

  predicate LexLess(p: Pair, q: Pair): (less: bool) {
    p.0 < q.0 || (p.0 == q.0 && p.1 < q.1)
  }

  predicate StrictlySorted(ps: seq<Pair>): (sorted: bool) {
    forall a, b :: 0 <= a < b < |ps| ==> LexLess(ps[a], ps[b])
  }

  lemma {:induction false} RowMembers(i: nat, j: nat, n: nat)
    ensures forall p :: p in Row(i, j, n) <==> p.0 == i && j <= p.1 < n
    ensures |Row(i, j, n)| == if j < n then n - j else 0
    decreases n - j
  {
    if j < n {
      RowMembers(i, j + 1, n);
    }
  }

  lemma {:induction false} RowSorted(i: nat, j: nat, n: nat)
    ensures StrictlySorted(Row(i, j, n))
    decreases n - j
  {
    if j < n {
      RowSorted(i, j + 1, n);
      RowMembers(i, j + 1, n);
      var r := Row(i, j, n);
      forall a, b | 0 <= a < b < |r| ensures LexLess(r[a], r[b]) {
        if a > 0 {
          assert r[a] == Row(i, j + 1, n)[a - 1] && r[b] == Row(i, j + 1, n)[b - 1];
        } else {
          assert r[b] in Row(i, j + 1, n);
        }
      }
    }
  }

  /** A row grows at its end as the inner loop's bound grows. */
  lemma {:induction false} RowSnoc(i: nat, j: nat, m: nat)
    requires j <= m
    ensures Row(i, j, m + 1) == Row(i, j, m) + [(i, m)]
    decreases m - j
  {
    if j < m {
      RowSnoc(i, j + 1, m);
    }
  }

  /** Two strictly sorted runs joined, every element of the first below every
      element of the second, stay strictly sorted. */
  lemma ConcatSorted(xs: seq<Pair>, ys: seq<Pair>)
    requires StrictlySorted(xs) && StrictlySorted(ys)
    requires forall p, q :: p in xs && q in ys ==> LexLess(p, q)
    ensures StrictlySorted(xs + ys)
  {
    var zs := xs + ys;
    forall a, b | 0 <= a < b < |zs| ensures LexLess(zs[a], zs[b]) {
      if b < |xs| {
        assert zs[a] == xs[a] && zs[b] == xs[b];
      } else if a >= |xs| {
        assert zs[a] == ys[a - |xs|] && zs[b] == ys[b - |xs|];
      } else {
        assert zs[a] in xs && zs[b] in ys;
      }
    }
  }

  lemma {:induction false} PairsFromMembers(i: nat, n: nat)
    ensures forall p :: p in PairsFrom(i, n) <==> i <= p.0 < p.1 < n
    decreases n - i
  {
    if i < n {
      RowMembers(i, i + 1, n);
      PairsFromMembers(i + 1, n);
    }
  }

  lemma {:induction false} PairsFromSorted(i: nat, n: nat)
    ensures StrictlySorted(PairsFrom(i, n))
    decreases n - i
  {
    if i < n {
      RowSorted(i, i + 1, n);
      RowMembers(i, i + 1, n);
      PairsFromSorted(i + 1, n);
      PairsFromMembers(i + 1, n);
      ConcatSorted(Row(i, i + 1, n), PairsFrom(i + 1, n));
    }
  }

  /** The exhaustive pass visits exactly the pairs i < j < n, each once, in
      lexicographic order; with fewer than two particles it visits none. */
  lemma AllPairsExact(n: nat)
    ensures forall i: nat, j: nat :: (i, j) in AllPairs(n) <==> i < j < n
    ensures StrictlySorted(AllPairs(n))
    ensures forall a, b :: 0 <= a < b < |AllPairs(n)| ==> AllPairs(n)[a] != AllPairs(n)[b]
    ensures n <= 1 ==> AllPairs(n) == []
  {
    PairsFromMembers(0, n);
    PairsFromSorted(0, n);
  }

  /** 0 + 1 + ... + (m - 1). */
  function Triangle(m: nat): (t: nat) {
    if m == 0 then 0 else (m - 1) + Triangle(m - 1)
  }

  lemma {:induction false} TriangleClosed(m: nat)
    ensures 2 * Triangle(m) == m * (m - 1)
  {
    if m > 0 {
      TriangleClosed(m - 1);
      assert (m - 1) * (m - 2) + 2 * (m - 1) == m * (m - 1);
    }
  }

  /** Rows i, ..., n - 1 hold (n - i - 1) + ... + 1 + 0 pairs. */
  lemma {:induction false} PairsFromCount(i: nat, n: nat)
    requires i <= n
    ensures |PairsFrom(i, n)| == Triangle(n - i)
    decreases n - i
  {
    if i < n {
      RowMembers(i, i + 1, n);
      PairsFromCount(i + 1, n);
    }
  }

  /** The pass visits n (n - 1) / 2 pairs. */
  lemma AllPairsCount(n: nat)
    ensures |AllPairs(n)| == n * (n - 1) / 2
  {
    PairsFromCount(0, n);
    TriangleClosed(n);
  }
}
