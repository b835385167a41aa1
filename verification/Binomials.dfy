/** Binomial coefficients, their partial row sums, and the exact count of sign vectors
    behind them.  `Comb` is Python's `math.comb`; `Flips(n)` is
    `itertools.product((-1, 1), repeat=n)`. */
module Binomials {

  function Pow2(n: nat): (p: nat)
    ensures p > 0
  {
    if n == 0 then 1 else 2 * Pow2(n - 1)
  }

  function Comb(n: nat, k: nat): (c: nat)
    ensures c == 0 <==> k > n
  {
    if k == 0 then 1 else if n == 0 then 0 else Comb(n - 1, k - 1) + Comb(n - 1, k)
  }

  /** The sum of `Comb(n, k)` for `lo <= k < hi`. */
  function CombSum(n: nat, lo: nat, hi: nat): (s: nat)
    decreases hi
  {
    if hi <= lo then 0 else CombSum(n, lo, hi - 1) + Comb(n, hi - 1)
  }

  // ----- Sign vectors

  function Prefixed(x: int, vs: seq<seq<int>>): (r: seq<seq<int>>) {
    seq(|vs|, i requires 0 <= i < |vs| => [x] + vs[i])
  }

  function Flips(n: nat): (vs: seq<seq<int>>)
    ensures |vs| == Pow2(n)
    ensures forall i | 0 <= i < |vs| :: |vs[i]| == n
  {
    if n == 0 then [[]] else Prefixed(-1, Flips(n - 1)) + Prefixed(1, Flips(n - 1))
  }

  /** How many entries of a sign vector are +1. */
  function Heads(v: seq<int>): (h: nat)
    ensures h <= |v|
  {
    if v == [] then 0 else (if v[0] == 1 then 1 else 0) + Heads(v[1..])
  }

  function Count<T>(p: T -> bool, s: seq<T>): (c: nat)
    ensures c <= |s|
  {
    if s == [] then 0 else (if p(s[0]) then 1 else 0) + Count(p, s[1..])
  }

  lemma {:induction false} CountConcat<T>(p: T -> bool, a: seq<T>, b: seq<T>)
    ensures Count(p, a + b) == Count(p, a) + Count(p, b)
  {
    if a == [] {
      assert a + b == b;
    } else {
      assert (a + b)[1..] == a[1..] + b;
      CountConcat(p, a[1..], b);
    }
  }

  /** A count is the number of places where the predicate holds. */
  lemma {:induction false} CountIsSize<T>(p: T -> bool, s: seq<T>, places: set<int>)
    requires forall i :: i in places <==> 0 <= i < |s| && p(s[i])
    ensures Count(p, s) == |places|
  {
    if s == [] {
      assert forall i :: i !in places;
      assert places == {};
    } else {
      var n := |s| - 1;
      var front, last := s[..n], s[n];
      assert s == front + [last] && [last][1..] == [];
      CountConcat(p, front, [last]);
      assert n in places <==> p(last);
      forall i ensures i in places - {n} <==> 0 <= i < |front| && p(front[i]) {}
      CountIsSize(p, front, places - {n});
    }
  }

  /** Elementwise agreement of two predicates on two lists gives equal counts. */
  lemma {:induction false} CountCongruent<T, U>(p: T -> bool, s: seq<T>, q: U -> bool, t: seq<U>)
    requires |s| == |t|
    requires forall i | 0 <= i < |s| :: p(s[i]) == q(t[i])
    ensures Count(p, s) == Count(q, t)
  {
    if s == [] {
    } else {
      forall i | 0 <= i < |s[1..]| ensures p(s[1..][i]) == q(t[1..][i]) {
        assert s[1..][i] == s[i + 1] && t[1..][i] == t[i + 1];
      }
      CountCongruent(p, s[1..], q, t[1..]);
    }
  }

  lemma {:induction false} CountDisjoint<T>(p: T -> bool, q: T -> bool, r: T -> bool, s: seq<T>)
    requires forall i | 0 <= i < |s| :: r(s[i]) == (p(s[i]) || q(s[i])) && !(p(s[i]) && q(s[i]))
    ensures Count(r, s) == Count(p, s) + Count(q, s)
  {
    if s == [] {
    } else {
      assert forall i | 0 <= i < |s[1..]| :: s[1..][i] == s[i + 1];
      CountDisjoint(p, q, r, s[1..]);
    }
  }

  lemma {:induction false} CountAll<T>(p: T -> bool, s: seq<T>)
    requires forall i | 0 <= i < |s| :: p(s[i])
    ensures Count(p, s) == |s|
  {
    if s == [] {
    } else {
      assert forall i | 0 <= i < |s[1..]| :: s[1..][i] == s[i + 1];
      CountAll(p, s[1..]);
    }
  }

  function HeadsWithin(lo: int, hi: int): (p: seq<int> -> bool) {
    v => lo <= Heads(v) < hi
  }

  /** Putting one flip in front of every vector shifts the plus-count range by that flip. */
  lemma CountPrefixed(x: int, vs: seq<seq<int>>, lo: int, hi: int)
    ensures var d := if x == 1 then 1 else 0;
            Count(HeadsWithin(lo, hi), Prefixed(x, vs)) == Count(HeadsWithin(lo - d, hi - d), vs)
  {
    var d := if x == 1 then 1 else 0;
    forall i | 0 <= i < |vs|
      ensures HeadsWithin(lo, hi)(Prefixed(x, vs)[i]) == HeadsWithin(lo - d, hi - d)(vs[i])
    {
      assert ([x] + vs[i])[1..] == vs[i];
    }
    CountCongruent(HeadsWithin(lo, hi), Prefixed(x, vs), HeadsWithin(lo - d, hi - d), vs);
  }

  lemma CountFlips(p: seq<int> -> bool, n: nat)
    requires n > 0
    ensures Count(p, Flips(n)) == Count(p, Prefixed(-1, Flips(n - 1))) + Count(p, Prefixed(1, Flips(n - 1)))
  {
    CountConcat(p, Prefixed(-1, Flips(n - 1)), Prefixed(1, Flips(n - 1)));
  }

  lemma CountByFirst(n: nat, lo: int, hi: int)
    requires n > 0
    ensures Count(HeadsWithin(lo, hi), Flips(n)) ==
            Count(HeadsWithin(lo, hi), Flips(n - 1)) + Count(HeadsWithin(lo - 1, hi - 1), Flips(n - 1))
  {
    CountFlips(HeadsWithin(lo, hi), n);
    CountPrefixed(-1, Flips(n - 1), lo, hi);
    CountPrefixed(1, Flips(n - 1), lo, hi);
  }

  /** `Comb(n, k)` is the number of sign vectors of length n with exactly k plus signs. */
  lemma {:induction false} CombCountsFlips(n: nat, k: nat)
    ensures Count(HeadsWithin(k, k + 1), Flips(n)) == Comb(n, k)
  {
    if n == 0 {
      NoFlips(k);
    } else {
      CombCountsFlips(n - 1, k);
      if k > 0 {
        CombCountsFlips(n - 1, k - 1);
      } else {
        NegativeHeads(n - 1);
      }
      CombStep(n, k, Count(HeadsWithin(k, k + 1), Flips(n - 1)), Count(HeadsWithin(k - 1, k), Flips(n - 1)));
    }
  }

  lemma CombStep(n: nat, k: nat, without: nat, including: nat)
    requires n > 0 && without == Count(HeadsWithin(k, k + 1), Flips(n - 1)) == Comb(n - 1, k)
    requires including == Count(HeadsWithin(k - 1, k), Flips(n - 1)) == if k == 0 then 0 else Comb(n - 1, k - 1)
    ensures Count(HeadsWithin(k, k + 1), Flips(n)) == Comb(n, k)
  {
    CountByFirst(n, k, k + 1);
  }

  lemma NegativeHeads(n: nat)
    ensures Count(HeadsWithin(-1, 0), Flips(n)) == 0
  {
    CountNone(HeadsWithin(-1, 0), Flips(n));
  }

  lemma NoFlips(k: nat)
    ensures Count(HeadsWithin(k, k + 1), Flips(0)) == Comb(0, k)
  {
    assert Flips(0) == [[]];
  }

  lemma {:induction false} CountNone<T>(p: T -> bool, s: seq<T>)
    requires forall i | 0 <= i < |s| :: !p(s[i])
    ensures Count(p, s) == 0
  {
    if s == [] {
    } else {
      assert forall i | 0 <= i < |s[1..]| :: s[1..][i] == s[i + 1];
      CountNone(p, s[1..]);
    }
  }

  /** A partial row sum is the number of sign vectors whose plus-count lies in the range. */
  lemma {:induction false} CombSumCountsFlips(n: nat, lo: nat, hi: nat)
    ensures Count(HeadsWithin(lo, hi), Flips(n)) == CombSum(n, lo, hi)
    decreases hi
  {
    if hi <= lo {
      CountNone(HeadsWithin(lo, hi), Flips(n));
    } else {
      CombSumCountsFlips(n, lo, hi - 1);
      CombCountsFlips(n, hi - 1);
      CountDisjoint(HeadsWithin(lo, hi - 1), HeadsWithin(hi - 1, hi), HeadsWithin(lo, hi), Flips(n));
    }
  }

  // ----- Row sums

  lemma RowTotal(n: nat)
    ensures CombSum(n, 0, n + 1) == Pow2(n)
  {
    CombSumCountsFlips(n, 0, n + 1);
    CountAll(HeadsWithin(0, n + 1), Flips(n));
  }

  lemma {:induction false} CombMirror(n: nat, k: nat)
    requires k <= n
    ensures Comb(n, k) == Comb(n, n - k)
  {
    CombEnds(n);
    if k == 0 || k == n {
    } else {
      CombMirror(n - 1, k - 1);
      CombMirror(n - 1, k);
    }
  }

  lemma {:induction false} CombEnds(n: nat)
    ensures Comb(n, 0) == 1 && Comb(n, n) == 1
  {
    if n == 0 {
    } else {
      CombEnds(n - 1);
    }
  }

  lemma {:induction false} SumSplit(n: nat, lo: nat, mid: nat, hi: nat)
    requires lo <= mid <= hi
    ensures CombSum(n, lo, hi) == CombSum(n, lo, mid) + CombSum(n, mid, hi)
    decreases hi
  {
    if mid == hi {
    } else {
      SumSplit(n, lo, mid, hi - 1);
    }
  }

  /** The row read backwards: the sum of the last terms is the sum of the first ones. */
  lemma {:induction false} SumMirror(n: nat, lo: nat)
    requires lo <= n + 1
    ensures CombSum(n, lo, n + 1) == CombSum(n, 0, n + 1 - lo)
    decreases n + 1 - lo
  {
    if lo == n + 1 {
    } else {
      SumMirror(n, lo + 1);
      SumSplit(n, lo, lo + 1, n + 1);
      CombMirror(n, lo);
    }
  }

  /** The two tails of a row that meet in the middle make up the whole row. */
  lemma TailsComplement(n: nat, b: nat)
    requires b <= n + 1
    ensures CombSum(n, b, n + 1) + CombSum(n, n + 1 - b, n + 1) == Pow2(n)
  {
    RowTotal(n);
    SumSplit(n, 0, b, n + 1);
    SumMirror(n, n + 1 - b);
  }

  // ----- Shares of the 2^n equally likely sign vectors

  function Share(c: nat, n: nat): (p: real) {
    c as real / Pow2(n) as real
  }

  lemma ShareEnds(n: nat)
    ensures Share(0, n) == 0.0 && Share(Pow2(n), n) == 1.0
  {
    Quotients(Pow2(n) as real);
  }

  lemma Quotients(d: real)
    requires d > 0.0
    ensures 0.0 / d == 0.0 && d / d == 1.0
  {
  }

  lemma ShareAdd(c: nat, d: nat, n: nat)
    ensures Share(c + d, n) == Share(c, n) + Share(d, n)
  {
    QuotientAdd(c as real, d as real, Pow2(n) as real);
  }

  lemma QuotientAdd(x: real, y: real, d: real)
    requires d > 0.0
    ensures (x + y) / d == x / d + y / d
  {
    var a, b := x / d, y / d;
    assert (a + b) * d == a * d + b * d == x + y;
    QuotientUnique(x + y, a + b, d);
  }

  lemma QuotientUnique(x: real, q: real, d: real)
    requires d > 0.0 && q * d == x
    ensures x / d == q
  {
    var r := x / d;
    assert (r - q) * d == r * d - q * d == 0.0;
  }

  lemma ShareOrder(c: nat, d: nat, n: nat)
    ensures Share(c, n) < Share(d, n) <==> c < d
    ensures Share(c, n) <= Share(d, n) <==> c <= d
  {
    if c < d {
      PositiveShare(d - c, n);
      ShareAdd(c, d - c, n);
    } else if d < c {
      PositiveShare(c - d, n);
      ShareAdd(d, c - d, n);
    }
  }

  lemma PositiveShare(c: nat, n: nat)
    requires c > 0
    ensures Share(c, n) > 0.0
  {
  }
}
