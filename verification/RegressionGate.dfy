/** The one-sided exact McNemar regression alarm of the paired coding benchmark, over exact
    rationals.  `b` counts tasks only the baseline solved, `c` tasks only the candidate solved. */
module RegressionGate {
  import opened Binomials

  function RegressionP(b: nat, c: nat): (p: real) {
    var n := b + c;
    if n == 0 then 1.0 else Share(CombSum(n, b, n + 1), n)
  }

  /** The value is a tail probability: out of all 2^n equally likely assignments of the n
      discordant tasks to the two arms, the share giving the baseline at least b of them. */
  lemma RegressionPIsTailShare(b: nat, c: nat)
    ensures RegressionP(b, c) == Share(Count(HeadsWithin(b, b + c + 1), Flips(b + c)), b + c)
  {
    CombSumCountsFlips(b + c, b, b + c + 1);
    if b + c == 0 { assert CombSum(0, 0, 1) == 1; }
    ShareEnds(0);
  }

  /** Swapping the roles with one shifted success is the complementary event. */
  lemma Complement(b: nat, c: nat)
    requires b >= 1
    ensures RegressionP(b, c) + RegressionP(c + 1, b - 1) == 1.0
  {
    var n := b + c;
    TailsComplement(n, b);
    ShareAdd(CombSum(n, b, n + 1), CombSum(n, c + 1, n + 1), n);
    ShareEnds(n);
  }

  /** At a fixed number of discordant tasks, one more baseline win lowers the value. */
  lemma StrictlyDecreasing(b: nat, c: nat)
    requires c >= 1
    ensures RegressionP(b + 1, c - 1) < RegressionP(b, c)
  {
    var n := b + c;
    SumSplit(n, b, b + 1, n + 1);
    assert CombSum(n, b, b + 1) == Comb(n, b);
    ShareOrder(CombSum(n, b + 1, n + 1), CombSum(n, b, n + 1), n);
  }

  lemma {:induction false} DecreasingFrom(n: nat, b: nat, b': nat)
    requires b <= b' <= n
    ensures RegressionP(b', n - b') <= RegressionP(b, n - b)
    ensures b < b' ==> RegressionP(b', n - b') < RegressionP(b, n - b)
    decreases b' - b
  {
    if b == b' {
    } else {
      StrictlyDecreasing(b, n - b);
      DecreasingFrom(n, b + 1, b');
    }
  }

  /** The value reaches one half exactly when the baseline leads by at most one task. */
  lemma AtLeastHalfIff(b: nat, c: nat)
    ensures RegressionP(b, c) >= 0.5 <==> b <= c + 1
  {
    if b >= 1 {
      Complement(b, c);
      if b <= c + 1 {
        DecreasingFrom(b + c, b, c + 1);
      } else {
        DecreasingFrom(b + c, c + 1, b);
      }
    } else if c > 0 {
      RowTotal(c);
      ShareEnds(c);
    }
  }
}
