/** The paired sign-flip randomization test used by both latency reports, over exact reals:
    the share of the 2^n sign changes of the log ratios whose absolute sum is at least the
    observed one, up to the tolerance. */
module SignFlipTest {
  import opened Binomials

  const TOLERANCE := 0.000000000001

  function Abs(x: real): (a: real) {
    if x < 0.0 then -x else x
  }

  function Total(xs: seq<real>): (t: real) {
    if xs == [] then 0.0 else xs[0] + Total(xs[1..])
  }

  /** sum(sign * value for sign, value in zip(signs, values)) */
  function Dot(v: seq<int>, xs: seq<real>): (t: real)
    requires |v| == |xs|
  {
    if xs == [] then 0.0 else v[0] as real * xs[0] + Dot(v[1..], xs[1..])
  }

  /** The sign vectors whose absolute signed sum reaches the level, up to the tolerance. */
  function Reaches(logs: seq<real>, level: real): (p: seq<int> -> bool) {
    v => |v| == |logs| && Abs(Dot(v, logs)) >= level - TOLERANCE
  }

  function ExtremeCount(logs: seq<real>): (c: nat) {
    Count(Reaches(logs, Abs(Total(logs))), Flips(|logs|))
  }

  function PValue(logs: seq<real>): (p: real) {
    Share(ExtremeCount(logs), |logs|)
  }

  // ----- The group of sign changes

  function Product(w: seq<int>, v: seq<int>): (r: seq<int>)
    requires |w| == |v|
    ensures |r| == |v|
  {
    if v == [] then [] else [w[0] * v[0]] + Product(w[1..], v[1..])
  }

  predicate Signs(v: seq<int>) {
    forall i | 0 <= i < |v| :: v[i] == 1 || v[i] == -1
  }

  lemma {:induction false} FlipsAreSigns(n: nat, i: nat)
    requires i < Pow2(n)
    ensures Signs(Flips(n)[i])
  {
    if n == 0 {
    } else {
      var m := Pow2(n - 1);
      FlipsAreSigns(n - 1, if i < m then i else i - m);
    }
  }

  /** The place of a sign vector, read as a binary number. */
  function PlaceOf(v: seq<int>): (i: nat) {
    if v == [] then 0 else (if v[0] == -1 then 0 else Pow2(|v| - 1)) + PlaceOf(v[1..])
  }

  /** A sign change of n signs is a sign in front of a sign change of the others. */
  lemma FlipAt(n: nat, i: nat) returns (x: int, k: nat)
    requires n > 0 && i < Pow2(n)
    ensures k < Pow2(n - 1) && (x == 1 || x == -1) && i == (if x == -1 then 0 else Pow2(n - 1)) + k
    ensures Flips(n)[i] == [x] + Flips(n - 1)[k]
  {
    var m := Pow2(n - 1);
    if i < m { x, k := -1, i; } else { x, k := 1, i - m; }
  }

  lemma PlaceOfCons(x: int, v: seq<int>)
    ensures PlaceOf([x] + v) == (if x == -1 then 0 else Pow2(|v|)) + PlaceOf(v)
  {
    assert ([x] + v)[1..] == v;
  }

  lemma {:induction false} FlipPlace(n: nat, i: nat)
    requires i < Pow2(n)
    ensures PlaceOf(Flips(n)[i]) == i
  {
    if n == 0 {
    } else {
      var x, k := FlipAt(n, i);
      FlipPlace(n - 1, k);
      PlaceOfCons(x, Flips(n - 1)[k]);
    }
  }

  lemma {:induction false} PlaceHolds(v: seq<int>)
    requires Signs(v)
    ensures PlaceOf(v) < Pow2(|v|) && Flips(|v|)[PlaceOf(v)] == v
  {
    if v == [] {
    } else {
      var first, rest := v[0], v[1..];
      assert v == [first] + rest;
      PlaceHolds(rest);
      PlaceOfCons(first, rest);
      var x, k := FlipAt(|rest| + 1, PlaceOf(v));
    }
  }

  /** The list of sign changes holds every vector of n signs exactly once. */
  lemma FlipsAre(n: nat)
    ensures |Flips(n)| == Pow2(n)
    ensures forall v :: v in Flips(n) <==> |v| == n && forall k | 0 <= k < n :: v[k] == 1 || v[k] == -1
    ensures forall i, j | 0 <= i < j < |Flips(n)| :: Flips(n)[i] != Flips(n)[j]
  {
    forall v | v in Flips(n) ensures |v| == n && Signs(v) {
      var i :| 0 <= i < Pow2(n) && Flips(n)[i] == v;
      FlipsAreSigns(n, i);
    }
    forall v | |v| == n && Signs(v) ensures v in Flips(n) { PlaceHolds(v); }
    forall i, j | 0 <= i < j < |Flips(n)| ensures Flips(n)[i] != Flips(n)[j] {
      FlipPlace(n, i);
      FlipPlace(n, j);
    }
  }

  predicate Extreme(d: real, t: real) {
    || (d >= t - 0.000000000001 && d >= -t - 0.000000000001)
    || (-d >= t - 0.000000000001 && -d >= -t - 0.000000000001)
  }

  lemma ReachesIff(logs: seq<real>, t: real, v: seq<int>)
    requires |v| == |logs|
    ensures Reaches(logs, Abs(t))(v) <==> Extreme(Dot(v, logs), t)
  {
  }

  /** The sign changes, by place, whose signed sum or its opposite comes, but for 1e-12, at least as high as
      both the observed sum and its opposite. */
  function ExtremeChanges(logs: seq<real>): (places: set<int>) {
    set i | 0 <= i < |Flips(|logs|)| && Extreme(Dot(Flips(|logs|)[i], logs), Total(logs))
  }

  /** The p-value is the share of those sign changes among all of them. */
  lemma PValueMeans(logs: seq<real>)
    ensures PValue(logs) == |ExtremeChanges(logs)| as real / Pow2(|logs|) as real
  {
    var p, vs, places := Reaches(logs, Abs(Total(logs))), Flips(|logs|), ExtremeChanges(logs);
    forall i ensures i in places <==> 0 <= i < |vs| && p(vs[i]) {
      if 0 <= i < |vs| { ReachesIff(logs, Total(logs), vs[i]); }
    }
    CountIsSize(p, vs, places);
  }

  function After(q: seq<int> -> bool, x: int): (p: seq<int> -> bool) {
    t => q([x] + t)
  }

  function Twisted(q: seq<int> -> bool, v: seq<int>): (p: seq<int> -> bool) {
    w => |w| == |v| && q(Product(w, v))
  }

  lemma CountAfter(q: seq<int> -> bool, n: nat)
    requires n > 0
    ensures Count(q, Flips(n)) == Count(After(q, -1), Flips(n - 1)) + Count(After(q, 1), Flips(n - 1))
  {
    var vs := Flips(n - 1);
    CountFlips(q, n);
    CountCongruent(q, Prefixed(-1, vs), After(q, -1), vs);
    CountCongruent(q, Prefixed(1, vs), After(q, 1), vs);
  }

  lemma TwistedAfter(q: seq<int> -> bool, v: seq<int>, x: int, y: int)
    requires v != [] && y == x * v[0]
    ensures Count(After(Twisted(q, v), x), Flips(|v| - 1))
         == Count(Twisted(After(q, y), v[1..]), Flips(|v| - 1))
  {
    var vs := Flips(|v| - 1);
    forall i | 0 <= i < |vs|
      ensures After(Twisted(q, v), x)(vs[i]) == Twisted(After(q, y), v[1..])(vs[i])
    {
      ProductCons(x, vs[i], v);
    }
    CountCongruent(After(Twisted(q, v), x), vs, Twisted(After(q, y), v[1..]), vs);
  }

  lemma ProductCons(x: int, t: seq<int>, v: seq<int>)
    requires v != [] && |t| == |v| - 1
    ensures Product([x] + t, v) == [x * v[0]] + Product(t, v[1..])
  {
    assert ([x] + t)[1..] == t;
  }

  /** Multiplying by a fixed sign vector permutes the sign vectors. */
  lemma {:induction false} CountTwisted(q: seq<int> -> bool, v: seq<int>)
    requires Signs(v)
    ensures Count(Twisted(q, v), Flips(|v|)) == Count(q, Flips(|v|))
  {
    if v == [] {
      assert Product([], v) == [];
      assert Flips(0) == [[]];
    } else {
      var rest := v[1..];
      assert Signs(rest);
      CountAfter(q, |v|);
      CountAfter(Twisted(q, v), |v|);
      TwistedAfter(q, v, -1, -v[0]);
      TwistedAfter(q, v, 1, v[0]);
      CountTwisted(After(q, -1), rest);
      CountTwisted(After(q, 1), rest);
    }
  }

  // ----- Symmetry under changing every sign

  function Negated(xs: seq<real>): (r: seq<real>)
    ensures |r| == |xs|
  {
    if xs == [] then [] else [-xs[0]] + Negated(xs[1..])
  }

  function MinusOnes(n: nat): (v: seq<int>)
    ensures |v| == n && Signs(v)
  {
    seq(n, _ => -1)
  }

  lemma {:induction false} TotalNegated(xs: seq<real>)
    ensures Total(Negated(xs)) == -Total(xs)
  {
    if xs == [] {
    } else {
      TotalNegated(xs[1..]);
    }
  }

  lemma {:induction false} DotNegated(v: seq<int>, xs: seq<real>)
    requires |v| == |xs|
    ensures Dot(v, Negated(xs)) == -Dot(v, xs)
  {
    if xs == [] {
    } else {
      assert Negated(xs)[1..] == Negated(xs[1..]);
      DotNegated(v[1..], xs[1..]);
    }
  }

  lemma {:induction false} DotOpposite(v: seq<int>, xs: seq<real>)
    requires |v| == |xs|
    ensures Dot(Product(v, MinusOnes(|v|)), xs) == -Dot(v, xs)
  {
    if xs == [] {
    } else {
      assert MinusOnes(|v|)[1..] == MinusOnes(|v[1..]|);
      assert Product(v, MinusOnes(|v|))[1..] == Product(v[1..], MinusOnes(|v[1..]|));
      DotOpposite(v[1..], xs[1..]);
    }
  }

  lemma {:induction false} CountSome<T>(p: T -> bool, s: seq<T>, i: nat)
    requires i < |s| && p(s[i])
    ensures Count(p, s) >= 1
  {
    if i == 0 {
    } else {
      CountSome(p, s[1..], i - 1);
    }
  }

  /** The last sign vector leaves every value as it is. */
  lemma {:induction false} LastFlipIsIdentity(n: nat, xs: seq<real>)
    requires |xs| == n
    ensures Dot(Flips(n)[Pow2(n) - 1], xs) == Total(xs)
  {
    if n == 0 {
    } else {
      LastFlip(n);
      DotPlus(Flips(n - 1)[Pow2(n - 1) - 1], xs);
      LastFlipIsIdentity(n - 1, xs[1..]);
    }
  }

  lemma LastFlip(n: nat)
    requires n > 0
    ensures Flips(n)[Pow2(n) - 1] == [1] + Flips(n - 1)[Pow2(n - 1) - 1]
  {
  }

  lemma DotPlus(v: seq<int>, xs: seq<real>)
    requires |xs| == |v| + 1
    ensures Dot([1] + v, xs) == xs[0] + Dot(v, xs[1..])
  {
    assert ([1] + v)[1..] == v;
  }

  lemma OppositeReaches(logs: seq<real>, level: real, v: seq<int>)
    requires |v| == |logs|
    ensures Reaches(logs, level)(v) == Reaches(logs, level)(Product(v, MinusOnes(|v|)))
  {
    DotOpposite(v, logs);
  }

  /** Turning the first sign over turns a vector that reaches the level into its opposite. */
  lemma OppositeHalves(logs: seq<real>, level: real)
    requires logs != []
    ensures Count(After(Reaches(logs, level), 1), Flips(|logs| - 1))
         == Count(After(Reaches(logs, level), -1), Flips(|logs| - 1))
  {
    var n, p := |logs|, Reaches(logs, level);
    var vs, ones := Flips(n - 1), MinusOnes(n - 1);
    assert MinusOnes(n) == [-1] + ones;
    forall i | 0 <= i < |vs| ensures After(p, 1)(vs[i]) == Twisted(After(p, -1), ones)(vs[i]) {
      OppositeReaches(logs, level, [1] + vs[i]);
      ProductCons(1, vs[i], MinusOnes(n));
    }
    CountCongruent(After(p, 1), vs, Twisted(After(p, -1), ones), vs);
    CountTwisted(After(p, -1), ones);
  }

  lemma ExtremeCountPositive(logs: seq<real>)
    ensures ExtremeCount(logs) >= 1
  {
    var n := |logs|;
    LastFlipIsIdentity(n, logs);
    CountSome(Reaches(logs, Abs(Total(logs))), Flips(n), Pow2(n) - 1);
  }

  /** Extreme sign vectors come in opposite pairs, and the observed signs are among them. */
  lemma ExtremeCountEven(logs: seq<real>)
    requires logs != []
    ensures ExtremeCount(logs) % 2 == 0
    ensures ExtremeCount(logs) >= 2
  {
    var p, n := Reaches(logs, Abs(Total(logs))), |logs|;
    CountAfter(p, n);
    OppositeHalves(logs, Abs(Total(logs)));
    ExtremeCountPositive(logs);
    TwoHalves(ExtremeCount(logs), Count(After(p, 1), Flips(n - 1)));
  }

  lemma TwoHalves(whole: nat, half: nat)
    requires whole == half + half && whole >= 1
    ensures whole % 2 == 0 && whole >= 2
  {
  }

  /** Exchanging the two sides of every pair leaves the test unchanged. */
  lemma NegationInvariant(logs: seq<real>)
    ensures ExtremeCount(Negated(logs)) == ExtremeCount(logs)
    ensures PValue(Negated(logs)) == PValue(logs)
  {
    var vs := Flips(|logs|);
    TotalNegated(logs);
    forall i | 0 <= i < |vs|
      ensures Reaches(Negated(logs), Abs(Total(Negated(logs))))(vs[i])
           == Reaches(logs, Abs(Total(logs)))(vs[i])
    {
      DotNegated(vs[i], logs);
    }
    CountCongruent(Reaches(Negated(logs), Abs(Total(Negated(logs)))), vs,
                   Reaches(logs, Abs(Total(logs))), vs);
  }

  // ----- Exactness: the test rejects with at most its nominal probability

  /** The data that would have been observed had the pair orders been flipped by v. */
  function Flipped(v: seq<int>, xs: seq<real>): (r: seq<real>)
    requires |v| == |xs|
    ensures |r| == |xs|
  {
    if xs == [] then [] else [v[0] as real * xs[0]] + Flipped(v[1..], xs[1..])
  }

  lemma {:induction false} DotFlipped(w: seq<int>, v: seq<int>, xs: seq<real>)
    requires |w| == |v| == |xs|
    ensures Dot(w, Flipped(v, xs)) == Dot(Product(w, v), xs)
    ensures Total(Flipped(v, xs)) == Dot(v, xs)
  {
    if xs == [] {
    } else {
      DotFlipped(w[1..], v[1..], xs[1..]);
    }
  }

  /** The test on flipped data counts the sign vectors that reach that flip's own statistic. */
  lemma ExtremeCountFlipped(v: seq<int>, logs: seq<real>)
    requires |v| == |logs| && Signs(v)
    ensures ExtremeCount(Flipped(v, logs)) == Count(Reaches(logs, Abs(Dot(v, logs))), Flips(|v|))
  {
    var vs := Flips(|v|);
    var there := Reaches(Flipped(v, logs), Abs(Total(Flipped(v, logs))));
    var here := Reaches(logs, Abs(Dot(v, logs)));
    forall i | 0 <= i < |vs| ensures there(vs[i]) == Twisted(here, v)(vs[i]) {
      DotFlipped(vs[i], v, logs);
    }
    CountCongruent(there, vs, Twisted(here, v), vs);
    CountTwisted(here, v);
  }

  lemma {:induction false} CountMonotone<T>(p: T -> bool, q: T -> bool, s: seq<T>)
    requires forall i | 0 <= i < |s| :: p(s[i]) ==> q(s[i])
    ensures Count(p, s) <= Count(q, s)
  {
    if s == [] {
    } else {
      assert forall i | 0 <= i < |s[1..]| :: s[1..][i] == s[i + 1];
      CountMonotone(p, q, s[1..]);
    }
  }

  /** Among the rejected sign vectors one has the smallest statistic. */
  lemma {:induction false} SmallestRejected(p: seq<int> -> bool, logs: seq<real>, vs: seq<seq<int>>)
      returns (k: nat)
    requires Count(p, vs) > 0
    requires forall i | 0 <= i < |vs| :: |vs[i]| == |logs|
    ensures k < |vs| && p(vs[k])
    ensures forall i | 0 <= i < |vs| && p(vs[i]) :: Abs(Dot(vs[k], logs)) <= Abs(Dot(vs[i], logs))
  {
    assert forall i | 0 <= i < |vs[1..]| :: vs[1..][i] == vs[i + 1];
    if Count(p, vs[1..]) == 0 {
      k := 0;
      forall i | 0 <= i < |vs| && p(vs[i]) ensures i == 0 {
        if i > 0 { CountSome(p, vs[1..], i - 1); }
      }
    } else {
      var j := SmallestRejected(p, logs, vs[1..]);
      k := j + 1;
      if p(vs[0]) && Abs(Dot(vs[0], logs)) < Abs(Dot(vs[k], logs)) { k := 0; }
      forall i | 0 <= i < |vs| && p(vs[i]) ensures Abs(Dot(vs[k], logs)) <= Abs(Dot(vs[i], logs)) {
        if i > 0 { assert vs[i] == vs[1..][i - 1]; }
      }
    }
  }

  /** Every rejected flip reaches the statistic of the smallest rejected one. */
  lemma RejectedAreExtreme(logs: seq<real>, rejected: seq<int> -> bool) returns (v: seq<int>)
    requires Count(rejected, Flips(|logs|)) > 0
    ensures |v| == |logs| && rejected(v)
    ensures Count(rejected, Flips(|logs|)) <= ExtremeCount(Flipped(v, logs))
  {
    var vs := Flips(|logs|);
    var k := SmallestRejected(rejected, logs, vs);
    v := vs[k];
    FlipsAreSigns(|logs|, k);
    ExtremeCountFlipped(v, logs);
    CountMonotone(rejected, Reaches(logs, Abs(Dot(v, logs))), vs);
  }

  lemma RejectedShare(logs: seq<real>, rejected: seq<int> -> bool) returns (v: seq<int>)
    requires Count(rejected, Flips(|logs|)) > 0
    ensures |v| == |logs| && rejected(v)
    ensures Share(Count(rejected, Flips(|logs|)), |logs|) <= PValue(Flipped(v, logs))
  {
    v := RejectedAreExtreme(logs, rejected);
    ShareOrder(Count(rejected, Flips(|logs|)), ExtremeCount(Flipped(v, logs)), |logs|);
  }

  /** Under the sharp null hypothesis every sign change is equally likely.  Whatever rule
      rejects only flips whose p-value is alpha or less, it rejects at most a share alpha. */
  lemma ExactTest(logs: seq<real>, alpha: real, rejected: seq<int> -> bool)
    requires alpha >= 0.0
    requires forall v: seq<int> {:trigger Flipped(v, logs)} | |v| == |logs| && rejected(v) ::
               PValue(Flipped(v, logs)) <= alpha
    ensures Share(Count(rejected, Flips(|logs|)), |logs|) <= alpha
  {
    if Count(rejected, Flips(|logs|)) == 0 {
      ShareEnds(|logs|);
    } else {
      var v := RejectedShare(logs, rejected);
      assert PValue(Flipped(v, logs)) <= alpha;
    }
  }
}
