/** The distribution-free order-statistic interval for a median: which rank is chosen, what
    its coverage means, and when the interval covers a given value. */
module MedianInterval {
  import opened Binomials
  import opened Sorting

  function AtMost(): (le: (real, real) -> bool) {
    (a, b) => a <= b
  }

  lemma AtMostIsTotalOrder()
    ensures TotalOrder(AtMost())
  {
  }

  function Ordered(xs: seq<real>): (r: seq<real>)
    ensures |r| == |xs|
  {
    Sort(AtMost(), xs)
  }

  function Coverage(n: nat, rank: nat): (c: real) {
    1.0 - 2.0 * Share(CombSum(n, 0, rank), n)
  }

  /** The ranks the scan visits: 1, ..., (n + 1) / 2. */
  function MaxRank(n: nat): (r: nat) {
    (n + 1) / 2
  }

  /** The last rank up to `hi` whose coverage is at least 0.95, or 0. */
  function LastRank(n: nat, hi: nat): (r: nat)
    ensures r <= hi
  {
    if hi == 0 then 0 else if Coverage(n, hi) >= 0.95 then hi else LastRank(n, hi - 1)
  }

  // ----- Coverage falls with the rank and stays non-negative

  lemma CoverageDecreasing(n: nat, r: nat, r': nat)
    requires r < r' <= n + 1
    ensures Coverage(n, r') < Coverage(n, r)
  {
    SumSplit(n, 0, r, r');
    SumSplit(n, r, r + 1, r');
    ShareOrder(CombSum(n, 0, r), CombSum(n, 0, r'), n);
  }

  /** The coverage is the share of sign vectors with at least `rank` signs of each kind. */
  lemma CoverageIsShare(n: nat, rank: nat)
    requires rank <= MaxRank(n)
    ensures Coverage(n, rank) == Share(Count(HeadsWithin(rank, n + 1 - rank), Flips(n)), n)
  {
    CombSumCountsFlips(n, rank, n + 1 - rank);
    TailsAndMiddle(n, rank);
    MiddleShare(CombSum(n, 0, rank), CombSum(n, rank, n + 1 - rank), n);
  }

  lemma TailsAndMiddle(n: nat, rank: nat)
    requires rank <= MaxRank(n)
    ensures 2 * CombSum(n, 0, rank) + CombSum(n, rank, n + 1 - rank) == Pow2(n)
  {
    RowTotal(n);
    SumSplit(n, 0, rank, n + 1);
    SumSplit(n, rank, n + 1 - rank, n + 1);
    SumMirror(n, n + 1 - rank);
  }

  lemma MiddleShare(tail: nat, middle: nat, n: nat)
    requires 2 * tail + middle == Pow2(n)
    ensures 1.0 - 2.0 * Share(tail, n) == Share(middle, n)
  {
    ShareAdd(tail, tail, n);
    ShareAdd(2 * tail, middle, n);
    ShareEnds(n);
  }

  lemma CoverageNonNegative(n: nat, rank: nat)
    requires rank <= MaxRank(n)
    ensures 0.0 <= Coverage(n, rank) <= 1.0
  {
    CoverageIsShare(n, rank);
    ShareOrder(0, Count(HeadsWithin(rank, n + 1 - rank), Flips(n)), n);
    ShareOrder(0, CombSum(n, 0, rank), n);
    ShareEnds(n);
  }

  /** The scan keeps the largest qualifying rank, and the qualifying ranks are exactly those
      up to it. */
  lemma {:induction false} LastRankIsLargest(n: nat, hi: nat, rank: nat)
    requires 1 <= rank <= hi <= MaxRank(n)
    ensures Coverage(n, rank) >= 0.95 <==> rank <= LastRank(n, hi)
  {
    if Coverage(n, hi) >= 0.95 {
      if rank < hi { CoverageDecreasing(n, rank, hi); }
    } else if rank < hi {
      LastRankIsLargest(n, hi - 1, rank);
    }
  }

  lemma FirstCoverage(n: nat)
    requires n >= 1
    ensures Coverage(n, 1) >= 0.95 <==> n >= 6
  {
    assert CombSum(n, 0, 1) == 1;
    if n >= 6 {
      PowersFrom(6, n);
      UnitShare(Pow2(n));
    } else {
      PowersFrom(n, 5);
      UnitShare(Pow2(n));
    }
  }

  lemma UnitShare(p: nat)
    requires p > 0
    ensures 1.0 / p as real <= 0.025 <==> p >= 40
  {
    var q := 1.0 / p as real;
    assert q * p as real == 1.0;
  }

  lemma {:induction false} PowersFrom(a: nat, b: nat)
    requires a <= b
    ensures Pow2(a) <= Pow2(b)
    ensures Pow2(5) == 32 && Pow2(6) == 64
  {
    assert Pow2(3) == 8;
    if a == b {
    } else {
      PowersFrom(a, b - 1);
    }
  }

  /** There is an interval exactly from six pairs on. */
  lemma RankExistsIff(n: nat)
    requires n >= 1
    ensures LastRank(n, MaxRank(n)) >= 1 <==> n >= 6
  {
    LastRankIsLargest(n, MaxRank(n), 1);
    FirstCoverage(n);
  }

  // ----- What the interval covers

  /** Which observations lie above m: the sign vector of the sample around m. */
  function SignsAround(m: real, xs: seq<real>): (v: seq<int>)
    ensures |v| == |xs|
  {
    if xs == [] then [] else [if xs[0] > m then 1 else -1] + SignsAround(m, xs[1..])
  }

  function Below(m: real): (p: real -> bool) {
    x => x < m
  }

  lemma {:induction false} CountInsert<T>(p: T -> bool, le: (T, T) -> bool, x: T, s: seq<T>)
    ensures Count(p, Insert(le, x, s)) == (if p(x) then 1 else 0) + Count(p, s)
  {
    if s == [] || le(x, s[0]) {
      assert ([x] + s)[1..] == s;
    } else {
      CountInsert(p, le, x, s[1..]);
      assert ([s[0]] + Insert(le, x, s[1..]))[1..] == Insert(le, x, s[1..]);
    }
  }

  lemma {:induction false} CountSort<T>(p: T -> bool, le: (T, T) -> bool, s: seq<T>)
    ensures Count(p, Sort(le, s)) == Count(p, s)
  {
    if s == [] {
    } else {
      CountSort(p, le, s[1..]);
      CountInsert(p, le, s[0], Sort(le, s[1..]));
    }
  }

  /** In a sorted sample the observations below m come first. */
  lemma {:induction false} SortedBelow(s: seq<real>, m: real, i: nat)
    requires SortedBy(AtMost(), s) && i < |s|
    ensures s[i] < m <==> i < Count(Below(m), s)
  {
    if s[0] < m {
      if i > 0 { SortedBelow(s[1..], m, i - 1); }
    } else {
      assert AtMost()(s[0], s[i]) || i == 0;
      forall j | 0 <= j < |s| ensures !Below(m)(s[j]) {
        assert j == 0 || AtMost()(s[0], s[j]);
      }
      CountNone(Below(m), s);
    }
  }

  lemma {:induction false} SignsCount(m: real, xs: seq<real>)
    requires m !in xs
    ensures Heads(SignsAround(m, xs)) == |xs| - Count(Below(m), xs)
  {
    if xs == [] {
    } else {
      SignsCount(m, xs[1..]);
    }
  }

  lemma OrderedBelow(xs: seq<real>, m: real, i: nat)
    requires i < |xs| && m !in xs
    ensures Ordered(xs)[i] < m <==> i < Count(Below(m), xs)
    ensures Ordered(xs)[i] != m
  {
    AtMostIsTotalOrder();
    SortSorts(AtMost(), xs);
    CountSort(Below(m), AtMost(), xs);
    SortedBelow(Ordered(xs), m, i);
    SameElements(Ordered(xs), xs);
    assert Ordered(xs)[i] in Ordered(xs);
  }

  /** The interval of a rank lies strictly around m exactly when the sample has at least that
      many observations on either side of m. */
  lemma IntervalCoversIff(xs: seq<real>, m: real, rank: nat)
    requires 1 <= rank <= MaxRank(|xs|) && m !in xs
    ensures Ordered(xs)[rank - 1] < m < Ordered(xs)[|xs| - rank] <==>
            HeadsWithin(rank, |xs| + 1 - rank)(SignsAround(m, xs))
  {
    OrderedBelow(xs, m, rank - 1);
    OrderedBelow(xs, m, |xs| - rank);
    SignsCount(m, xs);
  }

  /** The sample with every observation at its own distance from m, above it where the sign is
      plus and below it elsewhere: over all sign vectors, all reflections of the sample about m. */
  function Placed(m: real, xs: seq<real>, v: seq<int>): (r: seq<real>)
    requires |v| == |xs|
    ensures |r| == |xs|
  {
    if xs == [] then []
    else
      var d := if xs[0] < m then m - xs[0] else xs[0] - m;
      [if v[0] == 1 then m + d else m - d] + Placed(m, xs[1..], v[1..])
  }

  lemma {:induction false} PlacedSigns(m: real, xs: seq<real>, v: seq<int>)
    requires |v| == |xs| && m !in xs
    ensures m !in Placed(m, xs, v)
    ensures Heads(SignsAround(m, Placed(m, xs, v))) == Heads(v)
  {
    if xs == [] {
      assert v == [];
    } else {
      PlacedSigns(m, xs[1..], v[1..]);
      var p := Placed(m, xs, v);
      assert p[1..] == Placed(m, xs[1..], v[1..]);
    }
  }

  function Covers(m: real, xs: seq<real>, rank: nat): (p: seq<int> -> bool)
    requires 1 <= rank <= |xs|
  {
    v => |v| == |xs| && var s := Ordered(Placed(m, xs, v)); s[rank - 1] < m < s[|s| - rank]
  }

  lemma CoversIff(m: real, xs: seq<real>, rank: nat, v: seq<int>)
    requires m !in xs && 1 <= rank <= MaxRank(|xs|) && |v| == |xs|
    ensures Covers(m, xs, rank)(v) <==> HeadsWithin(rank, |xs| + 1 - rank)(v)
  {
    PlacedSigns(m, xs, v);
    IntervalCoversIff(Placed(m, xs, v), m, rank);
  }

  /** Over all reflections of a sample about m, the interval of a rank lies around m for exactly
      the share the coverage names. */
  lemma CoverageExact(m: real, xs: seq<real>, rank: nat)
    requires m !in xs && 1 <= rank <= MaxRank(|xs|)
    ensures Share(Count(Covers(m, xs, rank), Flips(|xs|)), |xs|) == Coverage(|xs|, rank)
  {
    var n, vs := |xs|, Flips(|xs|);
    forall i | 0 <= i < |vs| ensures Covers(m, xs, rank)(vs[i]) == HeadsWithin(rank, n + 1 - rank)(vs[i]) {
      CoversIff(m, xs, rank, vs[i]);
    }
    CountCongruent(Covers(m, xs, rank), vs, HeadsWithin(rank, n + 1 - rank), vs);
    CoverageIsShare(n, rank);
  }

  // ----- Order-reversing maps

  function Mapped(f: real -> real, xs: seq<real>): (r: seq<real>)
    ensures |r| == |xs|
  {
    if xs == [] then [] else [f(xs[0])] + Mapped(f, xs[1..])
  }

  function Reversed(s: seq<real>): (r: seq<real>)
    ensures |r| == |s|
    ensures multiset(r) == multiset(s)
  {
    if s == [] then []
    else
      assert s == [s[0]] + s[1..];
      Reversed(s[1..]) + [s[0]]
  }

  /** The element at i of the reversed image is the image of the element as far from the end. */
  lemma {:induction false} ReversedAt(f: real -> real, s: seq<real>, i: nat, j: nat)
    requires i + j == |s| - 1
    ensures Reversed(Mapped(f, s))[i] == f(s[j])
  {
    ReversedFirst(f(s[0]), Mapped(f, s[1..]));
    if j == 0 {
    } else {
      ReversedAt(f, s[1..], i, j - 1);
    }
  }

  lemma ReversedFirst(x: real, s: seq<real>)
    ensures Reversed([x] + s) == Reversed(s) + [x]
  {
    assert ([x] + s)[1..] == s;
  }

  ghost predicate Reverses(f: real -> real, xs: seq<real>) {
    forall a, b | a in xs && b in xs && a <= b :: f(b) <= f(a)
  }

  lemma {:induction false} MappedInsert(f: real -> real, x: real, s: seq<real>)
    ensures multiset(Mapped(f, Insert(AtMost(), x, s))) == multiset{f(x)} + multiset(Mapped(f, s))
  {
    if s == [] || AtMost()(x, s[0]) {
      assert ([x] + s)[1..] == s;
    } else {
      MappedInsert(f, x, s[1..]);
      var t := Insert(AtMost(), x, s[1..]);
      assert ([s[0]] + t)[1..] == t;
    }
  }

  lemma {:induction false} MappedSort(f: real -> real, xs: seq<real>)
    ensures multiset(Mapped(f, Ordered(xs))) == multiset(Mapped(f, xs))
  {
    if xs == [] {
    } else {
      MappedSort(f, xs[1..]);
      MappedInsert(f, xs[0], Ordered(xs[1..]));
    }
  }

  lemma MappedSorted(f: real -> real, xs: seq<real>)
    requires Reverses(f, xs)
    ensures SortedBy(AtMost(), Reversed(Mapped(f, Ordered(xs))))
  {
    AtMostIsTotalOrder();
    SortSorts(AtMost(), xs);
    SameElements(Ordered(xs), xs);
    var s := Ordered(xs);
    var t := Reversed(Mapped(f, s));
    forall i, j | 0 <= i < j < |t| ensures AtMost()(t[i], t[j]) {
      ReversedAt(f, s, i, |s| - 1 - i);
      ReversedAt(f, s, j, |s| - 1 - j);
      var a, b := s[|s| - 1 - j], s[|s| - 1 - i];
      assert AtMost()(a, b);
      assert a in s && b in s;
    }
  }

  lemma OrderedReversed(f: real -> real, xs: seq<real>)
    requires Reverses(f, xs)
    ensures Ordered(Mapped(f, xs)) == Reversed(Mapped(f, Ordered(xs)))
  {
    AtMostIsTotalOrder();
    SortSorts(AtMost(), Mapped(f, xs));
    MappedSorted(f, xs);
    MappedSort(f, xs);
    SortedUnique(AtMost(), Ordered(Mapped(f, xs)), Reversed(Mapped(f, Ordered(xs))));
  }

  ghost predicate Mirrors(f: real -> real, s: seq<real>, t: seq<real>) {
    |s| == |t| && forall i | 0 <= i < |t| :: t[i] == f(s[|s| - 1 - i])
  }

  lemma ReversedMirrors(f: real -> real, s: seq<real>, t: seq<real>)
    requires t == Reversed(Mapped(f, s))
    ensures Mirrors(f, s, t)
  {
    forall i | 0 <= i < |t| ensures t[i] == f(s[|s| - 1 - i]) {
      ReversedAt(f, s, i, |s| - 1 - i);
    }
  }

  /** Sorting the images under an order-reversing map mirrors the sorted sample. */
  lemma OrderedMirrors(f: real -> real, xs: seq<real>)
    requires Reverses(f, xs)
    ensures Mirrors(f, Ordered(xs), Ordered(Mapped(f, xs)))
  {
    OrderedReversed(f, xs);
    ReversedMirrors(f, Ordered(xs), Ordered(Mapped(f, xs)));
  }
}
