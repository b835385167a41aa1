/** What the conclusions of a latency report say about the ratios themselves. */
module LatencyConclusions {
  import opened Wrappers
  import opened Binomials
  import opened Sorting
  import opened SignFlipTest
  import opened MedianInterval
  import opened LatencyReport

  function AtLeastOne(): (p: real -> bool) {
    x => x >= 1.0
  }

  function AtMostOne(): (p: real -> bool) {
    x => x <= 1.0
  }

  /** In a sorted sample place i from the end is below 1 exactly when at most i ratios are not. */
  lemma {:induction false} LargeLast(s: seq<real>, i: nat)
    requires SortedBy(AtMost(), s) && i < |s|
    ensures s[|s| - 1 - i] < 1.0 <==> Count(AtLeastOne(), s) <= i
  {
    var n := |s| - 1;
    var front, last := s[..n], s[n];
    assert s == front + [last] && [last][1..] == [];
    CountConcat(AtLeastOne(), front, [last]);
    if last < 1.0 {
      forall j | 0 <= j < |s| ensures !AtLeastOne()(s[j]) { assert j == n || AtMost()(s[j], s[n]); }
      CountNone(AtLeastOne(), s);
    } else if i > 0 {
      LargeLast(front, i - 1);
    }
  }

  lemma {:induction false} SmallFirst(s: seq<real>, i: nat)
    requires SortedBy(AtMost(), s) && i < |s|
    ensures s[i] > 1.0 <==> Count(AtMostOne(), s) <= i
  {
    if s[0] > 1.0 {
      forall j | 0 <= j < |s| ensures !AtMostOne()(s[j]) { assert j == 0 || AtMost()(s[0], s[j]); }
      CountNone(AtMostOne(), s);
    } else if i > 0 {
      SmallFirst(s[1..], i - 1);
    }
  }

  /** The pairs, by place, in which the candidate is not below the control. */
  function NotLower(ratios: seq<real>): (places: set<int>) {
    set i | 0 <= i < |ratios| && ratios[i] >= 1.0
  }

  /** The pairs, by place, in which the candidate is not above the control. */
  function NotHigher(ratios: seq<real>): (places: set<int>) {
    set i | 0 <= i < |ratios| && ratios[i] <= 1.0
  }

  lemma LargeCount(ratios: seq<real>)
    ensures Count(AtLeastOne(), Ordered(ratios)) == |NotLower(ratios)|
  {
    CountSort(AtLeastOne(), AtMost(), ratios);
    CountIsSize(AtLeastOne(), ratios, NotLower(ratios));
  }

  lemma SmallCount(ratios: seq<real>)
    ensures Count(AtMostOne(), Ordered(ratios)) == |NotHigher(ratios)|
  {
    CountSort(AtMostOne(), AtMost(), ratios);
    CountIsSize(AtMostOne(), ratios, NotHigher(ratios));
  }

  lemma OrderedCounts(ratios: seq<real>, rank: nat)
    requires 1 <= rank <= |ratios|
    ensures Ordered(ratios)[|ratios| - rank] < 1.0 <==> |NotLower(ratios)| < rank
    ensures Ordered(ratios)[rank - 1] > 1.0 <==> |NotHigher(ratios)| < rank
  {
    OrderedPositive(ratios);
    LargeLast(Ordered(ratios), rank - 1);
    SmallFirst(Ordered(ratios), rank - 1);
    LargeCount(ratios);
    SmallCount(ratios);
  }

  lemma VerdictMeans(interval: Option<(real, real)>, p: real)
    requires interval.Some? ==> interval.value.0 <= interval.value.1
    ensures Verdict(interval, p) == LowerLatency <==> interval.Some? && p <= 0.05 && interval.value.1 < 1.0
    ensures Verdict(interval, p) == HigherLatency <==> interval.Some? && p <= 0.05 && interval.value.0 > 1.0
  {
  }

  lemma VerdictCounts(ratios: seq<real>, rank: nat, p: real)
    requires rank <= MaxRank(|ratios|)
    ensures var c := Verdict(IntervalOf(Ordered(ratios), rank).0, p);
            && (c == LowerLatency <==> p <= 0.05 && rank >= 1 && |NotLower(ratios)| < rank)
            && (c == HigherLatency <==> p <= 0.05 && rank >= 1 && |NotHigher(ratios)| < rank)
  {
    if rank > 0 {
      OrderedCounts(ratios, rank);
      OrderedPositive(ratios);
      MedianWithin(Ordered(ratios), rank);
    }
    VerdictMeans(IntervalOf(Ordered(ratios), rank).0, p);
  }

  lemma ConclusionOf(ratios: seq<real>, log: real -> real)
    requires ratios != []
    ensures var r, rank := LatencyReportOf(ratios, log), LastRank(|ratios|, MaxRank(|ratios|));
            r.conclusion == Verdict(IntervalOf(Ordered(ratios), rank).0, r.pValue)
  {
  }

  /** Lower latency is reported exactly when p is at most 0.05, there are six pairs or more, and fewer
      ratios than the rank reach 1; higher latency likewise with the ratios that do not exceed 1. */
  lemma ConclusionIff(ratios: seq<real>, log: real -> real)
    requires ratios != []
    ensures var r, n := LatencyReportOf(ratios, log), |ratios|;
            var rank := LastRank(n, MaxRank(n));
            && (r.conclusion == LowerLatency <==> r.pValue <= 0.05 && n >= 6 && |NotLower(ratios)| < rank)
            && (r.conclusion == HigherLatency <==> r.pValue <= 0.05 && n >= 6 && |NotHigher(ratios)| < rank)
  {
    var n := |ratios|;
    RankExistsIff(n);
    ConclusionOf(ratios, log);
    VerdictCounts(ratios, LastRank(n, MaxRank(n)), LatencyReportOf(ratios, log).pValue);
  }

  /** A report of lower latency has a median below 1, one of higher latency a median above 1. */
  lemma ConclusionFollowsMedian(ratios: seq<real>, log: real -> real)
    requires ratios != []
    ensures var r := LatencyReportOf(ratios, log);
            && (r.conclusion == LowerLatency ==> r.median < 1.0)
            && (r.conclusion == HigherLatency ==> r.median > 1.0)
  {
    var rank := LastRank(|ratios|, MaxRank(|ratios|));
    if rank > 0 {
      OrderedPositive(ratios);
      MedianWithin(Ordered(ratios), rank);
    }
    VerdictMeans(IntervalOf(Ordered(ratios), rank).0, PValue(Mapped(log, ratios)));
  }

  // ----- The fields of both reports

  /** A report exists exactly for one to twenty positive ratios. */
  lemma ReportedIff(ratios: seq<real>, log: real -> real)
    ensures Reported(ratios, log).Some? <==> 1 <= |ratios| <= 20 && forall i | 0 <= i < |ratios| :: ratios[i] > 0.0
  {
  }

  /** The reported statistic is the sum of the logarithms without its sign. */
  lemma ObservedMeans(ratios: seq<real>, log: real -> real)
    requires ratios != []
    ensures var observed, t := LatencyReportOf(ratios, log).observed, Total(Mapped(log, ratios));
            observed >= 0.0 && (observed == t || observed == -t)
  {
    assert LatencyReportOf(ratios, log) == ReportFor(Ordered(ratios), Mapped(log, ratios));
    ObservedOf(Ordered(ratios), Mapped(log, ratios));
  }

  lemma ObservedOf(s: seq<real>, logs: seq<real>)
    requires |s| == |logs| > 0
    ensures ReportFor(s, logs).observed == Abs(Total(logs))
  {
  }

  lemma {:induction false} MappedAt(f: real -> real, xs: seq<real>, i: nat)
    requires i < |xs|
    ensures Mapped(f, xs)[i] == f(xs[i])
  {
    if i == 0 {
    } else {
      MappedAt(f, xs[1..], i - 1);
    }
  }

  /** The second report gives every ratio as its change in percent. */
  lemma ChangesMean(ratios: seq<real>, log: real -> real, i: nat)
    requires i < |ratios|
    ensures EffectOf(ratios, log).changesPercent[i] == 100.0 * ratios[i] - 100.0
  {
    MappedAt(ChangePercent(), ratios, i);
  }

  lemma RangeOf(ratios: seq<real>)
    requires ratios != []
    ensures var s, n := Ordered(ratios), |ratios|;
            && s[0] in ratios && s[n - 1] in ratios
            && forall i | 0 <= i < n :: s[0] <= ratios[i] <= s[n - 1]
  {
    var s, n := Ordered(ratios), |ratios|;
    OrderedPositive(ratios);
    SameElements(s, ratios);
    assert s[0] in s && s[n - 1] in s;
    forall i | 0 <= i < n ensures s[0] <= ratios[i] <= s[n - 1] {
      assert ratios[i] in ratios;
      var j :| 0 <= j < n && s[j] == ratios[i];
      assert j == 0 || AtMost()(s[0], s[j]);
      assert j == n - 1 || AtMost()(s[j], s[n - 1]);
    }
  }

  lemma WholeRange(ratios: seq<real>, log: real -> real)
    requires ratios != [] && LastRank(|ratios|, MaxRank(|ratios|)) == 0
    ensures var e, s := EffectOf(ratios, log), Ordered(ratios);
            e.interval == (s[0], s[|ratios| - 1]) && e.coverage == 1.0 - 2.0 * Share(1, |ratios|)
  {
  }

  /** Below six pairs the second report's interval is the range of the sample, and it covers all but the two
      sign changes that put every ratio on one side of the median. */
  lemma SmallSamples(ratios: seq<real>, log: real -> real)
    requires 1 <= |ratios| < 6
    ensures var e := EffectOf(ratios, log);
            && e.interval.0 in ratios && e.interval.1 in ratios
            && (forall i | 0 <= i < |ratios| :: e.interval.0 <= ratios[i] <= e.interval.1)
            && e.coverage == 1.0 - Share(1, |ratios|) - Share(1, |ratios|)
  {
    RankExistsIff(|ratios|);
    WholeRange(ratios, log);
    RangeOf(ratios);
  }
}
