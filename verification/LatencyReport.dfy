/** The two independently written paired latency summaries: `latency_statistics` (candidate
    over control, at most twenty pairs) and `paired_effect` (metered over reference).  Ratios
    are exact reals and the logarithm is any function that negates on reciprocals. */
module LatencyReport {
  import opened Wrappers
  import opened Binomials
  import opened Sorting
  import opened SignFlipTest
  import opened MedianInterval

  const MAX_EXACT_PAIRS := 20

  datatype Conclusion = Inconclusive | LowerLatency | HigherLatency

  datatype Report = Report(
    median: real,
    interval: Option<(real, real)>,
    coverage: Option<real>,
    pValue: real,
    observed: real,
    conclusion: Conclusion)

  predicate Positive(xs: seq<real>) {
    forall i | 0 <= i < |xs| :: xs[i] > 0.0
  }

  /** statistics.median of a sorted sample: the middle value, or the mean of the two. */
  function Median(s: seq<real>): (m: real)
    requires s != []
  {
    var n := |s|;
    if n % 2 == 1 then s[n / 2] else (s[n / 2 - 1] + s[n / 2]) / 2.0
  }

  function RankInterval(s: seq<real>, rank: nat): (i: (real, real))
    requires 1 <= rank <= |s|
  {
    (s[rank - 1], s[|s| - rank])
  }

  function Verdict(interval: Option<(real, real)>, pValue: real): (c: Conclusion) {
    if interval.None? || pValue > 0.05 then Inconclusive
    else if interval.value.1 < 1.0 then LowerLatency
    else if interval.value.0 > 1.0 then HigherLatency
    else Inconclusive
  }

  function LatencyReportOf(ratios: seq<real>, log: real -> real): (r: Report)
    requires ratios != []
  {
    ReportFor(Ordered(ratios), Mapped(log, ratios))
  }

  function ReportFor(s: seq<real>, logs: seq<real>): (r: Report)
    requires |s| == |logs| > 0
  {
    var (interval, coverage) := IntervalOf(s, LastRank(|s|, MaxRank(|s|)));
    Report(Median(s), interval, coverage, PValue(logs), Abs(Total(logs)),
           Verdict(interval, PValue(logs)))
  }

  function IntervalOf(s: seq<real>, rank: nat): (r: (Option<(real, real)>, Option<real>))
    requires rank <= |s|
  {
    if rank == 0 then (None, None) else (Some(RankInterval(s, rank)), Some(Coverage(|s|, rank)))
  }

  /** The rank loop: each qualifying rank overwrites the interval of the one before. */
  method ScanRanks(ordered: seq<real>) returns (interval: Option<(real, real)>, coverage: Option<real>)
    ensures (interval, coverage) == IntervalOf(ordered, LastRank(|ordered|, MaxRank(|ordered|)))
  {
    var size := |ordered|;
    interval, coverage := None, None;
    ghost var last := 0;
    for rank := 1 to (size + 1) / 2 + 1
      invariant last == LastRank(size, rank - 1)
      invariant (interval, coverage) == IntervalOf(ordered, last)
    {
      var candidate := Coverage(size, rank);
      if candidate >= 0.95 {
        interval := Some((ordered[rank - 1], ordered[size - rank]));
        coverage := Some(candidate);
        last := rank;
      }
    }
  }

  function Reported(ratios: seq<real>, log: real -> real): (r: Option<Report>) {
    if 1 <= |ratios| <= MAX_EXACT_PAIRS && Positive(ratios) then Some(LatencyReportOf(ratios, log)) else None
  }

  /** `latency_statistics`; None is the refusal of an unbounded, empty or non-positive series. */
  method LatencyStatistics(ratios: seq<real>, log: real -> real) returns (report: Option<Report>)
    ensures report == Reported(ratios, log)
  {
    if !(1 <= |ratios| <= MAX_EXACT_PAIRS && Positive(ratios)) {
      return None;
    }
    var logs := Mapped(log, ratios);
    var observed := Abs(Total(logs));
    var extreme := Count(Reaches(logs, observed), Flips(|logs|));
    var ordered := Ordered(ratios);
    var interval, coverage := ScanRanks(ordered);
    var pValue := Share(extreme, |ratios|);
    var conclusion := Inconclusive;
    if interval.Some? && pValue <= 0.05 {
      if interval.value.1 < 1.0 {
        conclusion := LowerLatency;
      } else if interval.value.0 > 1.0 {
        conclusion := HigherLatency;
      }
    }
    return Some(Report(Median(ordered), interval, coverage, pValue, observed, conclusion));
  }

  // ----- Fewer than six pairs decide nothing

  lemma FewPairsInconclusive(ratios: seq<real>, log: real -> real)
    requires 1 <= |ratios| <= 5
    ensures var r := LatencyReportOf(ratios, log);
            r.conclusion == Inconclusive && r.interval == None && r.pValue > 0.05
  {
    RankExistsIff(|ratios|);
    ExtremeCountEven(Mapped(log, ratios));
    LeastShare(ExtremeCount(Mapped(log, ratios)), |ratios|);
  }

  lemma LeastShare(c: nat, n: nat)
    requires c >= 2 && n <= 5
    ensures Share(c, n) > 0.05
  {
    PowersFrom(n, 5);
    ShareOrder(2, c, n);
    TwoOver(Pow2(n));
  }

  lemma TwoOver(p: nat)
    requires 0 < p <= 32
    ensures 2.0 / p as real > 0.05
  {
    var q := 2.0 / p as real;
    assert q * p as real == 2.0;
    assert q * (32.0 - p as real) >= 0.0;
  }

  /** From six pairs on there is an interval, it has the largest qualifying rank, and it
      brackets the reported median. */
  lemma IntervalBracketsMedian(ratios: seq<real>, log: real -> real)
    requires |ratios| >= 6
    ensures var r := LatencyReportOf(ratios, log);
            && r.interval.Some? && r.coverage.Some?
            && r.interval.value.0 <= r.median <= r.interval.value.1
            && 0.95 <= r.coverage.value <= 1.0
  {
    var n := |ratios|;
    var rank := LastRank(n, MaxRank(n));
    RankExistsIff(n);
    LastRankIsLargest(n, MaxRank(n), rank);
    CoverageNonNegative(n, rank);
    OrderedPositive(ratios);
    MedianWithin(Ordered(ratios), rank);
  }

  lemma MedianWithin(s: seq<real>, rank: nat)
    requires SortedBy(AtMost(), s) && 1 <= rank <= MaxRank(|s|)
    ensures RankInterval(s, rank).0 <= Median(s) <= RankInterval(s, rank).1
    ensures RankInterval(s, rank).0 <= RankInterval(s, rank).1
  {
    forall i | rank - 1 <= i <= |s| - rank ensures s[rank - 1] <= s[i] <= s[|s| - rank] {
      assert i == rank - 1 || AtMost()(s[rank - 1], s[i]);
      assert i == |s| - rank || AtMost()(s[i], s[|s| - rank]);
    }
  }

  // ----- Exchanging the two sides of pairs

  function Reciprocal(): (f: real -> real) {
    x => if x == 0.0 then 0.0 else 1.0 / x
  }

  lemma Inverse(x: real, y: real)
    requires x > 0.0 && y > 0.0
    ensures 1.0 / x > 0.0 && 1.0 / (1.0 / x) == x
    ensures 1.0 / x <= 1.0 / y <==> y <= x
    ensures 1.0 / x < 1.0 / y <==> y < x
  {
    var a, b := 1.0 / x, 1.0 / y;
    assert a * x == 1.0 && b * y == 1.0;
    assert a > 0.0 && b > 0.0;
    assert 1.0 / a == x;
    assert (b - a) * (x * y) == x - y;
    assert x * y > 0.0;
    SignOf(b - a, x * y);
  }

  lemma SignOf(u: real, d: real)
    requires d > 0.0
    ensures u * d > 0.0 <==> u > 0.0
    ensures u * d >= 0.0 <==> u >= 0.0
  {
    if u < 0.0 { assert (-u) * d > 0.0; }
  }

  ghost predicate LogLike(log: real -> real) {
    forall x: real {:trigger log(1.0 / x)} | x > 0.0 :: log(1.0 / x) == -log(x)
  }

  /** Any map that negates the logarithm negates the list of logarithms. */
  lemma {:induction false} LogsMapped(log: real -> real, f: real -> real, xs: seq<real>)
    requires forall i | 0 <= i < |xs| :: log(f(xs[i])) == -log(xs[i])
    ensures Mapped(log, Mapped(f, xs)) == Negated(Mapped(log, xs))
  {
    if xs == [] {
    } else {
      assert forall i | 0 <= i < |xs[1..]| :: xs[1..][i] == xs[i + 1];
      LogsMapped(log, f, xs[1..]);
    }
  }

  lemma ReciprocalReverses(xs: seq<real>)
    requires Positive(xs)
    ensures Reverses(Reciprocal(), xs)
  {
    forall a, b | a in xs && b in xs && a <= b ensures Reciprocal()(b) <= Reciprocal()(a) {
      Inverse(b, a);
    }
  }

  function Exchanged(c: Conclusion): (r: Conclusion) {
    match c
    case Inconclusive => Inconclusive
    case LowerLatency => HigherLatency
    case HigherLatency => LowerLatency
  }

  lemma VerdictExchanged(i: (real, real), p: real)
    requires 0.0 < i.0 <= i.1
    ensures Verdict(Some((Reciprocal()(i.1), Reciprocal()(i.0))), p) == Exchanged(Verdict(Some(i), p))
  {
    Inverse(i.0, 1.0);
    Inverse(1.0, i.1);
  }

  lemma LogsReciprocal(ratios: seq<real>, log: real -> real)
    requires Positive(ratios) && LogLike(log)
    ensures Mapped(log, Mapped(Reciprocal(), ratios)) == Negated(Mapped(log, ratios))
  {
    forall i | 0 <= i < |ratios| ensures log(Reciprocal()(ratios[i])) == -log(ratios[i]) {
      assert log(1.0 / ratios[i]) == -log(ratios[i]);
    }
    LogsMapped(log, Reciprocal(), ratios);
  }

  lemma ReportMirrors(s: seq<real>, t: seq<real>, logs: seq<real>)
    requires |s| == |logs| > 0 && Mirrors(Reciprocal(), s, t)
    requires SortedBy(AtMost(), s) && Positive(s)
    ensures var a, b := ReportFor(s, logs), ReportFor(t, Negated(logs));
            && b.pValue == a.pValue && b.observed == a.observed && b.coverage == a.coverage
            && b.interval == ExchangedInterval(a.interval)
            && b.conclusion == Exchanged(a.conclusion)
  {
    var rank := LastRank(|s|, MaxRank(|s|));
    NegationInvariant(logs);
    TotalNegated(logs);
    if rank > 0 {
      MedianWithin(s, rank);
      VerdictExchanged(RankInterval(s, rank), PValue(logs));
    }
  }

  function ExchangedInterval(i: Option<(real, real)>): (r: Option<(real, real)>) {
    match i
    case None => None
    case Some((lo, hi)) => Some((Reciprocal()(hi), Reciprocal()(lo)))
  }

  /** Exchanging candidate and control keeps the p-value, coverage and statistic, inverts and
      reverses the interval, and exchanges the two conclusions. */
  lemma ReportReciprocal(ratios: seq<real>, log: real -> real)
    requires ratios != [] && Positive(ratios) && LogLike(log)
    ensures var a := LatencyReportOf(ratios, log);
            var b := LatencyReportOf(Mapped(Reciprocal(), ratios), log);
            && b.pValue == a.pValue && b.observed == a.observed && b.coverage == a.coverage
            && b.interval == ExchangedInterval(a.interval)
            && b.conclusion == Exchanged(a.conclusion)
  {
    LogsReciprocal(ratios, log);
    OrderedPositive(ratios);
    ReciprocalReverses(ratios);
    OrderedMirrors(Reciprocal(), ratios);
    ReportMirrors(Ordered(ratios), Ordered(Mapped(Reciprocal(), ratios)), Mapped(log, ratios));
  }

  lemma OrderedPositive(xs: seq<real>)
    ensures SortedBy(AtMost(), Ordered(xs))
    ensures Positive(xs) ==> Positive(Ordered(xs))
  {
    AtMostIsTotalOrder();
    SortSorts(AtMost(), xs);
    SameElements(Ordered(xs), xs);
    forall i | 0 <= i < |xs| ensures Ordered(xs)[i] in xs {
      assert Ordered(xs)[i] in Ordered(xs);
    }
  }

  /** Exchanging candidate and control inverts the reported median exactly when there is one middle
      ratio or the two middle ratios agree: the mean of two different ratios is not the inverse of the
      mean of their reciprocals. */
  lemma MedianReciprocalIff(ratios: seq<real>, log: real -> real)
    requires ratios != [] && Positive(ratios)
    ensures var a := LatencyReportOf(ratios, log);
            var b := LatencyReportOf(Mapped(Reciprocal(), ratios), log);
            var s := Ordered(ratios);
            b.median == Reciprocal()(a.median) <==> |s| % 2 == 1 || s[|s| / 2 - 1] == s[|s| / 2]
  {
    ReportedMedian(ratios, log);
    ReportedMedian(Mapped(Reciprocal(), ratios), log);
    var s, t := OrderedBoth(ratios);
    MedianMirrors(s, t);
  }

  lemma ReportedMedian(ratios: seq<real>, log: real -> real)
    requires ratios != []
    ensures LatencyReportOf(ratios, log).median == Median(Ordered(ratios))
  {
  }

  lemma OrderedBoth(ratios: seq<real>) returns (s: seq<real>, t: seq<real>)
    requires ratios != [] && Positive(ratios)
    ensures s == Ordered(ratios) && t == Ordered(Mapped(Reciprocal(), ratios))
    ensures s != [] && Positive(s) && Mirrors(Reciprocal(), s, t)
  {
    s, t := Ordered(ratios), Ordered(Mapped(Reciprocal(), ratios));
    OrderedPositive(ratios);
    ReciprocalReverses(ratios);
    OrderedMirrors(Reciprocal(), ratios);
  }

  lemma OrderedPair()
    ensures Ordered([1.0, 2.0]) == [1.0, 2.0]
  {
    assert Ordered([2.0]) == [2.0];
    assert [1.0, 2.0][1..] == [2.0];
  }

  /** The ratios 1 and 2 have the median 3/2, and exchanged not 2/3. */
  lemma MedianNotInverted(log: real -> real)
    ensures var a, b := LatencyReportOf([1.0, 2.0], log), LatencyReportOf(Mapped(Reciprocal(), [1.0, 2.0]), log);
            a.median == 1.5 && b.median != Reciprocal()(a.median)
  {
    OrderedPair();
    MedianReciprocalIff([1.0, 2.0], log);
    ReportedMedian([1.0, 2.0], log);
  }

  lemma MedianMirrors(s: seq<real>, t: seq<real>)
    requires s != [] && Positive(s) && Mirrors(Reciprocal(), s, t)
    ensures Median(t) == Reciprocal()(Median(s)) <==> |s| % 2 == 1 || s[|s| / 2 - 1] == s[|s| / 2]
  {
    if |s| % 2 == 0 { MeanOfInverses(s[|s| / 2 - 1], s[|s| / 2]); }
  }

  lemma MeanOfInverses(a: real, b: real)
    requires a > 0.0 && b > 0.0
    ensures (1.0 / b + 1.0 / a) / 2.0 == 1.0 / ((a + b) / 2.0) <==> a == b
  {
    var p, q, m := 1.0 / a, 1.0 / b, (a + b) / 2.0;
    var h, r := (q + p) / 2.0, 1.0 / m;
    assert p * a == 1.0 && q * b == 1.0 && r * m == 1.0;
    MeanTimesProduct(a, b, p, q);
    if h == r {
      assert a * b == m * m by {
        assert (h * m) * (a * b) == (h * (a * b)) * m;
      }
      if a != b { Square(a, b, m, m - b); }
    }
  }

  lemma MeanTimesProduct(a: real, b: real, p: real, q: real)
    requires p * a == 1.0 && q * b == 1.0
    ensures ((q + p) / 2.0) * (a * b) == (a + b) / 2.0
  {
    assert (q + p) * (a * b) == (q * b) * a + (p * a) * b;
  }

  lemma Square(a: real, b: real, m: real, d: real)
    requires a == m + d && b == m - d && d != 0.0
    ensures a * b != m * m
  {
    var q := d * d;
    if d > 0.0 { PositiveProduct(d, d, q); } else { PositiveProduct(-d, -d, q); }
    assert (m + d) * (m - d) == m * m - q;
  }

  lemma PositiveProduct(u: real, v: real, p: real)
    requires u > 0.0 && v > 0.0 && p == u * v
    ensures p > 0.0
  {
  }

  // ----- The level of the conclusions

  /** Candidate and control exchanged in the pairs where the sign is negative. */
  function ExchangedPairs(v: seq<int>, ratios: seq<real>): (r: seq<real>)
    requires |v| == |ratios|
    ensures |r| == |ratios|
  {
    if v == [] then []
    else [if v[0] == -1 then Reciprocal()(ratios[0]) else ratios[0]] + ExchangedPairs(v[1..], ratios[1..])
  }

  /** The exchanges after which the program reports a lower or a higher latency. */
  function Decides(ratios: seq<real>, log: real -> real): (p: seq<int> -> bool) {
    v =>
      |v| == |ratios| && Signs(v) &&
      var r := Reported(ExchangedPairs(v, ratios), log);
      r.Some? && r.value.conclusion != Inconclusive
  }

  lemma {:induction false} ExchangedLogs(v: seq<int>, ratios: seq<real>, log: real -> real)
    requires |v| == |ratios| && Signs(v) && LogLike(log) && Positive(ExchangedPairs(v, ratios))
    ensures Mapped(log, ExchangedPairs(v, ratios)) == Flipped(v, Mapped(log, ratios))
  {
    if v == [] {
    } else {
      var rest := ExchangedPairs(v[1..], ratios[1..]);
      assert ExchangedPairs(v, ratios)[0] > 0.0;
      forall i | 0 <= i < |rest| ensures rest[i] > 0.0 { assert ExchangedPairs(v, ratios)[i + 1] == rest[i]; }
      ExchangedLogs(v[1..], ratios[1..], log);
      ExchangedLog(v[0], ratios[0], log);
    }
  }

  lemma ExchangedLog(sign: int, x: real, log: real -> real)
    requires LogLike(log) && (sign == 1 || sign == -1) && (if sign == -1 then Reciprocal()(x) else x) > 0.0
    ensures log(if sign == -1 then Reciprocal()(x) else x) == sign as real * log(x)
  {
    if sign == -1 {
      assert log(1.0 / x) == -log(x);
    }
  }

  lemma DecidesMeans(v: seq<int>, ratios: seq<real>, log: real -> real)
    requires LogLike(log) && Decides(ratios, log)(v)
    ensures |v| == |ratios| && PValue(Flipped(v, Mapped(log, ratios))) <= 0.05
  {
    ExchangedLogs(v, ratios, log);
    ConclusionMeans(ExchangedPairs(v, ratios), log);
  }

  lemma ConclusionMeans(ratios: seq<real>, log: real -> real)
    requires ratios != []
    ensures LatencyReportOf(ratios, log).conclusion != Inconclusive ==> PValue(Mapped(log, ratios)) <= 0.05
  {
  }

  /** If candidate and control do not differ, every exchange within pairs is equally likely, and at most
      a share 0.05 of them makes the program report anything but an inconclusive result. */
  lemma ConclusionLevel(ratios: seq<real>, log: real -> real)
    requires LogLike(log)
    ensures Share(Count(Decides(ratios, log), Flips(|ratios|)), |ratios|) <= 0.05
  {
    var logs := Mapped(log, ratios);
    forall v: seq<int> {:trigger Flipped(v, logs)} | |v| == |logs| && Decides(ratios, log)(v)
      ensures PValue(Flipped(v, logs)) <= 0.05
    {
      DecidesMeans(v, ratios, log);
    }
    ExactTest(logs, 0.05, Decides(ratios, log));
  }

  // ----- The second implementation

  datatype Effect = Effect(
    median: real, interval: (real, real), coverage: real, pValue: real, changesPercent: seq<real>)

  function ChangePercent(): (f: real -> real) {
    ratio => (ratio - 1.0) * 100.0
  }

  /** The other program's form of the comparison: the tolerance is added on the left. */
  function ReachesMetered(changes: seq<real>, observed: real): (p: seq<int> -> bool) {
    v => |v| == |changes| && Abs(Dot(v, changes)) + TOLERANCE >= observed
  }

  function EffectOf(ratios: seq<real>, log: real -> real): (e: Effect)
    requires ratios != []
  {
    var n, changes := |ratios|, Mapped(log, ratios);
    var rank := LastRank(n, MaxRank(n));
    var index := if rank == 0 then 0 else rank - 1;
    Effect(Median(Ordered(ratios)),
           (Ordered(ratios)[index], Ordered(ratios)[n - 1 - index]),
           if rank == 0 then 1.0 - 2.0 * Share(1, n) else Coverage(n, rank),
           Share(Count(ReachesMetered(changes, Abs(Total(changes))), Flips(n)), n),
           Mapped(ChangePercent(), ratios))
  }

  /** The index loop of the second program starts from the whole range of the sample. */
  method ScanIndexes(n: nat) returns (lowerIndex: nat, coverage: real)
    requires n > 0
    ensures var rank := LastRank(n, MaxRank(n));
            && lowerIndex == (if rank == 0 then 0 else rank - 1)
            && coverage == (if rank == 0 then 1.0 - 2.0 * Share(1, n) else Coverage(n, rank))
  {
    lowerIndex, coverage := 0, 1.0 - 2.0 * Share(1, n);
    ghost var last := 0;
    for k := 1 to (n + 1) / 2 + 1
      invariant last == LastRank(n, k - 1)
      invariant lowerIndex == if last == 0 then 0 else last - 1
      invariant coverage == if last == 0 then 1.0 - 2.0 * Share(1, n) else Coverage(n, last)
    {
      var candidate := Coverage(n, k);
      if candidate >= 0.95 {
        lowerIndex, coverage := k - 1, candidate;
        last := k;
      }
    }
  }

  function Measured(ratios: seq<real>, log: real -> real): (e: Option<Effect>) {
    if ratios != [] && Positive(ratios) then Some(EffectOf(ratios, log)) else None
  }

  /** `paired_effect` on the ratios of its pairs; None stands for the exceptions on an empty
      series or a ratio outside the logarithm's domain. */
  method PairedEffect(ratios: seq<real>, log: real -> real) returns (effect: Option<Effect>)
    ensures effect == Measured(ratios, log)
  {
    if ratios == [] || !Positive(ratios) {
      return None;
    }
    var changes, n := Mapped(log, ratios), |ratios|;
    var observed := Abs(Total(changes));
    var extreme := Count(ReachesMetered(changes, observed), Flips(n));
    var ordered := Ordered(ratios);
    var lowerIndex, coverage := ScanIndexes(n);
    return Some(Effect(Median(ordered), (ordered[lowerIndex], ordered[n - 1 - lowerIndex]),
                       coverage, Share(extreme, n), Mapped(ChangePercent(), ratios)));
  }

  lemma SamePValue(logs: seq<real>)
    ensures Count(ReachesMetered(logs, Abs(Total(logs))), Flips(|logs|)) == ExtremeCount(logs)
  {
    var vs, level := Flips(|logs|), Abs(Total(logs));
    forall i | 0 <= i < |vs|
      ensures ReachesMetered(logs, level)(vs[i]) == Reaches(logs, level)(vs[i])
    {
    }
    CountCongruent(ReachesMetered(logs, level), vs, Reaches(logs, level), vs);
  }

  /** Where both formulas apply they agree on median and p-value.  They agree on interval and
      coverage exactly from six pairs on; below, the second program reports the range of the sample
      with the coverage it really has, which is less than 0.95. */
  lemma FormulasAgree(ratios: seq<real>, log: real -> real)
    requires ratios != []
    ensures var r, e := LatencyReportOf(ratios, log), EffectOf(ratios, log);
            && e.median == r.median && e.pValue == r.pValue
            && (r.interval == Some(e.interval) <==> |ratios| >= 6)
            && (r.coverage == Some(e.coverage) <==> |ratios| >= 6)
            && (e.coverage >= 0.95 <==> |ratios| >= 6)
  {
    SamePValue(Mapped(log, ratios));
    IntervalsAgree(Ordered(ratios), LastRank(|ratios|, MaxRank(|ratios|)));
  }

  lemma IntervalsAgree(s: seq<real>, rank: nat)
    requires s != [] && rank == LastRank(|s|, MaxRank(|s|))
    ensures var n, index := |s|, if rank == 0 then 0 else rank - 1;
            var (interval, coverage) := IntervalOf(s, rank);
            var reported := if rank == 0 then 1.0 - 2.0 * Share(1, n) else Coverage(n, rank);
            && (interval == Some((s[index], s[n - 1 - index])) <==> n >= 6)
            && (coverage == Some(reported) <==> n >= 6)
            && (reported >= 0.95 <==> n >= 6)
  {
    var n := |s|;
    RankExistsIff(n);
    if rank > 0 {
      LastRankIsLargest(n, MaxRank(n), rank);
    } else {
      FirstCoverage(n);
      assert CombSum(n, 0, 1) == 1;
    }
  }

  /** The two programs both return and agree on median and p-value if and only if the ratios are
      positive and number one to twenty; they agree on everything both report if and only if the
      ratios are positive and number six to twenty. */
  lemma ImplementationsAgree(ratios: seq<real>, log: real -> real)
    ensures var r, e := Reported(ratios, log), Measured(ratios, log);
            && (r.Some? && e.Some? && e.value.median == r.value.median && e.value.pValue == r.value.pValue
                <==> Positive(ratios) && 1 <= |ratios| <= 20)
            && (r.Some? && e.Some? && e.value.median == r.value.median && e.value.pValue == r.value.pValue
                && r.value.interval == Some(e.value.interval) && r.value.coverage == Some(e.value.coverage)
                <==> Positive(ratios) && 6 <= |ratios| <= 20)
  {
    if ratios != [] { FormulasAgree(ratios, log); }
  }
}
