/** What every field of the release gate says about the rows of the arms, task by task. */
module GateMeaning {
  import opened Wrappers
  import opened Binomials
  import opened RegressionGate
  import opened KeyedLists
  import opened BenchmarkResults

  // ----- Rows by task and arm

  predicate Valid(m: map<Key, Row>, id: string, arm: string) {
    (id, arm) in m && m[(id, arm)].outcome.Measured? && m[(id, arm)].outcome.valid
  }

  /** The arm has a valid row for the task, and it is correct. */
  predicate Solves(m: map<Key, Row>, id: string, arm: string) {
    Valid(m, id, arm) && m[(id, arm)].outcome.correct
  }

  /** Provider dollars of a valid row: prices per million tokens, cache writes free. */
  function Dollars(m: map<Key, Row>, id: string, arm: string): (usd: real) {
    if Valid(m, id, arm) then
      var a := m[(id, arm)].outcome.agent;
      a.uncachedInput as real * 0.0000003 + a.output as real * 0.0000012 + a.cacheRead as real * 0.00000006
    else 0.0
  }

  function Edits(m: map<Key, Row>, id: string, arm: string): (n: nat) {
    if Valid(m, id, arm) then m[(id, arm)].outcome.agent.editCalls else 0
  }

  function Rereads(m: map<Key, Row>, id: string, arm: string): (n: nat) {
    if Valid(m, id, arm) then m[(id, arm)].outcome.agent.postEditSourceOpens else 0
  }

  function Total(f: string -> real, ids: seq<string>): (t: real) {
    if ids == [] then 0.0 else Total(f, ids[..|ids| - 1]) + f(ids[|ids| - 1])
  }

  function TotalCount(f: string -> nat, ids: seq<string>): (t: nat) {
    if ids == [] then 0 else TotalCount(f, ids[..|ids| - 1]) + f(ids[|ids| - 1])
  }

  predicate Paired(m: map<Key, Row>, id: string) {
    Valid(m, id, "explorer") && Valid(m, id, "greppy-edit")
  }

  predicate BothSolve(m: map<Key, Row>, id: string) {
    Solves(m, id, "explorer") && Solves(m, id, "greppy-edit")
  }

  predicate NavigationSolves(m: map<Key, Row>, id: string) {
    Paired(m, id) && Solves(m, id, "explorer") && Solves(m, id, "greppy")
  }

  lemma PairIs(m: map<Key, Row>, id: string)
    ensures HasPair(m, id) <==> Paired(m, id)
    ensures HasNavigationPair(m, id) <==> Paired(m, id) && Valid(m, id, "greppy")
  {
  }

  lemma DollarsAre(m: map<Key, Row>, id: string, arm: string)
    requires Valid(m, id, arm)
    ensures Cost(AgentOf(m[(id, arm)])) == Dollars(m, id, arm)
  {
  }

  // ----- Appending one pair

  lemma SolvedAppend(ps: seq<Pair>, p: Pair)
    ensures Solved(ps + [p]) == Solved(ps) + if Correct(p.0) && Correct(p.1) then [p] else []
  {
    assert (ps + [p])[..|ps|] == ps;
  }

  lemma DiscordantAppend(ps: seq<Pair>, p: Pair)
    ensures Discordant(ps + [p]).0 == Discordant(ps).0 + if Correct(p.0) && !Correct(p.1) then 1 else 0
    ensures Discordant(ps + [p]).1 == Discordant(ps).1 + if Correct(p.1) && !Correct(p.0) then 1 else 0
  {
    CountConcat((q: Pair) => Correct(q.0) && !Correct(q.1), ps, [p]);
    CountConcat((q: Pair) => Correct(q.1) && !Correct(q.0), ps, [p]);
    assert [p][1..] == [];
  }

  // ----- Counts

  function BaselineAlone(m: map<Key, Row>): (p: string -> bool) {
    id => Paired(m, id) && Solves(m, id, "explorer") && !Solves(m, id, "greppy-edit")
  }

  function CandidateAlone(m: map<Key, Row>): (p: string -> bool) {
    id => Paired(m, id) && Solves(m, id, "greppy-edit") && !Solves(m, id, "explorer")
  }

  function PairedIn(m: map<Key, Row>): (p: string -> bool) {
    id => Paired(m, id)
  }

  function SolvedIn(m: map<Key, Row>): (p: string -> bool) {
    id => BothSolve(m, id)
  }

  function NavigationIn(m: map<Key, Row>): (p: string -> bool) {
    id => NavigationSolves(m, id)
  }

  lemma CountLast(p: string -> bool, ids: seq<string>)
    requires ids != []
    ensures Count(p, ids) == Count(p, ids[..|ids| - 1]) + if p(ids[|ids| - 1]) then 1 else 0
  {
    var n := |ids| - 1;
    CountConcat(p, ids[..n], [ids[n]]);
    assert ids == ids[..n] + [ids[n]] && [ids[n]][1..] == [];
  }

  lemma PairsLast(m: map<Key, Row>, ids: seq<string>)
    requires ids != []
    ensures var front, id := ids[..|ids| - 1], ids[|ids| - 1];
            && CompletePairs(m, ids) ==
               (if Paired(m, id) then CompletePairs(m, front) + [(m[(id, "explorer")], m[(id, "greppy-edit")])]
                else CompletePairs(m, front))
            && NavigationPairs(m, ids) ==
               (if Paired(m, id) && Valid(m, id, "greppy")
                then NavigationPairs(m, front) + [(m[(id, "explorer")], m[(id, "greppy")])]
                else NavigationPairs(m, front))
            && InvalidOrMissing(m, ids) ==
               (if Paired(m, id) then InvalidOrMissing(m, front) else InvalidOrMissing(m, front) + [id])
  {
    PairIs(m, ids[|ids| - 1]);
  }

  lemma {:induction false} DiscordantCounts(m: map<Key, Row>, ids: seq<string>)
    ensures Discordant(CompletePairs(m, ids)).0 == Count(BaselineAlone(m), ids)
    ensures Discordant(CompletePairs(m, ids)).1 == Count(CandidateAlone(m), ids)
  {
    if ids == [] {
    } else {
      var front, id := ids[..|ids| - 1], ids[|ids| - 1];
      DiscordantCounts(m, front);
      PairsLast(m, ids);
      CountLast(BaselineAlone(m), ids);
      CountLast(CandidateAlone(m), ids);
      if Paired(m, id) {
        DiscordantAppend(CompletePairs(m, front), (m[(id, "explorer")], m[(id, "greppy-edit")]));
      }
    }
  }

  lemma {:induction false} PairCounts(m: map<Key, Row>, ids: seq<string>)
    ensures |CompletePairs(m, ids)| == Count(PairedIn(m), ids)
    ensures |Solved(CompletePairs(m, ids))| == Count(SolvedIn(m), ids)
    ensures |Solved(NavigationPairs(m, ids))| == Count(NavigationIn(m), ids)
  {
    if ids == [] {
    } else {
      var front, id := ids[..|ids| - 1], ids[|ids| - 1];
      PairCounts(m, front);
      PairsLast(m, ids);
      CountLast(PairedIn(m), ids);
      CountLast(SolvedIn(m), ids);
      CountLast(NavigationIn(m), ids);
      if Paired(m, id) {
        SolvedAppend(CompletePairs(m, front), (m[(id, "explorer")], m[(id, "greppy-edit")]));
        if Valid(m, id, "greppy") {
          SolvedAppend(NavigationPairs(m, front), (m[(id, "explorer")], m[(id, "greppy")]));
        }
      }
    }
  }

  // ----- Sums over the tasks both arms solve

  function CostWhere(m: map<Key, Row>, p: string -> bool, arm: string): (f: string -> real) {
    id => if p(id) then Dollars(m, id, arm) else 0.0
  }

  function EditsWhere(m: map<Key, Row>, p: string -> bool, arm: string): (f: string -> nat) {
    id => if p(id) then Edits(m, id, arm) else 0
  }

  function RereadsWhere(m: map<Key, Row>, p: string -> bool, arm: string): (f: string -> nat) {
    id => if p(id) then Rereads(m, id, arm) else 0
  }

  function PairSum(w: Pair -> real, ps: seq<Pair>): (t: real) {
    if ps == [] then 0.0 else PairSum(w, ps[..|ps| - 1]) + w(ps[|ps| - 1])
  }

  function PairCount(w: Pair -> nat, ps: seq<Pair>): (t: nat) {
    if ps == [] then 0 else PairCount(w, ps[..|ps| - 1]) + w(ps[|ps| - 1])
  }

  lemma PairSumsAppend(w: Pair -> real, u: Pair -> nat, ps: seq<Pair>, p: Pair)
    ensures PairSum(w, ps + [p]) == PairSum(w, ps) + w(p)
    ensures PairCount(u, ps + [p]) == PairCount(u, ps) + u(p)
  {
    assert (ps + [p])[..|ps|] == ps;
  }

  function PairOf(m: map<Key, Row>, id: string, arm: string): (p: Pair)
    requires Valid(m, id, "explorer") && Valid(m, id, arm)
  {
    (m[(id, "explorer")], m[(id, arm)])
  }

  lemma SolvedLast(m: map<Key, Row>, ids: seq<string>)
    requires ids != []
    ensures var front, id := ids[..|ids| - 1], ids[|ids| - 1];
            && Solved(CompletePairs(m, ids)) ==
               (if BothSolve(m, id) then Solved(CompletePairs(m, front)) + [PairOf(m, id, "greppy-edit")]
                else Solved(CompletePairs(m, front)))
            && Solved(NavigationPairs(m, ids)) ==
               (if NavigationSolves(m, id) then Solved(NavigationPairs(m, front)) + [PairOf(m, id, "greppy")]
                else Solved(NavigationPairs(m, front)))
  {
    var front, id := ids[..|ids| - 1], ids[|ids| - 1];
    PairsLast(m, ids);
    if Paired(m, id) {
      SolvedAppend(CompletePairs(m, front), PairOf(m, id, "greppy-edit"));
      if Valid(m, id, "greppy") { SolvedAppend(NavigationPairs(m, front), PairOf(m, id, "greppy")); }
    }
  }

  /** Any weight of pairs, summed over the solved ones, is its sum over the tasks. */
  lemma {:induction false} SolvedTotals(m: map<Key, Row>, ids: seq<string>, w: Pair -> real, f: string -> real)
    requires forall id :: f(id) == if BothSolve(m, id) then w(PairOf(m, id, "greppy-edit")) else 0.0
    ensures PairSum(w, Solved(CompletePairs(m, ids))) == Total(f, ids)
  {
    if ids == [] {
    } else {
      var front, id := ids[..|ids| - 1], ids[|ids| - 1];
      SolvedTotals(m, front, w, f);
      SolvedLast(m, ids);
      if BothSolve(m, id) {
        PairSumsAppend(w, (q: Pair) => 0, Solved(CompletePairs(m, front)), PairOf(m, id, "greppy-edit"));
      }
    }
  }

  lemma {:induction false} SolvedCounts(m: map<Key, Row>, ids: seq<string>, u: Pair -> nat, g: string -> nat)
    requires forall id :: g(id) == if BothSolve(m, id) then u(PairOf(m, id, "greppy-edit")) else 0
    ensures PairCount(u, Solved(CompletePairs(m, ids))) == TotalCount(g, ids)
  {
    if ids == [] {
    } else {
      var front, id := ids[..|ids| - 1], ids[|ids| - 1];
      SolvedCounts(m, front, u, g);
      SolvedLast(m, ids);
      if BothSolve(m, id) {
        PairSumsAppend((q: Pair) => 0.0, u, Solved(CompletePairs(m, front)), PairOf(m, id, "greppy-edit"));
      }
    }
  }

  lemma {:induction false} NavigationSums(m: map<Key, Row>, ids: seq<string>, w: Pair -> real, f: string -> real)
    requires forall id :: f(id) == if NavigationSolves(m, id) then w(PairOf(m, id, "greppy")) else 0.0
    ensures PairSum(w, Solved(NavigationPairs(m, ids))) == Total(f, ids)
  {
    if ids == [] {
    } else {
      var front, id := ids[..|ids| - 1], ids[|ids| - 1];
      NavigationSums(m, front, w, f);
      SolvedLast(m, ids);
      if NavigationSolves(m, id) {
        PairSumsAppend(w, (q: Pair) => 0, Solved(NavigationPairs(m, front)), PairOf(m, id, "greppy"));
      }
    }
  }

  function CostOf(second: bool): (w: Pair -> real) {
    (p: Pair) => Cost(AgentOf(if second then p.1 else p.0))
  }

  function EditsOf(): (u: Pair -> nat) {
    (p: Pair) => AgentOf(p.1).editCalls
  }

  function RereadsOf(): (u: Pair -> nat) {
    (p: Pair) => AgentOf(p.1).postEditSourceOpens
  }

  lemma {:induction false} SumsAre(ps: seq<Pair>)
    ensures SumCost(ps, true) == PairSum(CostOf(true), ps) && SumCost(ps, false) == PairSum(CostOf(false), ps)
    ensures SumEdits(ps) == PairCount(EditsOf(), ps) && SumRereads(ps) == PairCount(RereadsOf(), ps)
  {
    if ps == [] {
    } else {
      SumsAre(ps[..|ps| - 1]);
    }
  }

  lemma CostTotals(m: map<Key, Row>, ids: seq<string>)
    ensures var solved := Solved(CompletePairs(m, ids));
            && SumCost(solved, false) == Total(CostWhere(m, SolvedIn(m), "explorer"), ids)
            && SumCost(solved, true) == Total(CostWhere(m, SolvedIn(m), "greppy-edit"), ids)
            && SumEdits(solved) == TotalCount(EditsWhere(m, SolvedIn(m), "greppy-edit"), ids)
            && SumRereads(solved) == TotalCount(RereadsWhere(m, SolvedIn(m), "greppy-edit"), ids)
  {
    var base, other := CostWhere(m, SolvedIn(m), "explorer"), CostWhere(m, SolvedIn(m), "greppy-edit");
    forall id ensures base(id) == if BothSolve(m, id) then CostOf(false)(PairOf(m, id, "greppy-edit")) else 0.0 {
      if BothSolve(m, id) { DollarsAre(m, id, "explorer"); }
    }
    forall id ensures other(id) == if BothSolve(m, id) then CostOf(true)(PairOf(m, id, "greppy-edit")) else 0.0 {
      if BothSolve(m, id) { DollarsAre(m, id, "greppy-edit"); }
    }
    SumsAre(Solved(CompletePairs(m, ids)));
    SolvedTotals(m, ids, CostOf(false), base);
    SolvedTotals(m, ids, CostOf(true), other);
    SolvedCounts(m, ids, EditsOf(), EditsWhere(m, SolvedIn(m), "greppy-edit"));
    SolvedCounts(m, ids, RereadsOf(), RereadsWhere(m, SolvedIn(m), "greppy-edit"));
  }

  lemma NavigationTotals(m: map<Key, Row>, ids: seq<string>)
    ensures var solved := Solved(NavigationPairs(m, ids));
            && SumCost(solved, false) == Total(CostWhere(m, NavigationIn(m), "explorer"), ids)
            && SumCost(solved, true) == Total(CostWhere(m, NavigationIn(m), "greppy"), ids)
  {
    var base, other := CostWhere(m, NavigationIn(m), "explorer"), CostWhere(m, NavigationIn(m), "greppy");
    forall id ensures base(id) == if NavigationSolves(m, id) then CostOf(false)(PairOf(m, id, "greppy")) else 0.0 {
      if NavigationSolves(m, id) { DollarsAre(m, id, "explorer"); }
    }
    forall id ensures other(id) == if NavigationSolves(m, id) then CostOf(true)(PairOf(m, id, "greppy")) else 0.0 {
      if NavigationSolves(m, id) { DollarsAre(m, id, "greppy"); }
    }
    SumsAre(Solved(NavigationPairs(m, ids)));
    NavigationSums(m, ids, CostOf(false), base);
    NavigationSums(m, ids, CostOf(true), other);
  }

  // ----- The fields of the gate

  /** round(x, 6): the nearest multiple of a millionth, an even one where two are as near. */
  lemma RoundMeans(x: real) returns (n: int)
    ensures Round6(x) == n as real / 1000000.0
    ensures -0.5 <= x * 1000000.0 - n as real <= 0.5
    ensures x * 1000000.0 - n as real == 0.5 || x * 1000000.0 - n as real == -0.5 ==> n % 2 == 0
  {
    var y := x * 1000000.0;
    var f := y.Floor;
    var d := y - f as real;
    n := if d < 0.5 || (d == 0.5 && f % 2 == 0) then f else f + 1;
  }

  /** The rounded ratio of what the second arm costs to what the first costs, over the tasks where p
      holds; none where the first costs nothing. */
  function CostRatio(m: map<Key, Row>, ids: seq<string>, p: string -> bool, first: string, second: string)
    : (r: Option<real>)
  {
    var base, other := Total(CostWhere(m, p, first), ids), Total(CostWhere(m, p, second), ids);
    if base > 0.0 then Some(Round6(other / base)) else None
  }

  lemma {:induction false} MissingAre(m: map<Key, Row>, ids: seq<string>)
    ensures forall id :: id in InvalidOrMissing(m, ids) <==> id in ids && !Paired(m, id)
    ensures |InvalidOrMissing(m, ids)| == |ids| - Count(PairedIn(m), ids)
  {
    if ids == [] {
    } else {
      var front, id := ids[..|ids| - 1], ids[|ids| - 1];
      MissingAre(m, front);
      PairsLast(m, ids);
      CountLast(PairedIn(m), ids);
      assert ids == front + [id];
    }
  }

  /** The counts of the gate, in tasks: pairs of valid rows of the explorer and the greppy-edit arm, tasks
      both solve, and tasks one of them solves alone. */
  lemma CountsMean(m: map<Key, Row>, ids: seq<string>)
    ensures var g := Grade(m, ids);
            && g.completePairs == |set i | 0 <= i < |ids| && Paired(m, ids[i])|
            && g.solvedPairs == |set i | 0 <= i < |ids| && BothSolve(m, ids[i])|
            && g.baselineOnly == |set i | 0 <= i < |ids| && Paired(m, ids[i])
                                          && Solves(m, ids[i], "explorer") && !Solves(m, ids[i], "greppy-edit")|
            && g.candidateOnly == |set i | 0 <= i < |ids| && Paired(m, ids[i])
                                           && Solves(m, ids[i], "greppy-edit") && !Solves(m, ids[i], "explorer")|
            && g.pValue == RegressionP(g.baselineOnly, g.candidateOnly)
            && (g.complete <==> forall id | id in ids :: Paired(m, id))
            && (forall id :: id in g.invalidOrMissing <==> id in ids && !Paired(m, id))
            && (g.sampleSizePass <==> g.completePairs >= 30 && g.solvedPairs >= 20)
  {
    DiscordantCounts(m, ids);
    PairCounts(m, ids);
    MissingAre(m, ids);
    PairsAndMissing(m, ids);
    PairSizes(m, ids);
    AloneSizes(m, ids);
  }

  lemma PairSizes(m: map<Key, Row>, ids: seq<string>)
    ensures Count(PairedIn(m), ids) == |set i | 0 <= i < |ids| && Paired(m, ids[i])|
    ensures Count(SolvedIn(m), ids) == |set i | 0 <= i < |ids| && BothSolve(m, ids[i])|
  {
    CountIsSize(PairedIn(m), ids, set i | 0 <= i < |ids| && Paired(m, ids[i]));
    CountIsSize(SolvedIn(m), ids, set i | 0 <= i < |ids| && BothSolve(m, ids[i]));
  }

  lemma AloneSizes(m: map<Key, Row>, ids: seq<string>)
    ensures Count(BaselineAlone(m), ids) ==
            |set i | 0 <= i < |ids| && Paired(m, ids[i])
                     && Solves(m, ids[i], "explorer") && !Solves(m, ids[i], "greppy-edit")|
    ensures Count(CandidateAlone(m), ids) ==
            |set i | 0 <= i < |ids| && Paired(m, ids[i])
                     && Solves(m, ids[i], "greppy-edit") && !Solves(m, ids[i], "explorer")|
  {
    CountIsSize(BaselineAlone(m), ids, set i | 0 <= i < |ids| && Paired(m, ids[i])
                                               && Solves(m, ids[i], "explorer") && !Solves(m, ids[i], "greppy-edit"));
    CountIsSize(CandidateAlone(m), ids, set i | 0 <= i < |ids| && Paired(m, ids[i])
                                                && Solves(m, ids[i], "greppy-edit") && !Solves(m, ids[i], "explorer"));
  }

  /** The sums of the gate: greppy-edit against explorer over the tasks both solve, edits and rereads of
      greppy-edit there, and greppy against explorer over the tasks of complete pairs these two solve. */
  lemma SumsMean(m: map<Key, Row>, ids: seq<string>)
    ensures var g := Grade(m, ids);
            && g.costRatio == CostRatio(m, ids, SolvedIn(m), "explorer", "greppy-edit")
            && g.editCalls == TotalCount(EditsWhere(m, SolvedIn(m), "greppy-edit"), ids)
            && g.postEditSourceOpens == TotalCount(RereadsWhere(m, SolvedIn(m), "greppy-edit"), ids)
            && g.navigationCostRatio ==
               (if exists id | id in ids :: NavigationSolves(m, id)
                then CostRatio(m, ids, NavigationIn(m), "explorer", "greppy") else None)
  {
    CostTotals(m, ids);
    NavigationTotals(m, ids);
    PairCounts(m, ids);
    SomeNavigation(m, ids);
  }

  lemma {:induction false} SomeNavigation(m: map<Key, Row>, ids: seq<string>)
    ensures Count(NavigationIn(m), ids) > 0 <==> exists id | id in ids :: NavigationSolves(m, id)
  {
    if ids == [] {
    } else {
      SomeNavigation(m, ids[..|ids| - 1]);
      CountLast(NavigationIn(m), ids);
      assert ids == ids[..|ids| - 1] + [ids[|ids| - 1]];
    }
  }

  /** The gate passes exactly when every task has valid rows of both arms, there are at least 30 of them
      and 20 that both solve, greppy-edit alone solves at least as many as explorer alone, it costs at
      most 0.8000005 times as much on the tasks both solve, and rereads at most once per ten edits. */
  lemma PassesMeans(m: map<Key, Row>, ids: seq<string>)
    ensures var g := Grade(m, ids);
            var base := Total(CostWhere(m, SolvedIn(m), "explorer"), ids);
            var edits := TotalCount(EditsWhere(m, SolvedIn(m), "greppy-edit"), ids);
            g.passed <==>
              && (forall id | id in ids :: Paired(m, id))
              && |ids| >= 30 && |set i | 0 <= i < |ids| && BothSolve(m, ids[i])| >= 20
              && g.candidateOnly >= g.baselineOnly
              && base > 0.0 && Total(CostWhere(m, SolvedIn(m), "greppy-edit"), ids) <= 0.8000005 * base
              && edits > 0 && 10 * TotalCount(RereadsWhere(m, SolvedIn(m), "greppy-edit"), ids) <= edits
  {
    GatePassesIff(m, ids);
    CountsMean(m, ids);
    CostTotals(m, ids);
    forall id | id in ids ensures HasPair(m, id) <==> Paired(m, id) { PairIs(m, id); }
  }
}
