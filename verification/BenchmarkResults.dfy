/** Result rows of the paired coding benchmark and the release gate computed from them. */
module BenchmarkResults {
  import opened Wrappers
  import opened Binomials
  import opened RegressionGate

  const EXPLORER := "explorer"
  const GREPPY := "greppy"
  const GREPPY_EDIT := "greppy-edit"
  const ARMS: seq<string> := [EXPLORER, GREPPY, GREPPY_EDIT]

  const RESULT_SCHEMA := "greppy.agent-coding-results.v1"
  const MIN_COMPLETE_PAIRS := 30
  const MIN_SOLVED_PAIRS := 20

  datatype Agent = Agent(
    uncachedInput: nat, output: nat, cacheRead: nat, cacheWrite: nat,
    editCalls: nat, postEditSourceOpens: nat)

  /** A row of an arm that ran, or the sanitized record of a failure. */
  datatype Outcome = Measured(valid: bool, correct: bool, agent: Agent) | Failed

  datatype Row = Row(schema: string, taskId: string, arm: string, outcome: Outcome)

  type Key = (string, string)

  function KeyOf(row: Row): (k: Key) {
    (row.taskId, row.arm)
  }

  predicate ValidRow(row: Row) {
    row.outcome.Measured? && row.outcome.valid
  }

  // ----- The key-to-row map

  /** The dictionary built from a row list: a later row replaces an earlier one. */
  function ByKey(rows: seq<Row>): (m: map<Key, Row>) {
    if rows == [] then map[]
    else var last := rows[|rows| - 1]; ByKey(rows[..|rows| - 1])[KeyOf(last) := last]
  }

  predicate DistinctKeys(rows: seq<Row>) {
    forall i, j | 0 <= i < j < |rows| :: KeyOf(rows[i]) != KeyOf(rows[j])
  }

  /** The map holds exactly the rows, each under its key. */
  ghost predicate Holds(m: map<Key, Row>, rows: seq<Row>) {
    && (forall k | k in m :: KeyOf(m[k]) == k && m[k] in rows)
    && (forall row | row in rows :: KeyOf(row) in m && m[KeyOf(row)] == row)
  }

  lemma HoldsNext(m: map<Key, Row>, front: seq<Row>, last: Row)
    requires Holds(m, front) && DistinctKeys(front + [last])
    ensures Holds(m[KeyOf(last) := last], front + [last])
  {
    forall row | row in front ensures KeyOf(row) != KeyOf(last) {
      var i :| 0 <= i < |front| && front[i] == row;
      assert (front + [last])[i] == row && (front + [last])[|front|] == last;
    }
  }

  lemma {:induction false} ByKeyHolds(rows: seq<Row>)
    requires DistinctKeys(rows)
    ensures Holds(ByKey(rows), rows)
  {
    if rows == [] {
    } else {
      var front, last := rows[..|rows| - 1], rows[|rows| - 1];
      ByKeyHolds(front);
      assert rows == front + [last];
      HoldsNext(ByKey(front), front, last);
    }
  }

  /** Two lists without repeated keys that hold the same rows give the same dictionary,
      whatever their order. */
  lemma ByKeyOrderFree(a: seq<Row>, b: seq<Row>)
    requires DistinctKeys(a) && DistinctKeys(b)
    requires forall row :: row in a <==> row in b
    ensures ByKey(a) == ByKey(b)
  {
    ByKeyHolds(a);
    ByKeyHolds(b);
    forall k ensures k in ByKey(a) <==> k in ByKey(b) {
      if k in ByKey(a) { assert ByKey(a)[k] in b; }
      if k in ByKey(b) { assert ByKey(b)[k] in a; }
    }
    forall k | k in ByKey(a) ensures ByKey(a)[k] == ByKey(b)[k] {
      assert ByKey(a)[k] in b;
    }
  }

  // ----- Grading

  function Cost(a: Agent): (usd: real) {
    (a.uncachedInput as real * 0.30 + a.output as real * 1.20
     + a.cacheRead as real * 0.06 + a.cacheWrite as real * 0.00) / 1000000.0
  }

  /** round(x, 6), half to even. */
  function Round6(x: real): (r: real) {
    var y := x * 1000000.0;
    var f := y.Floor;
    var d := y - f as real;
    var n := if d < 0.5 || (d == 0.5 && f % 2 == 0) then f else f + 1;
    n as real / 1000000.0
  }

  function Ratio(numerator: real, denominator: real): (r: Option<real>) {
    if denominator > 0.0 then Some(Round6(numerator / denominator)) else None
  }

  type Pair = (Row, Row)

  predicate HasPair(m: map<Key, Row>, id: string) {
    && (id, EXPLORER) in m && (id, GREPPY_EDIT) in m
    && ValidRow(m[(id, EXPLORER)]) && ValidRow(m[(id, GREPPY_EDIT)])
  }

  predicate HasNavigationPair(m: map<Key, Row>, id: string) {
    HasPair(m, id) && (id, GREPPY) in m && ValidRow(m[(id, GREPPY)])
  }

  function CompletePairs(m: map<Key, Row>, ids: seq<string>): (ps: seq<Pair>) {
    if ids == [] then []
    else
      var id := ids[|ids| - 1];
      CompletePairs(m, ids[..|ids| - 1]) +
      if HasPair(m, id) then [(m[(id, EXPLORER)], m[(id, GREPPY_EDIT)])] else []
  }

  function NavigationPairs(m: map<Key, Row>, ids: seq<string>): (ps: seq<Pair>) {
    if ids == [] then []
    else
      var id := ids[|ids| - 1];
      NavigationPairs(m, ids[..|ids| - 1]) +
      if HasNavigationPair(m, id) then [(m[(id, EXPLORER)], m[(id, GREPPY)])] else []
  }

  function InvalidOrMissing(m: map<Key, Row>, ids: seq<string>): (r: seq<string>) {
    if ids == [] then []
    else
      var id := ids[|ids| - 1];
      InvalidOrMissing(m, ids[..|ids| - 1]) + if HasPair(m, id) then [] else [id]
  }

  predicate Correct(row: Row) {
    row.outcome.Measured? && row.outcome.correct
  }

  function Solved(ps: seq<Pair>): (r: seq<Pair>) {
    if ps == [] then []
    else
      var p := ps[|ps| - 1];
      Solved(ps[..|ps| - 1]) + if Correct(p.0) && Correct(p.1) then [p] else []
  }

  function Discordant(ps: seq<Pair>): (r: (nat, nat)) {
    (Count((p: Pair) => Correct(p.0) && !Correct(p.1), ps),
     Count((p: Pair) => Correct(p.1) && !Correct(p.0), ps))
  }

  function AgentOf(row: Row): (a: Agent) {
    if row.outcome.Measured? then row.outcome.agent else Agent(0, 0, 0, 0, 0, 0)
  }

  function SumCost(ps: seq<Pair>, second: bool): (c: real) {
    if ps == [] then 0.0
    else
      var p := ps[|ps| - 1];
      SumCost(ps[..|ps| - 1], second) + Cost(AgentOf(if second then p.1 else p.0))
  }

  function SumEdits(ps: seq<Pair>): (n: nat) {
    if ps == [] then 0 else SumEdits(ps[..|ps| - 1]) + AgentOf(ps[|ps| - 1].1).editCalls
  }

  function SumRereads(ps: seq<Pair>): (n: nat) {
    if ps == [] then 0 else SumRereads(ps[..|ps| - 1]) + AgentOf(ps[|ps| - 1].1).postEditSourceOpens
  }

  datatype Gate = Gate(
    passed: bool, complete: bool, sampleSizePass: bool, invalidOrMissing: seq<string>,
    completePairs: nat, solvedPairs: nat,
    baselineOnly: nat, candidateOnly: nat, pValue: real,
    costRatio: Option<real>, editCalls: nat, postEditSourceOpens: nat,
    navigationCostRatio: Option<real>)

  predicate RereadPass(editCalls: nat, rereads: nat) {
    editCalls != 0 && rereads as real / editCalls as real <= 0.1
  }

  predicate EfficiencyPass(costRatio: Option<real>) {
    costRatio.Some? && costRatio.value <= 0.80
  }

  function GateFor(pairs: seq<Pair>, nav: seq<Pair>, missing: seq<string>, expected: nat): (g: Gate) {
    var solved, navSolved := Solved(pairs), Solved(nav);
    var (b, c) := Discordant(pairs);
    var p := RegressionP(b, c);
    var costRatio := Ratio(SumCost(solved, true), SumCost(solved, false));
    var edits, rereads := SumEdits(solved), SumRereads(solved);
    var complete := missing == [] && |pairs| == expected;
    var sample := |pairs| >= MIN_COMPLETE_PAIRS && |solved| >= MIN_SOLVED_PAIRS;
    Gate(complete && sample && c >= b && p >= 0.05 && EfficiencyPass(costRatio) && RereadPass(edits, rereads),
         complete, sample, missing, |pairs|, |solved|, b, c, p, costRatio, edits, rereads,
         if navSolved == [] then None else Ratio(SumCost(navSolved, true), SumCost(navSolved, false)))
  }

  /** The gate as a function of the key-to-row map alone. */
  function Grade(m: map<Key, Row>, ids: seq<string>): (g: Gate) {
    GateFor(CompletePairs(m, ids), NavigationPairs(m, ids), InvalidOrMissing(m, ids), |ids|)
  }

  method GradeResults(rows: seq<Row>, expectedIds: seq<string>) returns (gate: Gate)
    ensures gate == Grade(ByKey(rows), expectedIds)
  {
    var byKey := ByKey(rows);
    var completePairs: seq<Pair>, navPairs: seq<Pair>, missing: seq<string> := [], [], [];
    for i := 0 to |expectedIds|
      invariant completePairs == CompletePairs(byKey, expectedIds[..i])
      invariant navPairs == NavigationPairs(byKey, expectedIds[..i])
      invariant missing == InvalidOrMissing(byKey, expectedIds[..i])
    {
      var id := expectedIds[i];
      assert expectedIds[..i + 1][..i] == expectedIds[..i];
      if (id, EXPLORER) !in byKey || (id, GREPPY_EDIT) !in byKey
         || !ValidRow(byKey[(id, EXPLORER)]) || !ValidRow(byKey[(id, GREPPY_EDIT)]) {
        missing := missing + [id];
        continue;
      }
      completePairs := completePairs + [(byKey[(id, EXPLORER)], byKey[(id, GREPPY_EDIT)])];
      if (id, GREPPY) in byKey && ValidRow(byKey[(id, GREPPY)]) {
        navPairs := navPairs + [(byKey[(id, EXPLORER)], byKey[(id, GREPPY)])];
      }
    }
    assert expectedIds[..|expectedIds|] == expectedIds;
    gate := GateFor(completePairs, navPairs, missing, |expectedIds|);
  }

  // ----- What the gate decides

  lemma {:induction false} PairsAndMissing(m: map<Key, Row>, ids: seq<string>)
    ensures |CompletePairs(m, ids)| + |InvalidOrMissing(m, ids)| == |ids|
    ensures InvalidOrMissing(m, ids) == [] <==> forall id | id in ids :: HasPair(m, id)
  {
    if ids == [] {
    } else {
      var front, id := ids[..|ids| - 1], ids[|ids| - 1];
      PairsAndMissing(m, front);
      assert ids == front + [id];
    }
  }

  /** Rounding to six places admits ratios up to half a unit above the registered 0.80. */
  lemma EfficiencyIff(candidate: real, baseline: real)
    ensures EfficiencyPass(Ratio(candidate, baseline)) <==>
            baseline > 0.0 && candidate <= 0.8000005 * baseline
  {
    if baseline > 0.0 {
      RoundedAtMost(candidate / baseline);
      QuotientAtMost(candidate, baseline, 0.8000005);
    }
  }

  lemma RoundedAtMost(x: real)
    ensures Round6(x) <= 0.80 <==> x <= 0.8000005
  {
    var y := x * 1000000.0;
    var f := y.Floor;
    if f == 800000 {
      assert f % 2 == 0;
    }
  }

  lemma QuotientAtMost(c: real, b: real, t: real)
    requires b > 0.0
    ensures c / b <= t <==> c <= t * b
  {
    var q := c / b;
    assert c == q * b;
    if q <= t {
      assert (t - q) * b >= 0.0;
    } else {
      assert (q - t) * b > 0.0;
    }
  }

  lemma RereadIff(edits: nat, rereads: nat)
    ensures RereadPass(edits, rereads) <==> edits > 0 && 10 * rereads <= edits
  {
    if edits > 0 { QuotientAtMost(rereads as real, edits as real, 0.1); }
  }

  /** The gate passes exactly when every task has both valid rows, the samples are large enough,
      the candidate wins at least as many discordant tasks as it loses, it costs at most
      0.8000005 times the baseline on the tasks both solved, and it rereads at most once per ten
      edits.  The regression alarm is not among the conditions: whenever the candidate does not
      lose, the alarm's value is at least one half. */
  lemma GatePassesIff(m: map<Key, Row>, ids: seq<string>)
    ensures var pairs := CompletePairs(m, ids);
            var solved := Solved(pairs);
            Grade(m, ids).passed <==>
              && (forall id | id in ids :: HasPair(m, id))
              && |ids| >= MIN_COMPLETE_PAIRS && |solved| >= MIN_SOLVED_PAIRS
              && Discordant(pairs).1 >= Discordant(pairs).0
              && 0.0 < SumCost(solved, false)
              && SumCost(solved, true) <= 0.8000005 * SumCost(solved, false)
              && SumEdits(solved) > 0 && 10 * SumRereads(solved) <= SumEdits(solved)
  {
    var pairs := CompletePairs(m, ids);
    var solved := Solved(pairs);
    PairsAndMissing(m, ids);
    var (b, c) := Discordant(pairs);
    AtLeastHalfIff(b, c);
    EfficiencyIff(SumCost(solved, true), SumCost(solved, false));
    RereadIff(SumEdits(solved), SumRereads(solved));
  }
}
