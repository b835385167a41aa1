/** A whole benchmark: finished runs of the worker protocol, sharded and merged or unsharded. */
module BenchmarkRuns {
  import opened Wrappers
  import opened BenchmarkResults
  import opened ShardMerge
  import opened Sorting
  import opened CheckpointStore
  import opened CheckpointProtocol
  import opened PreflightRecords

  /** One execution of the program on a list of tasks: its configuration, the states it passes
      through, and what it leaves behind. */
  datatype Execution = Execution(config: Config, states: seq<State>, who: seq<nat>, out: ShardOutput)

  /** The execution resumed checked rows, took exactly the pending tasks as jobs, and finished; its
      artifact lists its tasks and what its last checkpoint wrote. */
  ghost predicate FinishedExecution(x: Execution, tasks: seq<TaskEntry>) {
    && WellFormed(x.config) && x.config.ids == Ids(tasks)
    && Run(x.config, x.states, x.who) && Finished(Last(x))
    && x.out.entries == tasks && x.out.preflight == Last(x).disk.manifest && x.out.rows == Last(x).disk.rows
  }

  function Last(x: Execution): (s: State)
    requires |x.states| > |x.who|
  {
    x.states[|x.who|]
  }

  lemma IdsAre(tasks: seq<TaskEntry>)
    ensures forall id :: id in Ids(tasks) <==> id in IdSet(tasks)
  {
    forall id | id in Ids(tasks) ensures id in IdSet(tasks) {
      var i :| 0 <= i < |tasks| && Ids(tasks)[i] == id;
      assert tasks[i] in tasks;
    }
    forall id | id in IdSet(tasks) ensures id in Ids(tasks) {
      var t :| t in tasks && t.id == id;
      var i :| 0 <= i < |tasks| && tasks[i] == t;
      assert Ids(tasks)[i] == id;
    }
  }

  /** A finished execution leaves acceptable rows, among them the resumed ones and one for every task
      and selected arm. */
  lemma FinishedCovers(x: Execution, tasks: seq<TaskEntry>)
    requires FinishedExecution(x, tasks)
    ensures Acceptable(x.out.rows, Ids(tasks)) && x.out.rows == Ordered(Ids(tasks), Last(x).mem.rows)
    ensures multiset(x.config.existing) <= multiset(x.out.rows)
    ensures forall id, arm | id in Ids(tasks) && arm in x.config.selected :: (id, arm) in KeySet(x.out.rows)
    ensures forall row | row in x.out.rows :: row in x.config.existing || row.arm in x.config.selected
  {
    var c, ids, s := x.config, Ids(tasks), Last(x);
    FinishedRun(c, x.states, x.who);
    RunKeepsInv(c, x.states, x.who, |x.who|);
    ReachedAcceptable(c, s);
    AcceptableOrdered(ids, s.mem.rows, ids);
    OrderedKeeps(ids, s.mem.rows);
    PrefixElements(c.existing, s.mem.rows);
    AllCovered(c, s.mem.rows);
    NewAreSelected(c, s.mem.rows);
  }

  lemma AllCovered(c: Config, rows: seq<Row>)
    requires WellFormed(c) && c.existing <= rows
    requires forall id, arm | id in c.pending && arm in c.selected :: (id, arm) in KeySet(rows)
    ensures forall id, arm | id in c.ids && arm in c.selected :: (id, arm) in KeySet(rows)
  {
    PendingMembers(c.existing, c.ids, c.selected);
    KeySetGrows(c.existing, rows);
  }

  lemma NewAreSelected(c: Config, rows: seq<Row>)
    requires c.existing <= rows && NewRows(c, rows)
    ensures forall row | row in rows :: row in c.existing || row.arm in c.selected
  {
    forall row | row in rows ensures row in c.existing || row.arm in c.selected {
      var k :| 0 <= k < |rows| && rows[k] == row;
      if k < |c.existing| { assert c.existing[k] == row; }
    }
  }

  lemma KeySetGrows(a: seq<Row>, b: seq<Row>)
    requires a <= b
    ensures KeySet(a) <= KeySet(b)
  {
    forall k | k in KeySet(a) ensures k in KeySet(b) {
      var row :| row in a && KeyOf(row) == k;
      var i :| 0 <= i < |a| && a[i] == row;
      assert b[i] == row;
    }
  }

  /** The coverage test at the end of a shard. */
  predicate CoverageComplete(rows: seq<Row>, ids: seq<string>, selected: seq<string>) {
    KeySet(rows) == set id, arm | id in ids && arm in selected :: (id, arm)
  }

  /** A finished execution passes the coverage test if and only if no resumed row is of an arm that
      was not selected. */
  lemma CoverageIff(x: Execution, tasks: seq<TaskEntry>)
    requires FinishedExecution(x, tasks)
    ensures CoverageComplete(Last(x).mem.rows, Ids(tasks), x.config.selected) <==>
            forall row | row in x.config.existing :: row.arm in x.config.selected
  {
    FinishedCovers(x, tasks);
    var rows, ids, selected := x.out.rows, Ids(tasks), x.config.selected;
    KeySetOf(rows, Last(x).mem.rows);
    var wanted := set id, arm | id in ids && arm in selected :: (id, arm);
    if forall row | row in x.config.existing :: row.arm in selected {
      forall k | k in KeySet(rows) ensures k in wanted {
        var row :| row in rows && KeyOf(row) == k;
      }
      assert KeySet(rows) == wanted;
    } else {
      var row :| row in x.config.existing && row.arm !in selected;
      assert row in multiset(x.config.existing) && row in multiset(rows);
      assert KeyOf(row) in KeySet(rows) && KeyOf(row) !in wanted;
    }
  }

  /** Every row of the execution is the result of its task and arm. */
  ghost predicate Yields(x: Execution, results: map<Key, Row>) {
    forall row | row in x.out.rows :: KeyOf(row) in results && results[KeyOf(row)] == row
  }

  ghost predicate FullExecution(x: Execution, tasks: seq<TaskEntry>, results: map<Key, Row>) {
    FinishedExecution(x, tasks) && x.config.selected == ARMS && Yields(x, results)
  }

  /** A finished execution of all arms is a complete run. */
  lemma FinishedIsComplete(x: Execution, tasks: seq<TaskEntry>, results: map<Key, Row>)
    requires FullExecution(x, tasks, results)
    ensures CompleteRun(x.out, tasks, results)
  {
    FinishedCovers(x, tasks);
    IdsAre(tasks);
    OwnManifest(x, tasks);
    forall row | KeyOf(row) in KeysFor(IdSet(tasks)) && KeyOf(row) in results && results[KeyOf(row)] == row
      ensures row in x.out.rows
    {
      assert KeyOf(row) in KeySet(x.out.rows);
      var other :| other in x.out.rows && KeyOf(other) == KeyOf(row);
    }
    forall k | k in KeysFor(IdSet(tasks)) ensures k in results {
      assert k in KeySet(x.out.rows);
      var row :| row in x.out.rows && KeyOf(row) == k;
    }
  }

  lemma OwnManifest(x: Execution, tasks: seq<TaskEntry>)
    requires FinishedExecution(x, tasks)
    ensures x.out.preflight.Keys <= IdSet(tasks)
  {
    IdsAre(tasks);
    RunKeepsPreflights(x.config, x.states, x.who, |x.who|);
    PendingMembers(x.config.existing, x.config.ids, x.config.selected);
  }

  /** The task's preflight was in the manifest the execution resumed, or the task was pending and
      neither its clone nor its preflight raised. */
  ghost predicate PreparedIn(x: Execution, id: string) {
    |x.who| < |x.states| && Prepared(x.config, x.states, x.who, id)
  }

  /** The artifact of a finished execution holds all preflights if and only if every task is
      prepared. */
  lemma PreflightsIff(x: Execution, tasks: seq<TaskEntry>)
    requires FinishedExecution(x, tasks)
    ensures x.out.preflight.Keys == IdSet(tasks) <==> forall id | id in Ids(tasks) :: PreparedIn(x, id)
  {
    IdsAre(tasks);
    OwnManifest(x, tasks);
    forall id ensures id in x.out.preflight <==> PreparedIn(x, id) {
      FinishedPreflights(x.config, x.states, x.who, id);
    }
  }

  function Outs(xs: seq<Execution>): (outs: seq<ShardOutput>)
    ensures |outs| == |xs| && forall i | 0 <= i < |xs| :: outs[i] == xs[i].out
  {
    seq(|xs|, i requires 0 <= i < |xs| => xs[i].out)
  }

  /** All tasks of all shards are prepared. */
  ghost predicate AllTasksPrepared(xs: seq<Execution>, parts: seq<seq<TaskEntry>>)
    requires |xs| == |parts|
  {
    forall j, id | 0 <= j < |xs| && id in Ids(parts[j]) :: PreparedIn(xs[j], id)
  }

  lemma AllPreparedIff(xs: seq<Execution>, parts: seq<seq<TaskEntry>>)
    requires |xs| == |parts| && forall j | 0 <= j < |xs| :: FinishedExecution(xs[j], parts[j])
    ensures AllPrepared(Outs(xs), parts) <==> AllTasksPrepared(xs, parts)
  {
    forall j | 0 <= j < |xs|
      ensures Outs(xs)[j].preflight.Keys == IdSet(parts[j]) <==> forall id | id in Ids(parts[j]) :: PreparedIn(xs[j], id)
    {
      PreflightsIff(xs[j], parts[j]);
    }
  }

  /** Splitting the tasks by modulo, finishing every non-empty shard under any interleaving and after
      any resumption, and merging the artifacts in any order succeeds if and only if no task is left
      without a preflight, and the rows then have exactly the grade of a finished unsharded execution
      with the same results. */
  lemma ShardedBenchmark(
    tasks: seq<TaskEntry>, count: nat, order: seq<nat>, parts: seq<seq<TaskEntry>>, xs: seq<Execution>,
    whole: Execution, results: map<Key, Row>)
    requires Sharding(tasks, count, order, parts) && |parts| == |xs| > 0
    requires Results(results) && SameIdentity(Outs(xs))
    requires forall j | 0 <= j < |xs| :: FullExecution(xs[j], parts[j], results)
    requires FullExecution(whole, tasks, results)
    ensures Mergeable(Outs(xs), tasks) <==> AllTasksPrepared(xs, parts)
    ensures Grade(ByKey(AllRows(Outs(xs))), Ids(tasks)) == Grade(ByKey(Last(whole).mem.rows), Ids(tasks))
  {
    forall j | 0 <= j < |xs| ensures CompleteRun(Outs(xs)[j], parts[j], results) {
      FinishedIsComplete(xs[j], parts[j], results);
    }
    FinishedIsComplete(whole, tasks, results);
    ShardedEqualsUnsharded(tasks, count, order, parts, Outs(xs), whole.out, results);
    AllPreparedIff(xs, parts);
    SavedGrade(whole, tasks);
  }

  /** The grade does not see that the file is sorted. */
  lemma SavedGrade(x: Execution, tasks: seq<TaskEntry>)
    requires FinishedExecution(x, tasks)
    ensures Grade(ByKey(x.out.rows), Ids(tasks)) == Grade(ByKey(Last(x).mem.rows), Ids(tasks))
  {
    FinishedCovers(x, tasks);
    FinishedRun(x.config, x.states, x.who);
    SameElements(x.out.rows, Last(x).mem.rows);
    ByKeyOrderFree(x.out.rows, Last(x).mem.rows);
  }

  /** Every benchmark with a task has an execution that finishes with a row for every task and arm,
      and so is graded, and that no merge accepts: all its clones raise. */
  lemma RaisingExecution(c: Config, tasks: seq<TaskEntry>, identity: string) returns (x: Execution)
    requires WellFormed(c) && c.ids == Ids(tasks) && tasks != [] && c.selected == ARMS && c.preflights == map[]
    ensures FinishedExecution(x, tasks) && x.config == c
    ensures KeySet(x.out.rows) == KeysFor(IdSet(tasks)) && !Mergeable([x.out], tasks)
  {
    var t, who := RaisingRun(c);
    x := Execution(c, t, who, ShardOutput(identity, tasks, t[|who|].disk.manifest, t[|who|].disk.rows));
    FinishedCovers(x, tasks);
    IdsAre(tasks);
    assert tasks[0].id in IdSet(tasks);
    assert AllPreflights([x.out]) == {} by { assert [x.out][..0] == []; }
    forall k | k in KeySet(x.out.rows) ensures k in KeysFor(IdSet(tasks)) {
      var row :| row in x.out.rows && KeyOf(row) == k;
    }
  }
}
