/** Sharded benchmark runs: the modulo split of the tasks, the checks on resumed or merged rows,
    and merging shard artifacts into one graded run. */
module ShardMerge {
  import opened Wrappers
  import opened BenchmarkResults

  // ----- The modulo split

  function Shard<T>(tasks: seq<T>, count: nat, index: nat): (r: seq<T>)
    requires count > 0
  {
    if tasks == [] then []
    else
      var n := |tasks| - 1;
      Shard(tasks[..n], count, index) + if n % count == index then [tasks[n]] else []
  }

  /** The size of a shard: the next position it would take is the first one not yet split. */
  lemma {:induction false} ShardSize<T>(tasks: seq<T>, count: nat, index: nat)
    requires index < count
    ensures var z := |Shard(tasks, count, index)|;
            (z - 1) * count + index < |tasks| <= z * count + index
  {
    if tasks == [] {
      assert -1 * count + index < 0;
    } else {
      var n := |tasks| - 1;
      ShardSize(tasks[..n], count, index);
      NextPosition(|Shard(tasks[..n], count, index)|, n, count, index);
    }
  }

  lemma Products(a: int, b: int, c: nat)
    requires a < b && c > 0
    ensures a * c + c <= b * c
  {
    assert (b - a - 1) * c >= 0;
    assert b * c == a * c + c + (b - a - 1) * c;
  }

  lemma UniqueQuotient(q: int, r: nat, z: int, s: nat, count: nat)
    requires r < count && s < count && q * count + r == z * count + s
    ensures q == z && r == s
  {
    if q < z { Products(q, z, count); }
    if z < q { Products(z, q, count); }
  }

  lemma ModuloOf(z: nat, count: nat, index: nat)
    requires index < count
    ensures (z * count + index) % count == index
    ensures (z * count + index) / count == z
  {
    var n := z * count + index;
    UniqueQuotient(n / count, n % count, z, index, count);
  }

  lemma NextPosition(z: nat, n: nat, count: nat, index: nat)
    requires index < count
    requires (z - 1) * count + index < n <= z * count + index
    ensures n % count == index <==> n == z * count + index
    ensures n + 1 <= (z + 1) * count + index
  {
    Products(z, z + 1, count);
    ModuloOf(z, count, index);
    if n % count == index {
      var q := n / count;
      assert n == q * count + index;
      if q < z - 1 { Products(q, z - 1, count); }
      if z < q { Products(z, q, count); }
    }
  }

  /** Shard `index` lists exactly the tasks at positions index, count + index, 2 count + index,
      ... in order. */
  lemma {:induction false} ShardAt<T>(tasks: seq<T>, count: nat, index: nat, j: nat)
    requires index < count && j < |Shard(tasks, count, index)|
    ensures 0 <= j * count + index < |tasks|
    ensures Shard(tasks, count, index)[j] == tasks[j * count + index]
  {
    var n := |tasks| - 1;
    var front := Shard(tasks[..n], count, index);
    if j < |front| {
      ShardAt(tasks[..n], count, index, j);
    } else {
      ShardSize(tasks[..n], count, index);
      NextPosition(|front|, n, count, index);
    }
  }

  /** Every position q * count + r is place q of shard r: with the lemma above, the split is a
      disjoint cover that keeps the order. */
  lemma ShardCovers<T>(tasks: seq<T>, count: nat, q: nat, r: nat)
    requires r < count && q * count + r < |tasks|
    ensures q < |Shard(tasks, count, r)|
    ensures Shard(tasks, count, r)[q] == tasks[q * count + r]
  {
    var z := |Shard(tasks, count, r)|;
    ShardSize(tasks, count, r);
    if z < q { Products(z, q, count); }
    ShardAt(tasks, count, r, q);
  }

  // ----- Checks on rows read back

  datatype RowError = BadSchema | ForeignRow | DuplicateRow

  ghost predicate Acceptable(rows: seq<Row>, ids: seq<string>) {
    && (forall row | row in rows :: row.schema == RESULT_SCHEMA && row.taskId in ids && row.arm in ARMS)
    && DistinctKeys(rows)
  }

  method ValidateResumeRows(rows: seq<Row>, expectedIds: seq<string>) returns (r: Result<seq<Row>, RowError>)
    ensures r.Ok? <==> Acceptable(rows, expectedIds)
    ensures r.Ok? ==> r.value == rows
    ensures r.Err? ==>
              match r.error
              case BadSchema => exists row | row in rows :: row.schema != RESULT_SCHEMA
              case ForeignRow => exists row | row in rows :: row.taskId !in expectedIds || row.arm !in ARMS
              case DuplicateRow => !DistinctKeys(rows)
  {
    var seen: set<Key> := {};
    var validated: seq<Row> := [];
    for i := 0 to |rows|
      invariant validated == rows[..i]
      invariant Acceptable(rows[..i], expectedIds)
      invariant forall k :: k in seen <==> exists j | 0 <= j < i :: KeyOf(rows[j]) == k
    {
      var row := rows[i];
      if row.schema != RESULT_SCHEMA { return Err(BadSchema); }
      if row.taskId !in expectedIds || row.arm !in ARMS { return Err(ForeignRow); }
      if KeyOf(row) in seen {
        var j :| 0 <= j < i && KeyOf(rows[j]) == KeyOf(row);
        return Err(DuplicateRow);
      }
      seen := seen + {KeyOf(row)};
      assert rows[..i + 1] == rows[..i] + [row];
      validated := validated + [row];
    }
    assert rows[..|rows|] == rows;
    return Ok(validated);
  }

  // ----- Merging

  datatype TaskEntry = TaskEntry(id: string, digest: string)

  /** One shard artifact: the manifest fields that must agree, as one value, the task entries,
      the mutation preflights and the result rows. */
  datatype ShardOutput = ShardOutput(
    identity: string, entries: seq<TaskEntry>, preflight: map<string, string>, rows: seq<Row>)

  datatype MergeError =
    | NoShards | IdentityMismatch | DuplicatePreflight | InvalidRows(error: RowError)
    | CoverageMismatch | TaskMismatch | PreflightMismatch

  function Ids(tasks: seq<TaskEntry>): (ids: seq<string>)
    ensures |ids| == |tasks| && forall i | 0 <= i < |tasks| :: ids[i] == tasks[i].id
  {
    seq(|tasks|, i requires 0 <= i < |tasks| => tasks[i].id)
  }

  function IdSet(tasks: seq<TaskEntry>): (ids: set<string>) {
    set t | t in tasks :: t.id
  }

  predicate UniqueIds(tasks: seq<TaskEntry>) {
    forall i, j | 0 <= i < j < |tasks| :: tasks[i].id != tasks[j].id
  }

  function KeysFor(ids: set<string>): (keys: set<Key>) {
    set id, arm | id in ids && arm in ARMS :: (id, arm)
  }

  function KeySet(rows: seq<Row>): (keys: set<Key>) {
    set row | row in rows :: KeyOf(row)
  }

  function AllRows(shards: seq<ShardOutput>): (rows: seq<Row>) {
    if shards == [] then [] else AllRows(shards[..|shards| - 1]) + shards[|shards| - 1].rows
  }

  function AllEntries(shards: seq<ShardOutput>): (entries: seq<TaskEntry>) {
    if shards == [] then [] else AllEntries(shards[..|shards| - 1]) + shards[|shards| - 1].entries
  }

  function AllPreflights(shards: seq<ShardOutput>): (ids: set<string>) {
    if shards == [] then {} else AllPreflights(shards[..|shards| - 1]) + shards[|shards| - 1].preflight.Keys
  }

  /** No shard repeats a preflight of an earlier one. */
  predicate SeparatePreflights(shards: seq<ShardOutput>) {
    shards == [] ||
    (SeparatePreflights(shards[..|shards| - 1]) &&
     shards[|shards| - 1].preflight.Keys !! AllPreflights(shards[..|shards| - 1]))
  }

  predicate SameIdentity(shards: seq<ShardOutput>) {
    forall i | 0 <= i < |shards| :: shards[i].identity == shards[0].identity
  }

  /** The shards together are one complete run of the registered tasks. */
  ghost predicate Mergeable(shards: seq<ShardOutput>, tasks: seq<TaskEntry>) {
    && shards != []
    && SameIdentity(shards)
    && SeparatePreflights(shards)
    && Acceptable(AllRows(shards), Ids(tasks))
    && KeySet(AllRows(shards)) == KeysFor(IdSet(tasks))
    && UniqueIds(AllEntries(shards))
    && IdSet(AllEntries(shards)) == IdSet(tasks)
    && (forall t | t in tasks :: t in AllEntries(shards))
    && AllPreflights(shards) == IdSet(tasks)
  }

  /** What each error says about the shards. */
  ghost predicate Refuses(e: MergeError, shards: seq<ShardOutput>, tasks: seq<TaskEntry>) {
    match e
    case NoShards => shards == []
    case IdentityMismatch => !SameIdentity(shards)
    case DuplicatePreflight => !SeparatePreflights(shards)
    case InvalidRows(_) => !Acceptable(AllRows(shards), Ids(tasks))
    case CoverageMismatch => KeySet(AllRows(shards)) != KeysFor(IdSet(tasks))
    case TaskMismatch =>
      || !UniqueIds(AllEntries(shards)) || IdSet(AllEntries(shards)) != IdSet(tasks)
      || exists t | t in tasks :: t !in AllEntries(shards)
    case PreflightMismatch => AllPreflights(shards) != IdSet(tasks)
  }

  method MergeShards(shards: seq<ShardOutput>, tasks: seq<TaskEntry>) returns (r: Result<Gate, MergeError>)
    ensures r.Ok? <==> Mergeable(shards, tasks)
    ensures r.Ok? ==> r.value == Grade(ByKey(AllRows(shards)), Ids(tasks))
    ensures r.Err? ==> Refuses(r.error, shards, tasks)
  {
    if shards == [] { return Err(NoShards); }
    var gathered := Gather(shards);
    if gathered.Err? { return Err(gathered.error); }
    var (rows, entries, preflights) := gathered.value;
    var validated := ValidateResumeRows(rows, Ids(tasks));
    if validated.Err? { return Err(InvalidRows(validated.error)); }
    if KeySet(rows) != KeysFor(IdSet(tasks)) { return Err(CoverageMismatch); }
    if !UniqueIds(entries) || IdSet(entries) != IdSet(tasks) || !(forall t | t in tasks :: t in entries) {
      return Err(TaskMismatch);
    }
    if preflights != IdSet(tasks) { return Err(PreflightMismatch); }
    var gate := GradeResults(rows, Ids(tasks));
    return Ok(gate);
  }

  /** The loop over the shard manifests. */
  method Gather(shards: seq<ShardOutput>)
      returns (r: Result<(seq<Row>, seq<TaskEntry>, set<string>), MergeError>)
    ensures r.Ok? <==> SameIdentity(shards) && SeparatePreflights(shards)
    ensures r.Err? ==> (r.error == IdentityMismatch && !SameIdentity(shards))
                       || (r.error == DuplicatePreflight && !SeparatePreflights(shards))
    ensures r.Ok? ==> r.value == (AllRows(shards), AllEntries(shards), AllPreflights(shards))
  {
    var rows: seq<Row>, entries: seq<TaskEntry>, preflights: set<string> := [], [], {};
    for i := 0 to |shards|
      invariant rows == AllRows(shards[..i]) && entries == AllEntries(shards[..i])
      invariant preflights == AllPreflights(shards[..i])
      invariant SeparatePreflights(shards[..i])
      invariant forall j | 0 <= j < i :: shards[j].identity == shards[0].identity
    {
      assert shards[..i + 1][..i] == shards[..i];
      if shards[i].identity != shards[0].identity { return Err(IdentityMismatch); }
      if !(shards[i].preflight.Keys !! preflights) {
        SeparatePrefix(shards, i + 1);
        return Err(DuplicatePreflight);
      }
      rows := rows + shards[i].rows;
      entries := entries + shards[i].entries;
      preflights := preflights + shards[i].preflight.Keys;
    }
    assert shards[..|shards|] == shards;
    return Ok((rows, entries, preflights));
  }

  lemma {:induction false} SeparatePrefix(shards: seq<ShardOutput>, n: nat)
    requires n <= |shards|
    ensures SeparatePreflights(shards) ==> SeparatePreflights(shards[..n])
  {
    if n == |shards| {
      assert shards[..n] == shards;
    } else {
      var m := |shards| - 1;
      SeparatePrefix(shards[..m], n);
      assert shards[..m][..n] == shards[..n];
    }
  }

  // ----- Merging complete shards is one unsharded run

  /** Disjoint parts that together hold the tasks. */
  ghost predicate Partition(parts: seq<seq<TaskEntry>>, tasks: seq<TaskEntry>) {
    && (forall j, t | 0 <= j < |parts| && t in parts[j] :: t in tasks)
    && (forall t | t in tasks :: exists j | 0 <= j < |parts| :: t in parts[j])
    && (forall j, k | 0 <= j < k < |parts| :: IdSet(parts[j]) !! IdSet(parts[k]))
    && (forall j | 0 <= j < |parts| :: UniqueIds(parts[j]))
  }

  /** What each (task, arm) yields, wherever it is run. */
  ghost predicate Results(results: map<Key, Row>) {
    forall k | k in results :: KeyOf(results[k]) == k && results[k].schema == RESULT_SCHEMA
  }

  /** A finished run of the given tasks: one row per (task, arm) and at most one preflight per task. */
  ghost predicate CompleteRun(out: ShardOutput, tasks: seq<TaskEntry>, results: map<Key, Row>) {
    && out.entries == tasks
    && out.preflight.Keys <= IdSet(tasks)
    && DistinctKeys(out.rows)
    && (forall row :: row in out.rows <==>
          KeyOf(row) in KeysFor(IdSet(tasks)) && KeyOf(row) in results && results[KeyOf(row)] == row)
    && KeysFor(IdSet(tasks)) <= results.Keys
  }

  function Union(parts: seq<seq<TaskEntry>>): (ids: set<string>) {
    if parts == [] then {} else Union(parts[..|parts| - 1]) + IdSet(parts[|parts| - 1])
  }

  lemma {:induction false} UnionHas(parts: seq<seq<TaskEntry>>)
    ensures forall id :: id in Union(parts) <==> exists j | 0 <= j < |parts| :: id in IdSet(parts[j])
  {
    if parts == [] {
    } else {
      var n := |parts| - 1;
      UnionHas(parts[..n]);
      forall id ensures id in Union(parts) <==> exists j | 0 <= j < |parts| :: id in IdSet(parts[j]) {
        if id in Union(parts[..n]) {
          var j :| 0 <= j < n && id in IdSet(parts[..n][j]);
          assert id in IdSet(parts[j]);
        }
        if j :| 0 <= j < |parts| && id in IdSet(parts[j]) {
          if j < n { assert id in IdSet(parts[..n][j]); }
        }
      }
    }
  }

  lemma DistinctConcat(a: seq<Row>, b: seq<Row>)
    requires DistinctKeys(a) && DistinctKeys(b) && KeySet(a) !! KeySet(b)
    ensures DistinctKeys(a + b)
  {
    forall i, j | 0 <= i < j < |a + b| ensures KeyOf((a + b)[i]) != KeyOf((a + b)[j]) {
      if i < |a| <= j {
        assert KeyOf(a[i]) in KeySet(a) && KeyOf(b[j - |a|]) in KeySet(b);
      }
    }
  }

  lemma UniqueConcat(a: seq<TaskEntry>, b: seq<TaskEntry>)
    requires UniqueIds(a) && UniqueIds(b) && IdSet(a) !! IdSet(b)
    ensures UniqueIds(a + b)
  {
    forall i, j | 0 <= i < j < |a + b| ensures (a + b)[i].id != (a + b)[j].id {
      if i < |a| <= j {
        assert a[i].id in IdSet(a) && b[j - |a|].id in IdSet(b);
      }
    }
  }

  ghost predicate RunsOf(outs: seq<ShardOutput>, parts: seq<seq<TaskEntry>>, results: map<Key, Row>) {
    |outs| == |parts| && forall j | 0 <= j < |outs| :: CompleteRun(outs[j], parts[j], results)
  }

  ghost predicate Apart(parts: seq<seq<TaskEntry>>) {
    && (forall j, k | 0 <= j < k < |parts| :: IdSet(parts[j]) !! IdSet(parts[k]))
    && (forall j | 0 <= j < |parts| :: UniqueIds(parts[j]))
  }

  lemma ApartFront(parts: seq<seq<TaskEntry>>)
    requires parts != [] && Apart(parts)
    ensures Apart(parts[..|parts| - 1]) && Union(parts[..|parts| - 1]) !! IdSet(parts[|parts| - 1])
  {
    var n := |parts| - 1;
    UnionHas(parts[..n]);
    forall id | id in Union(parts[..n]) ensures id !in IdSet(parts[n]) {
      var j :| 0 <= j < n && id in IdSet(parts[..n][j]);
      assert IdSet(parts[j]) !! IdSet(parts[n]);
    }
  }

  /** What gathering complete runs of disjoint parts yields. */
  lemma {:induction false} GatheredRuns(outs: seq<ShardOutput>, parts: seq<seq<TaskEntry>>, results: map<Key, Row>)
    requires Results(results) && RunsOf(outs, parts, results) && Apart(parts)
    ensures forall row :: row in AllRows(outs) <==>
              KeyOf(row) in KeysFor(Union(parts)) && KeyOf(row) in results && results[KeyOf(row)] == row
    ensures DistinctKeys(AllRows(outs))
    ensures UniqueIds(AllEntries(outs)) && IdSet(AllEntries(outs)) == Union(parts)
    ensures KeysFor(Union(parts)) <= results.Keys
  {
    if outs == [] {
      assert KeysFor({}) == {};
    } else {
      var n := |outs| - 1;
      var front, last := outs[..n], outs[n];
      var seen := Union(parts[..n]);
      ApartFront(parts);
      GatheredRuns(front, parts[..n], results);
      KeysForUnion(seen, IdSet(parts[n]));
      RunKeys(AllRows(front), seen, results);
      RunKeys(last.rows, IdSet(parts[n]), results);
      DistinctConcat(AllRows(front), last.rows);
      UniqueConcat(AllEntries(front), last.entries);
      IdSetConcat(AllEntries(front), last.entries);
    }
  }

  ghost predicate AllPrepared(outs: seq<ShardOutput>, parts: seq<seq<TaskEntry>>)
    requires |outs| == |parts|
  {
    forall j | 0 <= j < |outs| :: outs[j].preflight.Keys == IdSet(parts[j])
  }

  /** The preflights of disjoint parts never collide, and cover the parts exactly when each one's do. */
  lemma {:induction false} GatheredPreflights(outs: seq<ShardOutput>, parts: seq<seq<TaskEntry>>)
    requires |outs| == |parts| && Apart(parts)
    requires forall j | 0 <= j < |outs| :: outs[j].preflight.Keys <= IdSet(parts[j])
    ensures SeparatePreflights(outs) && AllPreflights(outs) <= Union(parts)
    ensures AllPreflights(outs) == Union(parts) <==> AllPrepared(outs, parts)
  {
    if outs == [] {
    } else {
      var n := |outs| - 1;
      ApartFront(parts);
      GatheredPreflights(outs[..n], parts[..n]);
      var seen, all, last := AllPreflights(outs[..n]), Union(parts[..n]), outs[n].preflight.Keys;
      BothCover(seen, all, last, IdSet(parts[n]));
      PreparedFront(outs, parts);
    }
  }

  lemma BothCover(a: set<string>, x: set<string>, b: set<string>, y: set<string>)
    requires a <= x && b <= y && x !! y
    ensures a + b == x + y <==> a == x && b == y
  {
    if a + b == x + y {
      forall id | id in x ensures id in a { assert id in a + b; }
      forall id | id in y ensures id in b { assert id in a + b; }
    }
  }

  lemma PreparedFront(outs: seq<ShardOutput>, parts: seq<seq<TaskEntry>>)
    requires |outs| == |parts| > 0
    ensures var n := |outs| - 1;
            AllPrepared(outs, parts) <==>
            AllPrepared(outs[..n], parts[..n]) && outs[n].preflight.Keys == IdSet(parts[n])
  {
    var n := |outs| - 1;
    if AllPrepared(outs[..n], parts[..n]) && outs[n].preflight.Keys == IdSet(parts[n]) {
      forall j | 0 <= j < |outs| ensures outs[j].preflight.Keys == IdSet(parts[j]) {
        if j < n { assert outs[..n][j].preflight.Keys == IdSet(parts[..n][j]); }
      }
    }
  }

  lemma KeysForUnion(a: set<string>, b: set<string>)
    ensures KeysFor(a + b) == KeysFor(a) + KeysFor(b)
    ensures a !! b ==> KeysFor(a) !! KeysFor(b)
  {
  }

  lemma IdSetConcat(a: seq<TaskEntry>, b: seq<TaskEntry>)
    ensures IdSet(a + b) == IdSet(a) + IdSet(b)
  {
    forall id | id in IdSet(a + b) ensures id in IdSet(a) + IdSet(b) {
      var t :| t in a + b && t.id == id;
    }
    forall id | id in IdSet(a) + IdSet(b) ensures id in IdSet(a + b) {
      var t :| (t in a || t in b) && t.id == id;
      assert t in a + b;
    }
  }

  lemma RunKeys(rows: seq<Row>, ids: set<string>, results: map<Key, Row>)
    requires Results(results) && KeysFor(ids) <= results.Keys
    requires forall row :: row in rows <==>
               KeyOf(row) in KeysFor(ids) && KeyOf(row) in results && results[KeyOf(row)] == row
    ensures KeySet(rows) == KeysFor(ids)
  {
    forall k | k in KeysFor(ids) ensures k in KeySet(rows) {
      assert KeyOf(results[k]) == k;
      assert results[k] in rows;
    }
  }

  /** Merging complete runs of any partition of the tasks, in any order, succeeds if and only if each
      recorded all its preflights, and the rows have exactly the grade of one unsharded run. */
  lemma MergeRefinesWhole(outs: seq<ShardOutput>, parts: seq<seq<TaskEntry>>, whole: ShardOutput,
                          tasks: seq<TaskEntry>, results: map<Key, Row>)
    requires Results(results) && outs != [] && SameIdentity(outs)
    requires RunsOf(outs, parts, results) && Partition(parts, tasks)
    requires CompleteRun(whole, tasks, results)
    ensures Mergeable(outs, tasks) <==> AllPrepared(outs, parts)
    ensures Grade(ByKey(AllRows(outs)), Ids(tasks)) == Grade(ByKey(whole.rows), Ids(tasks))
  {
    PartitionIds(parts, tasks);
    GatheredRuns(outs, parts, results);
    GatheredPreflights(outs, parts);
    RunKeys(AllRows(outs), IdSet(tasks), results);
    RowsAcceptable(AllRows(outs), tasks, results);
    forall t | t in tasks ensures t in AllEntries(outs) {
      var j :| 0 <= j < |parts| && t in parts[j];
      EntryGathered(outs, j, t);
    }
    ByKeyOrderFree(AllRows(outs), whole.rows);
  }

  lemma RowsAcceptable(rows: seq<Row>, tasks: seq<TaskEntry>, results: map<Key, Row>)
    requires Results(results) && DistinctKeys(rows)
    requires forall row | row in rows ::
               KeyOf(row) in KeysFor(IdSet(tasks)) && KeyOf(row) in results && results[KeyOf(row)] == row
    ensures Acceptable(rows, Ids(tasks))
  {
    forall row | row in rows
      ensures row.schema == RESULT_SCHEMA && row.taskId in Ids(tasks) && row.arm in ARMS
    {
      var t :| t in tasks && t.id == row.taskId;
      var i :| 0 <= i < |tasks| && tasks[i] == t;
      assert Ids(tasks)[i] == row.taskId;
    }
  }

  lemma PartitionIds(parts: seq<seq<TaskEntry>>, tasks: seq<TaskEntry>)
    requires Partition(parts, tasks)
    ensures Union(parts) == IdSet(tasks)
  {
    UnionHas(parts);
    forall id | id in Union(parts) ensures id in IdSet(tasks) {
      var j :| 0 <= j < |parts| && id in IdSet(parts[j]);
    }
    forall id | id in IdSet(tasks) ensures id in Union(parts) {
      var t :| t in tasks && t.id == id;
      var j :| 0 <= j < |parts| && t in parts[j];
      assert id in IdSet(parts[j]);
    }
  }

  lemma {:induction false} EntryGathered(outs: seq<ShardOutput>, j: nat, t: TaskEntry)
    requires j < |outs| && t in outs[j].entries
    ensures t in AllEntries(outs)
  {
    var n := |outs| - 1;
    if j == n {
    } else {
      EntryGathered(outs[..n], j, t);
    }
  }

  /** The parts are modulo shards of the tasks, each at most once and every non-empty one, in any
      order. */
  ghost predicate Sharding(tasks: seq<TaskEntry>, count: nat, order: seq<nat>, parts: seq<seq<TaskEntry>>) {
    && UniqueIds(tasks) && count > 0 && |parts| == |order|
    && (forall j | 0 <= j < |order| :: order[j] < count && parts[j] == Shard(tasks, count, order[j]))
    && (forall j, k | 0 <= j < k < |order| :: order[j] != order[k])
    && (forall i | 0 <= i < count && Shard(tasks, count, i) != [] :: i in order)
  }

  /** The modulo shards that hold tasks, in any order, partition the tasks. */
  lemma ShardsPartition(tasks: seq<TaskEntry>, count: nat, order: seq<nat>, parts: seq<seq<TaskEntry>>)
    requires Sharding(tasks, count, order, parts)
    ensures Partition(parts, tasks)
  {
    forall j, t | 0 <= j < |parts| && t in parts[j] ensures t in tasks {
      var i := ShardPosition(tasks, count, order[j], t);
    }
    forall t | t in tasks ensures exists j | 0 <= j < |parts| :: t in parts[j] {
      var i :| 0 <= i < |tasks| && tasks[i] == t;
      assert i == (i / count) * count + i % count;
      ShardCovers(tasks, count, i / count, i % count);
      assert i % count in order;
      var j :| 0 <= j < |order| && order[j] == i % count;
      assert t in parts[j];
    }
    forall j, k | 0 <= j < k < |parts| ensures IdSet(parts[j]) !! IdSet(parts[k]) {
      ShardsDisjoint(tasks, count, order[j], order[k]);
    }
    forall j | 0 <= j < |parts| ensures UniqueIds(parts[j]) {
      ShardUnique(tasks, count, order[j]);
    }
  }

  lemma ShardPosition(tasks: seq<TaskEntry>, count: nat, index: nat, t: TaskEntry) returns (i: nat)
    requires index < count && t in Shard(tasks, count, index)
    ensures i < |tasks| && tasks[i] == t && i % count == index
  {
    var j :| 0 <= j < |Shard(tasks, count, index)| && Shard(tasks, count, index)[j] == t;
    ShardAt(tasks, count, index, j);
    ModuloOf(j, count, index);
    i := j * count + index;
  }

  lemma ShardsDisjoint(tasks: seq<TaskEntry>, count: nat, a: nat, b: nat)
    requires UniqueIds(tasks) && a < count && b < count && a != b
    ensures IdSet(Shard(tasks, count, a)) !! IdSet(Shard(tasks, count, b))
  {
    forall id | id in IdSet(Shard(tasks, count, a)) ensures id !in IdSet(Shard(tasks, count, b)) {
      var t :| t in Shard(tasks, count, a) && t.id == id;
      var i := ShardPosition(tasks, count, a, t);
      forall u | u in Shard(tasks, count, b) ensures u.id != id {
        var k := ShardPosition(tasks, count, b, u);
      }
    }
  }

  lemma ShardUnique(tasks: seq<TaskEntry>, count: nat, index: nat)
    requires UniqueIds(tasks) && index < count
    ensures UniqueIds(Shard(tasks, count, index))
  {
    var s := Shard(tasks, count, index);
    forall i, j | 0 <= i < j < |s| ensures s[i].id != s[j].id {
      ShardAt(tasks, count, index, i);
      ShardAt(tasks, count, index, j);
      Products(i, j, count);
    }
  }

  /** Sharding by modulo, running every non-empty shard to completion and merging the artifacts
      in any order gives exactly the grade of the unsharded run, if and only if no preflight is
      missing; otherwise the merge is refused. */
  lemma ShardedEqualsUnsharded(tasks: seq<TaskEntry>, count: nat, order: seq<nat>, parts: seq<seq<TaskEntry>>,
                               outs: seq<ShardOutput>, whole: ShardOutput, results: map<Key, Row>)
    requires Sharding(tasks, count, order, parts)
    requires Results(results) && outs != [] && SameIdentity(outs) && RunsOf(outs, parts, results)
    requires CompleteRun(whole, tasks, results)
    ensures Mergeable(outs, tasks) <==> AllPrepared(outs, parts)
    ensures Grade(ByKey(AllRows(outs)), Ids(tasks)) == Grade(ByKey(whole.rows), Ids(tasks))
  {
    ShardsPartition(tasks, count, order, parts);
    MergeRefinesWhole(outs, parts, whole, tasks, results);
  }
}
