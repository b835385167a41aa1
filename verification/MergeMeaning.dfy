/** When shard artifacts merge, place by place: which rows, task entries and preflights the shards hold. */
module MergeMeaning {
  import opened Wrappers
  import opened BenchmarkResults
  import opened ShardMerge

  // ----- Lists of lists

  function Flat<T>(parts: seq<seq<T>>): (all: seq<T>) {
    if parts == [] then [] else Flat(parts[..|parts| - 1]) + parts[|parts| - 1]
  }

  predicate Placed<T>(parts: seq<seq<T>>, j: int, i: int) {
    0 <= j < |parts| && 0 <= i < |parts[j]|
  }

  /** No two places hold elements of one key. */
  ghost predicate OneEach<T, K>(key: T -> K, parts: seq<seq<T>>) {
    forall j, i, k, l | Placed(parts, j, i) && Placed(parts, k, l) && key(parts[j][i]) == key(parts[k][l]) ::
      j == k && i == l
  }

  ghost predicate DifferentKeys<T, K>(key: T -> K, s: seq<T>) {
    forall i, j | 0 <= i < j < |s| :: key(s[i]) != key(s[j])
  }

  lemma {:induction false} FlatHas<T(!new)>(parts: seq<seq<T>>, x: T)
    ensures x in Flat(parts) <==> exists j | 0 <= j < |parts| :: x in parts[j]
  {
    if parts == [] {
    } else {
      var n := |parts| - 1;
      var front := parts[..n];
      FlatHas(front, x);
      if j :| 0 <= j < |parts| && x in parts[j] {
        if j < n { assert x in front[j]; }
      }
      if j :| 0 <= j < |front| && x in front[j] { assert x in parts[j]; }
    }
  }

  lemma {:induction false} OneEachIff<T(!new), K>(key: T -> K, parts: seq<seq<T>>)
    ensures DifferentKeys(key, Flat(parts)) <==> OneEach(key, parts)
  {
    if parts == [] {
    } else {
      var n := |parts| - 1;
      var front, last := parts[..n], parts[n];
      OneEachIff(key, front);
      ConcatDiffers(key, Flat(front), last);
      forall x ensures x in Flat(front) <==> exists j | 0 <= j < n :: x in front[j] { FlatHas(front, x); }
      if OneEach(key, parts) { OneEachDown(key, parts); }
      if OneEach(key, front) && DifferentKeys(key, last) && Apart(key, Flat(front), last) { OneEachUp(key, parts); }
    }
  }

  ghost predicate Apart<T, K>(key: T -> K, a: seq<T>, b: seq<T>) {
    forall x, y | x in a && y in b :: key(x) != key(y)
  }

  lemma ConcatDiffers<T, K>(key: T -> K, a: seq<T>, b: seq<T>)
    ensures DifferentKeys(key, a + b) <==> DifferentKeys(key, a) && DifferentKeys(key, b) && Apart(key, a, b)
  {
    var c := a + b;
    if DifferentKeys(key, c) {
      forall i, j | 0 <= i < j < |a| ensures key(a[i]) != key(a[j]) { assert c[i] == a[i] && c[j] == a[j]; }
      forall i, j | 0 <= i < j < |b| ensures key(b[i]) != key(b[j]) {
        assert c[|a| + i] == b[i] && c[|a| + j] == b[j];
      }
      forall x, y | x in a && y in b ensures key(x) != key(y) {
        var i :| 0 <= i < |a| && a[i] == x;
        var j :| 0 <= j < |b| && b[j] == y;
        assert c[i] == x && c[|a| + j] == y;
      }
    }
    if DifferentKeys(key, a) && DifferentKeys(key, b) && Apart(key, a, b) {
      forall i, j | 0 <= i < j < |c| ensures key(c[i]) != key(c[j]) {
        if i < |a| <= j { assert a[i] in a && b[j - |a|] in b; }
      }
    }
  }

  lemma OneEachDown<T(!new), K>(key: T -> K, parts: seq<seq<T>>)
    requires parts != [] && OneEach(key, parts)
    ensures var n := |parts| - 1;
            OneEach(key, parts[..n]) && DifferentKeys(key, parts[n]) && Apart(key, Flat(parts[..n]), parts[n])
  {
    var n := |parts| - 1;
    var front, last := parts[..n], parts[n];
    forall j, i, k, l | Placed(front, j, i) && Placed(front, k, l) && key(front[j][i]) == key(front[k][l])
      ensures j == k && i == l
    {
      assert Placed(parts, j, i) && Placed(parts, k, l);
    }
    forall i, l | 0 <= i < l < |last| ensures key(last[i]) != key(last[l]) {
      assert Placed(parts, n, i) && Placed(parts, n, l);
    }
    forall x, y | x in Flat(front) && y in last ensures key(x) != key(y) {
      FlatHas(front, x);
      var j :| 0 <= j < |front| && x in front[j];
      var i :| 0 <= i < |front[j]| && front[j][i] == x;
      var l :| 0 <= l < |last| && last[l] == y;
      assert Placed(parts, j, i) && Placed(parts, n, l);
    }
  }

  lemma OneEachUp<T(!new), K>(key: T -> K, parts: seq<seq<T>>)
    requires parts != []
    requires var n := |parts| - 1;
             OneEach(key, parts[..n]) && DifferentKeys(key, parts[n]) && Apart(key, Flat(parts[..n]), parts[n])
    ensures OneEach(key, parts)
  {
    var n := |parts| - 1;
    var front, last := parts[..n], parts[n];
    forall j, i, k, l | Placed(parts, j, i) && Placed(parts, k, l) && !(j == k && i == l)
      ensures key(parts[j][i]) != key(parts[k][l])
    {
      if j < n && k < n {
        assert Placed(front, j, i) && Placed(front, k, l);
      } else if j < n {
        FlatHas(front, front[j][i]);
        assert front[j][i] in Flat(front) && last[l] in last;
      } else if k < n {
        FlatHas(front, front[k][l]);
        assert front[k][l] in Flat(front) && last[i] in last;
      }
    }
  }

  // ----- Shards

  function RowsOf(shards: seq<ShardOutput>): (parts: seq<seq<Row>>)
    ensures |parts| == |shards| && forall j | 0 <= j < |shards| :: parts[j] == shards[j].rows
  {
    seq(|shards|, j requires 0 <= j < |shards| => shards[j].rows)
  }

  function EntriesOf(shards: seq<ShardOutput>): (parts: seq<seq<TaskEntry>>)
    ensures |parts| == |shards| && forall j | 0 <= j < |shards| :: parts[j] == shards[j].entries
  {
    seq(|shards|, j requires 0 <= j < |shards| => shards[j].entries)
  }

  lemma {:induction false} GatheredIsFlat(shards: seq<ShardOutput>)
    ensures AllRows(shards) == Flat(RowsOf(shards)) && AllEntries(shards) == Flat(EntriesOf(shards))
  {
    if shards == [] {
    } else {
      var n := |shards| - 1;
      GatheredIsFlat(shards[..n]);
      assert RowsOf(shards)[..n] == RowsOf(shards[..n]) && EntriesOf(shards)[..n] == EntriesOf(shards[..n]);
    }
  }

  /** No task has its preflight in two shards. */
  ghost predicate OncePreflighted(shards: seq<ShardOutput>) {
    forall j, k, id | 0 <= j < |shards| && 0 <= k < |shards|
      && id in shards[j].preflight && id in shards[k].preflight :: j == k
  }

  lemma {:induction false} PreflightsAre(shards: seq<ShardOutput>)
    ensures forall id :: id in AllPreflights(shards) <==> exists j | 0 <= j < |shards| :: id in shards[j].preflight
    ensures SeparatePreflights(shards) <==> OncePreflighted(shards)
  {
    if shards == [] {
    } else {
      var n := |shards| - 1;
      var front, last := shards[..n], shards[n];
      PreflightsAre(front);
      forall id ensures id in AllPreflights(shards) <==> exists j | 0 <= j < |shards| :: id in shards[j].preflight {
        if id in AllPreflights(front) {
          var j :| 0 <= j < |front| && id in front[j].preflight;
          assert id in shards[j].preflight;
        }
        if j :| 0 <= j < |shards| && id in shards[j].preflight {
          if j < n { assert id in front[j].preflight; }
        }
      }
      SeparateStep(shards);
    }
  }

  lemma SeparateStep(shards: seq<ShardOutput>)
    requires shards != []
    requires var front := shards[..|shards| - 1];
             && (forall id :: id in AllPreflights(front) <==> exists j | 0 <= j < |front| :: id in front[j].preflight)
             && (SeparatePreflights(front) <==> OncePreflighted(front))
    ensures SeparatePreflights(shards) <==> OncePreflighted(shards)
  {
    var n := |shards| - 1;
    var front, last := shards[..n], shards[n];
    if SeparatePreflights(shards) {
      forall j, k, id | 0 <= j < |shards| && 0 <= k < |shards| && id in shards[j].preflight && id in shards[k].preflight
        ensures j == k
      {
        if j < n { assert id in front[j].preflight; }
        if k < n { assert id in front[k].preflight; }
      }
    }
    if OncePreflighted(shards) {
      forall j, k, id | 0 <= j < |front| && 0 <= k < |front| && id in front[j].preflight && id in front[k].preflight
        ensures j == k
      {
        assert id in shards[j].preflight && id in shards[k].preflight;
      }
      forall id | id in AllPreflights(front) ensures id !in last.preflight {
        var j :| 0 <= j < |front| && id in front[j].preflight;
        assert id in shards[j].preflight;
      }
    }
  }

  // ----- Merging

  predicate Registered(tasks: seq<TaskEntry>, id: string) {
    exists i | 0 <= i < |tasks| :: tasks[i].id == id
  }

  /** Every shard names the same identity, and there is one. */
  ghost predicate OneIdentity(shards: seq<ShardOutput>) {
    |shards| >= 1 && forall j, k | 0 <= j < |shards| && 0 <= k < |shards| :: shards[j].identity == shards[k].identity
  }

  ghost predicate RowAt(shards: seq<ShardOutput>, id: string, arm: string) {
    exists j, i | Placed(RowsOf(shards), j, i) :: RowsOf(shards)[j][i].taskId == id && RowsOf(shards)[j][i].arm == arm
  }

  /** Every registered task has a row of every arm. */
  ghost predicate RowsHeld(shards: seq<ShardOutput>, tasks: seq<TaskEntry>) {
    forall id | Registered(tasks, id) ::
      RowAt(shards, id, "explorer") && RowAt(shards, id, "greppy") && RowAt(shards, id, "greppy-edit")
  }

  /** Every row is of the result schema, of a registered task and of one of the three arms. */
  ghost predicate RowsKnown(shards: seq<ShardOutput>, tasks: seq<TaskEntry>) {
    forall j, i | Placed(RowsOf(shards), j, i) ::
      var row := RowsOf(shards)[j][i];
      && row.schema == "greppy.agent-coding-results.v1" && Registered(tasks, row.taskId)
      && (row.arm == "explorer" || row.arm == "greppy" || row.arm == "greppy-edit")
  }

  /** No two places, in one shard or in two, hold rows of the same task and arm. */
  ghost predicate RowsOnce(shards: seq<ShardOutput>) {
    var parts := RowsOf(shards);
    forall j, i, k, l | Placed(parts, j, i) && Placed(parts, k, l)
      && parts[j][i].taskId == parts[k][l].taskId && parts[j][i].arm == parts[k][l].arm :: j == k && i == l
  }

  ghost predicate EntriesHeld(shards: seq<ShardOutput>, tasks: seq<TaskEntry>) {
    forall m | 0 <= m < |tasks| ::
      exists j, i :: Placed(EntriesOf(shards), j, i) && EntriesOf(shards)[j][i] == tasks[m]
  }

  ghost predicate EntriesKnown(shards: seq<ShardOutput>, tasks: seq<TaskEntry>) {
    forall j, i | Placed(EntriesOf(shards), j, i) :: Registered(tasks, EntriesOf(shards)[j][i].id)
  }

  ghost predicate EntriesOnce(shards: seq<ShardOutput>) {
    var parts := EntriesOf(shards);
    forall j, i, k, l | Placed(parts, j, i) && Placed(parts, k, l) && parts[j][i].id == parts[k][l].id ::
      j == k && i == l
  }

  /** Every registered task has its preflight in exactly one shard, and there is no other preflight. */
  ghost predicate PreflightsCover(shards: seq<ShardOutput>, tasks: seq<TaskEntry>) {
    && (forall id :: Registered(tasks, id) <==> exists j | 0 <= j < |shards| :: id in shards[j].preflight)
    && OncePreflighted(shards)
  }

  lemma RegisteredIff(tasks: seq<TaskEntry>, id: string)
    ensures Registered(tasks, id) <==> id in IdSet(tasks)
    ensures Registered(tasks, id) <==> id in Ids(tasks)
  {
    if i :| 0 <= i < |tasks| && tasks[i].id == id {
      assert tasks[i] in tasks && Ids(tasks)[i] == id;
    }
    if id in IdSet(tasks) {
      var t :| t in tasks && t.id == id;
      var i :| 0 <= i < |tasks| && tasks[i] == t;
    }
    if id in Ids(tasks) {
      var i :| 0 <= i < |tasks| && Ids(tasks)[i] == id;
      assert tasks[i].id == id;
    }
  }

  lemma IdentityIff(shards: seq<ShardOutput>)
    ensures shards != [] && SameIdentity(shards) <==> OneIdentity(shards)
  {}

  lemma PreflightsIff(shards: seq<ShardOutput>, tasks: seq<TaskEntry>)
    ensures SeparatePreflights(shards) && AllPreflights(shards) == IdSet(tasks) <==> PreflightsCover(shards, tasks)
  {
    PreflightsAre(shards);
    forall id ensures Registered(tasks, id) <==> id in IdSet(tasks) { RegisteredIff(tasks, id); }
  }

  /** A place of a row and the row itself. */
  lemma {:induction false} FlatAll<T(!new)>(p: T -> bool, parts: seq<seq<T>>)
    ensures (forall x | x in Flat(parts) :: p(x)) <==> forall j, i | Placed(parts, j, i) :: p(parts[j][i])
    ensures (exists x | x in Flat(parts) :: p(x)) <==> exists j, i | Placed(parts, j, i) :: p(parts[j][i])
  {
    forall x | x in Flat(parts) ensures exists j, i :: Placed(parts, j, i) && parts[j][i] == x {
      FlatHas(parts, x);
      var j :| 0 <= j < |parts| && x in parts[j];
      var i :| 0 <= i < |parts[j]| && parts[j][i] == x;
      assert Placed(parts, j, i);
    }
    forall j, i | Placed(parts, j, i) ensures parts[j][i] in Flat(parts) {
      FlatHas(parts, parts[j][i]);
    }
  }

  lemma FlatIs<T(!new)>(parts: seq<seq<T>>, x: T)
    ensures x in Flat(parts) <==> exists j, i :: Placed(parts, j, i) && parts[j][i] == x
  {
    FlatAll((y: T) => y == x, parts);
  }

  lemma UniqueEntriesIff(shards: seq<ShardOutput>)
    ensures UniqueIds(AllEntries(shards)) <==> EntriesOnce(shards)
  {
    GatheredIsFlat(shards);
    OneEachIff((t: TaskEntry) => t.id, EntriesOf(shards));
  }

  lemma KnownEntriesIff(shards: seq<ShardOutput>, tasks: seq<TaskEntry>)
    ensures IdSet(AllEntries(shards)) <= IdSet(tasks) <==> EntriesKnown(shards, tasks)
  {
    GatheredIsFlat(shards);
    var all := AllEntries(shards);
    FlatAll((t: TaskEntry) => Registered(tasks, t.id), EntriesOf(shards));
    forall id ensures Registered(tasks, id) <==> id in IdSet(tasks) { RegisteredIff(tasks, id); }
    if IdSet(all) <= IdSet(tasks) {
      forall t | t in all ensures Registered(tasks, t.id) { assert t.id in IdSet(all); }
    }
  }

  lemma HeldEntriesIff(shards: seq<ShardOutput>, tasks: seq<TaskEntry>)
    ensures (forall t | t in tasks :: t in AllEntries(shards)) <==> EntriesHeld(shards, tasks)
  {
    GatheredIsFlat(shards);
    forall m | 0 <= m < |tasks|
      ensures tasks[m] in AllEntries(shards) <==>
              exists j, i :: Placed(EntriesOf(shards), j, i) && EntriesOf(shards)[j][i] == tasks[m]
    {
      FlatIs(EntriesOf(shards), tasks[m]);
    }
    if EntriesHeld(shards, tasks) {
      forall t | t in tasks ensures t in AllEntries(shards) {
        var m :| 0 <= m < |tasks| && tasks[m] == t;
      }
    } else {
      var m :| 0 <= m < |tasks| && tasks[m] !in AllEntries(shards);
      assert tasks[m] in tasks;
    }
  }

  lemma HeldIds(all: seq<TaskEntry>, tasks: seq<TaskEntry>)
    requires forall t | t in tasks :: t in all
    ensures IdSet(tasks) <= IdSet(all)
  {
  }

  lemma EntriesIff(shards: seq<ShardOutput>, tasks: seq<TaskEntry>)
    ensures UniqueIds(AllEntries(shards)) && IdSet(AllEntries(shards)) == IdSet(tasks) &&
            (forall t | t in tasks :: t in AllEntries(shards))
            <==> EntriesOnce(shards) && EntriesKnown(shards, tasks) && EntriesHeld(shards, tasks)
  {
    UniqueEntriesIff(shards);
    KnownEntriesIff(shards, tasks);
    HeldEntriesIff(shards, tasks);
    if EntriesHeld(shards, tasks) { HeldIds(AllEntries(shards), tasks); }
  }

  lemma UniqueRowsIff(shards: seq<ShardOutput>)
    ensures DistinctKeys(AllRows(shards)) <==> RowsOnce(shards)
  {
    GatheredIsFlat(shards);
    OneEachIff(KeyOf, RowsOf(shards));
  }

  lemma KnownRowsIff(shards: seq<ShardOutput>, tasks: seq<TaskEntry>)
    ensures (forall row | row in AllRows(shards) ::
               row.schema == RESULT_SCHEMA && row.taskId in Ids(tasks) && row.arm in ARMS)
            <==> RowsKnown(shards, tasks)
  {
    GatheredIsFlat(shards);
    FlatAll((row: Row) => row.schema == RESULT_SCHEMA && row.taskId in Ids(tasks) && row.arm in ARMS, RowsOf(shards));
    forall id ensures Registered(tasks, id) <==> id in Ids(tasks) { RegisteredIff(tasks, id); }
  }

  lemma RowPlaced(shards: seq<ShardOutput>, id: string, arm: string)
    ensures (id, arm) in KeySet(AllRows(shards)) <==> RowAt(shards, id, arm)
  {
    GatheredIsFlat(shards);
    FlatAll((row: Row) => KeyOf(row) == (id, arm), RowsOf(shards));
  }

  lemma HeldRowsIff(shards: seq<ShardOutput>, tasks: seq<TaskEntry>)
    ensures KeysFor(IdSet(tasks)) <= KeySet(AllRows(shards)) <==> RowsHeld(shards, tasks)
  {
    forall id, arm ensures (id, arm) in KeySet(AllRows(shards)) <==> RowAt(shards, id, arm) {
      RowPlaced(shards, id, arm);
    }
    forall id ensures Registered(tasks, id) <==> id in IdSet(tasks) { RegisteredIff(tasks, id); }
  }

  lemma KnownKeys(rows: seq<Row>, tasks: seq<TaskEntry>)
    requires forall row | row in rows :: row.taskId in Ids(tasks) && row.arm in ARMS
    ensures KeySet(rows) <= KeysFor(IdSet(tasks))
  {
    forall row | row in rows ensures KeyOf(row) in KeysFor(IdSet(tasks)) { RegisteredIff(tasks, row.taskId); }
  }

  lemma RowsIff(shards: seq<ShardOutput>, tasks: seq<TaskEntry>)
    ensures Acceptable(AllRows(shards), Ids(tasks)) && KeySet(AllRows(shards)) == KeysFor(IdSet(tasks))
            <==> RowsOnce(shards) && RowsKnown(shards, tasks) && RowsHeld(shards, tasks)
  {
    UniqueRowsIff(shards);
    KnownRowsIff(shards, tasks);
    HeldRowsIff(shards, tasks);
    if RowsKnown(shards, tasks) { KnownKeys(AllRows(shards), tasks); }
  }

  /** Shards merge exactly when they name one identity and together hold, each once and nothing else, the row of
      every task and arm, the entry of every task and the preflight of every task. */
  lemma MergeableIff(shards: seq<ShardOutput>, tasks: seq<TaskEntry>)
    ensures Mergeable(shards, tasks) <==>
            && OneIdentity(shards)
            && RowsOnce(shards) && RowsKnown(shards, tasks) && RowsHeld(shards, tasks)
            && EntriesOnce(shards) && EntriesKnown(shards, tasks) && EntriesHeld(shards, tasks)
            && PreflightsCover(shards, tasks)
  {
    IdentityIff(shards);
    PreflightsIff(shards, tasks);
    EntriesIff(shards, tasks);
    RowsIff(shards, tasks);
  }
}
