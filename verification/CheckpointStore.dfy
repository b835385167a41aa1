/** The rows of a benchmark run in memory and on disk, for one caller: rows are appended once per key
    and written in the order of the tasks and arms. */
module CheckpointStore {
  import opened BenchmarkResults
  import opened ShardMerge
  import opened Sorting

  // ----- Adding rows

  function AddOne(rows: seq<Row>, row: Row): (r: seq<Row>) {
    if KeyOf(row) in KeySet(rows) then rows else rows + [row]
  }

  /** Append each row whose key is not yet present. */
  function AddNew(rows: seq<Row>, batch: seq<Row>): (r: seq<Row>)
    decreases |batch|
  {
    if batch == [] then rows else AddNew(AddOne(rows, batch[0]), batch[1..])
  }

  lemma KeySetAppend(rows: seq<Row>, row: Row)
    ensures KeySet(rows + [row]) == KeySet(rows) + {KeyOf(row)}
  {
    forall k | k in KeySet(rows) + {KeyOf(row)} ensures k in KeySet(rows + [row]) {
      if k == KeyOf(row) {
        assert row in rows + [row];
      } else {
        var r :| r in rows && KeyOf(r) == k;
        assert r in rows + [row];
      }
    }
  }

  lemma DistinctAppend(rows: seq<Row>, row: Row)
    requires DistinctKeys(rows) && KeyOf(row) !in KeySet(rows)
    ensures DistinctKeys(rows + [row])
  {
    forall i, j | 0 <= i < j < |rows| + 1 ensures KeyOf((rows + [row])[i]) != KeyOf((rows + [row])[j]) {
      if j == |rows| { assert KeyOf(rows[i]) in KeySet(rows); }
    }
  }

  /** Existing rows stay in place, keys stay distinct, and every key of either list is present. */
  lemma {:induction false} AddNewKeeps(rows: seq<Row>, batch: seq<Row>)
    requires DistinctKeys(rows)
    ensures rows <= AddNew(rows, batch)
    ensures DistinctKeys(AddNew(rows, batch))
    ensures KeySet(AddNew(rows, batch)) == KeySet(rows) + KeySet(batch)
    decreases |batch|
  {
    if batch == [] {
    } else {
      var row := batch[0];
      KeySetAppend(rows, row);
      if KeyOf(row) !in KeySet(rows) { DistinctAppend(rows, row); }
      AddNewKeeps(AddOne(rows, row), batch[1..]);
      KeySetSplit(batch);
    }
  }

  lemma KeySetSplit(rows: seq<Row>)
    requires rows != []
    ensures KeySet(rows) == {KeyOf(rows[0])} + KeySet(rows[1..])
  {
    forall k | k in KeySet(rows) ensures k == KeyOf(rows[0]) || k in KeySet(rows[1..]) {
      var r :| r in rows && KeyOf(r) == k;
      assert r == rows[0] || r in rows[1..];
    }
    assert rows[0] in rows;
  }

  // ----- The order on disk

  /** list.index, and the length where the source raises. */
  function Position(xs: seq<string>, x: string): (n: nat)
    ensures n <= |xs|
    ensures x in xs <==> n < |xs|
    ensures n < |xs| ==> xs[n] == x
  {
    if xs == [] || xs[0] == x then 0 else 1 + Position(xs[1..], x)
  }

  predicate RowLe(ids: seq<string>, a: Row, b: Row) {
    var i, k := Position(ids, a.taskId), Position(ids, b.taskId);
    i < k || (i == k && Position(ARMS, a.arm) <= Position(ARMS, b.arm))
  }

  function RowOrder(ids: seq<string>): (le: (Row, Row) -> bool) {
    (a, b) => RowLe(ids, a, b)
  }

  /** The rows as `save_checkpoint` writes them. */
  function Ordered(ids: seq<string>, rows: seq<Row>): (r: seq<Row>)
    ensures multiset(r) == multiset(rows)
  {
    Sort(RowOrder(ids), rows)
  }

  lemma RowOrderTotal(ids: seq<string>)
    ensures TotalPreorder(RowOrder(ids))
  {
  }

  /** Rows of registered tasks and arms that tie have the same key. */
  lemma TiesShareKeys(ids: seq<string>, a: Row, b: Row)
    requires a.taskId in ids && b.taskId in ids && a.arm in ARMS && b.arm in ARMS
    requires RowLe(ids, a, b) && RowLe(ids, b, a)
    ensures KeyOf(a) == KeyOf(b)
  {
  }

  lemma SameKey(rows: seq<Row>, a: Row, b: Row)
    requires DistinctKeys(rows) && a in rows && b in rows && KeyOf(a) == KeyOf(b)
    ensures a == b
  {
  }

  lemma KeySetOf(a: seq<Row>, b: seq<Row>)
    requires multiset(a) == multiset(b)
    ensures KeySet(a) == KeySet(b)
  {
    SameElements(a, b);
  }

  lemma {:induction false} InsertDistinct(ids: seq<string>, x: Row, rows: seq<Row>)
    requires DistinctKeys(rows) && KeyOf(x) !in KeySet(rows)
    ensures DistinctKeys(Insert(RowOrder(ids), x, rows))
  {
    if rows == [] || RowLe(ids, x, rows[0]) {
      forall i | 0 <= i < |rows| ensures KeyOf(rows[i]) in KeySet(rows) {}
    } else {
      KeySetSplit(rows);
      InsertDistinct(ids, x, rows[1..]);
      var rest := Insert(RowOrder(ids), x, rows[1..]);
      forall i | 0 <= i < |rest| ensures KeyOf(rest[i]) != KeyOf(rows[0]) {
        assert rest[i] in multiset(rest);
        assert rest[i] == x || rest[i] in rows[1..];
        assert rows[0] in rows;
      }
    }
  }

  lemma {:induction false} OrderedDistinct(ids: seq<string>, rows: seq<Row>)
    requires DistinctKeys(rows)
    ensures DistinctKeys(Ordered(ids, rows))
  {
    if rows == [] {
    } else {
      OrderedDistinct(ids, rows[1..]);
      KeySetOf(Ordered(ids, rows[1..]), rows[1..]);
      forall r | r in rows[1..] ensures KeyOf(r) != KeyOf(rows[0]) {
        var i :| 1 <= i < |rows| && rows[i] == r;
      }
      InsertDistinct(ids, rows[0], Ordered(ids, rows[1..]));
    }
  }

  /** What is written are the rows, sorted by task and arm. */
  lemma OrderedKeeps(ids: seq<string>, rows: seq<Row>)
    requires DistinctKeys(rows)
    ensures SortedBy(RowOrder(ids), Ordered(ids, rows))
    ensures DistinctKeys(Ordered(ids, rows)) && KeySet(Ordered(ids, rows)) == KeySet(rows)
    ensures forall row :: row in Ordered(ids, rows) <==> row in rows
  {
    RowOrderTotal(ids);
    SortSorts(RowOrder(ids), rows);
    OrderedDistinct(ids, rows);
    KeySetOf(Ordered(ids, rows), rows);
    SameElements(Ordered(ids, rows), rows);
  }

  lemma AcceptableOrdered(ids: seq<string>, rows: seq<Row>, expected: seq<string>)
    requires Acceptable(rows, expected)
    ensures Acceptable(Ordered(ids, rows), expected)
  {
    OrderedKeeps(ids, rows);
  }

  /** The file does not depend on the order in which rows were completed. */
  lemma FileOrderFree(ids: seq<string>, a: seq<Row>, b: seq<Row>)
    requires Acceptable(a, ids) && multiset(a) == multiset(b)
    ensures Ordered(ids, a) == Ordered(ids, b)
  {
    RowOrderTotal(ids);
    SortSorts(RowOrder(ids), a);
    SortSorts(RowOrder(ids), b);
    SameElements(a, Ordered(ids, a));
    forall x, y | x in Ordered(ids, a) && y in Ordered(ids, a) && RowOrder(ids)(x, y) && RowOrder(ids)(y, x)
      ensures x == y
    {
      TiesShareKeys(ids, x, y);
      SameKey(a, x, y);
    }
    SortedUnique(RowOrder(ids), Ordered(ids, a), Ordered(ids, b));
  }

  lemma {:induction false} PositionAt(xs: seq<string>, i: nat)
    requires i < |xs| && forall j, k | 0 <= j < k < |xs| :: xs[j] != xs[k]
    ensures Position(xs, xs[i]) == i
  {
    if i == 0 {
    } else {
      assert xs[0] != xs[i];
      PositionAt(xs[1..], i - 1);
    }
  }

  /** In the file rows of earlier tasks come first, and of one task the explorer before greppy before
      greppy-edit. */
  lemma FileOrderMeans(ids: seq<string>, rows: seq<Row>, i: nat, j: nat, p: nat, q: nat, a: nat, b: nat)
    requires Acceptable(rows, ids) && forall k, l | 0 <= k < l < |ids| :: ids[k] != ids[l]
    requires i < j < |Ordered(ids, rows)| && p < |ids| && q < |ids| && a < 3 && b < 3
    requires var x, y, arms := Ordered(ids, rows)[i], Ordered(ids, rows)[j], ["explorer", "greppy", "greppy-edit"];
             x.taskId == ids[p] && y.taskId == ids[q] && x.arm == arms[a] && y.arm == arms[b]
    ensures p < q || (p == q && a < b)
  {
    var file := Ordered(ids, rows);
    OrderedKeeps(ids, rows);
    assert RowOrder(ids)(file[i], file[j]) && KeyOf(file[i]) != KeyOf(file[j]);
    PositionAt(ids, p);
    PositionAt(ids, q);
    PositionAt(ARMS, a);
    PositionAt(ARMS, b);
  }

  // ----- checkpoint_rows

  class Store {
    const ids: seq<string>
    var rows: seq<Row>
    var completed: set<Key>
    var saved: seq<Row>

    ghost predicate Valid()
      reads this
    {
      DistinctKeys(rows) && completed == KeySet(rows)
    }

    /** Start from the rows of an earlier run, checked, and write the first checkpoint. */
    constructor (ids: seq<string>, existing: seq<Row>)
      requires DistinctKeys(existing)
      ensures Valid() && this.ids == ids && rows == existing && saved == Ordered(ids, existing)
    {
      this.ids := ids;
      rows, completed, saved := existing, KeySet(existing), Ordered(ids, existing);
    }

    /** `checkpoint_rows`: append the rows whose key is new, then save. */
    method CheckpointRows(batch: seq<Row>)
      requires Valid()
      modifies this
      ensures Valid() && rows == AddNew(old(rows), batch) && saved == Ordered(ids, rows)
    {
      ghost var target := AddNew(rows, batch);
      for i := 0 to |batch|
        invariant Valid() && AddNew(rows, batch[i..]) == target
      {
        var row := batch[i];
        assert batch[i..][1..] == batch[i + 1..];
        KeySetAppend(rows, row);
        if KeyOf(row) in completed { continue; }
        DistinctAppend(rows, row);
        rows := rows + [row];
        completed := completed + {KeyOf(row)};
      }
      saved := Ordered(ids, rows);
    }
  }
}
