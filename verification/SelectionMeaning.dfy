/** What the selection of hard candidates gives, in terms of the rows alone. */
module SelectionMeaning {
  import opened Wrappers
  import opened Sorting
  import opened GreedySelection

  // ----- Order

  /** A higher score, or the same and preferred over not preferred, or the same again and an id that
      does not come later. */
  predicate Precedes(a: Candidate, b: Candidate) {
    && a.score >= b.score
    && (a.score == b.score && b.preferred ==> a.preferred)
    && (a.score == b.score && a.preferred == b.preferred ==> LexLe(a.id, b.id))
  }

  ghost predicate Descending(rows: seq<Candidate>) {
    forall i, j | 0 <= i < j < |rows| :: Precedes(rows[i], rows[j])
  }

  lemma SortedDescends(raw: seq<Candidate>)
    ensures Descending(Sort(ByScore(), raw))
  {
    ByScoreIsTotalPreorder();
    SortSorts(ByScore(), raw);
    var cs := Sort(ByScore(), raw);
    forall i, j | 0 <= i < j < |cs| ensures Ahead(cs[i], cs[j]) { assert ByScore()(cs[i], cs[j]); }
  }

  ghost predicate Increasing(g: seq<nat>) {
    forall i, j | 0 <= i < j < |g| :: g[i] < g[j]
  }

  lemma {:induction false} GreedyIncreasing(fits: (seq<nat>, nat) -> bool, n: nat, count: nat)
    ensures Increasing(Greedy(fits, n, count))
  {
    if n == 0 {
    } else {
      GreedyIncreasing(fits, n - 1, count);
    }
  }

  lemma {:induction false} RowsAt(cs: seq<Candidate>, g: seq<nat>, k: nat)
    requires (forall i | 0 <= i < |g| :: g[i] < |cs|) && k < |g|
    ensures Rows(cs, g)[k] == cs[g[k]]
  {
    if k == |g| - 1 {
    } else {
      RowsAt(cs, g[..|g| - 1], k);
    }
  }

  lemma RowsDescend(cs: seq<Candidate>, g: seq<nat>)
    requires (forall i | 0 <= i < |g| :: g[i] < |cs|) && Increasing(g) && Descending(cs)
    ensures Descending(Rows(cs, g))
  {
    forall i | 0 <= i < |g| ensures Rows(cs, g)[i] == cs[g[i]] { RowsAt(cs, g, i); }
  }

  lemma {:induction false} ReserveDescends(cs: seq<Candidate>, taken: set<string>)
    requires Descending(cs)
    ensures Descending(Reserve(cs, taken))
    ensures forall row :: row in Reserve(cs, taken) <==> row in cs && row.id !in taken
  {
    if cs == [] {
    } else {
      var n := |cs| - 1;
      var front, last := cs[..n], cs[n];
      ReserveDescends(front, taken);
      assert cs == front + [last];
      forall row | row in front ensures Precedes(row, last) {
        var i :| 0 <= i < n && cs[i] == row;
      }
    }
  }

  /** Along the selected rows and along the reserve scores never increase, preferred rows come first among
      equal scores, and among those ids ascend. */
  lemma SelectionDescends(candidates: seq<Candidate>, count: nat, cap: nat)
    ensures Descending(SelectionOf(candidates, count, cap).selected)
    ensures Descending(SelectionOf(candidates, count, cap).reserve)
  {
    var cs := Sort(ByScore(), candidates);
    SortedDescends(candidates);
    GreedyIncreasing(Fits(cs, count, cap), |cs|, count);
    RowsDescend(cs, Chosen(cs, |cs|, count, cap));
    ReserveDescends(cs, Ids(Rows(cs, Chosen(cs, |cs|, count, cap))));
  }

  // ----- The caps

  /** The rows hold the candidate's commit, or leave no room for its language or type. */
  ghost predicate Blocked(c: Candidate, rows: seq<Candidate>, count: nat, cap: nat) {
    || (exists i | 0 <= i < |rows| :: rows[i].repo == c.repo && rows[i].commit == c.commit)
    || |set i | 0 <= i < |rows| && rows[i].language == c.language| >= cap
    || |set i | 0 <= i < |rows| && rows[i].kind == c.kind| >= count / 2
  }

  lemma {:induction false} ClassSize<K(!new)>(keys: seq<K>, g: seq<nat>, k: K, places: set<int>)
    requires Increasing(g) && (forall i | 0 <= i < |g| :: g[i] < |keys|)
    requires forall i :: i in places <==> 0 <= i < |g| && keys[g[i]] == k
    ensures |ClassOf(keys, Elements(g), k)| == |places|
  {
    if g == [] {
      assert forall i :: i !in places;
      assert places == {} && ClassOf(keys, Elements(g), k) == {};
    } else {
      var n := |g| - 1;
      var front, last := g[..n], g[n];
      forall i ensures i in places - {n} <==> 0 <= i < |front| && keys[front[i]] == k {}
      ClassSize(keys, front, k, places - {n});
      assert n in places <==> keys[last] == k;
      ClassLast(keys, front, last, k);
      assert g == front + [last];
    }
  }

  lemma ClassLast<K(!new)>(keys: seq<K>, front: seq<nat>, last: nat, k: K)
    requires last < |keys| && last !in front
    ensures |ClassOf(keys, Elements(front + [last]), k)| ==
            |ClassOf(keys, Elements(front), k)| + if keys[last] == k then 1 else 0
  {
    assert Elements(front + [last]) == Elements(front) + {last};
    ClassExtend(keys, Elements(front), last);
  }

  lemma ConflictsMeans(cs: seq<Candidate>, g: seq<nat>, i: nat, count: nat, cap: nat)
    requires Increasing(g) && (forall k | 0 <= k < |g| :: g[k] < |cs|) && i < |cs|
    ensures Conflicts(cs, Elements(g), i, count, cap) <==> Blocked(cs[i], Rows(cs, g), count, cap)
  {
    var rows, c := Rows(cs, g), cs[i];
    forall k | 0 <= k < |g| ensures rows[k] == cs[g[k]] { RowsAt(cs, g, k); }
    ClassSize(Languages(cs), g, c.language, set k | 0 <= k < |rows| && rows[k].language == c.language);
    ClassSize(Kinds(cs), g, c.kind, set k | 0 <= k < |rows| && rows[k].kind == c.kind);
    SameCommit(cs, g, i, rows);
  }

  lemma SameCommit(cs: seq<Candidate>, g: seq<nat>, i: nat, rows: seq<Candidate>)
    requires Increasing(g) && (forall k | 0 <= k < |g| :: g[k] < |cs|) && i < |cs|
    requires |rows| == |g| && forall k | 0 <= k < |g| :: rows[k] == cs[g[k]]
    ensures |ClassOf(Commits(cs), Elements(g), Commits(cs)[i])| >= 1 <==>
            exists k | 0 <= k < |rows| :: rows[k].repo == cs[i].repo && rows[k].commit == cs[i].commit
  {
    var same := ClassOf(Commits(cs), Elements(g), Commits(cs)[i]);
    if |same| >= 1 {
      var p :| p in same;
      var k :| 0 <= k < |g| && g[k] == p;
      assert rows[k].repo == cs[i].repo;
    }
    if k :| 0 <= k < |rows| && rows[k].repo == cs[i].repo && rows[k].commit == cs[i].commit {
      assert g[k] in same;
      assert same == {g[k]} + (same - {g[k]});
    }
  }

  // ----- The selected rows

  lemma SelectionRows(candidates: seq<Candidate>, count: nat, cap: nat) returns (cs: seq<Candidate>, g: seq<nat>)
    ensures cs == Sort(ByScore(), candidates) && Descending(cs)
    ensures g == Chosen(cs, |cs|, count, cap) && Increasing(g)
    ensures SelectionOf(candidates, count, cap).selected == Rows(cs, g)
    ensures forall k | 0 <= k < |g| :: Rows(cs, g)[k] == cs[g[k]]
  {
    cs := Sort(ByScore(), candidates);
    g := Chosen(cs, |cs|, count, cap);
    SortedDescends(candidates);
    GreedyIncreasing(Fits(cs, count, cap), |cs|, count);
    forall k | 0 <= k < |g| ensures Rows(cs, g)[k] == cs[g[k]] { RowsAt(cs, g, k); }
  }

  /** The selected rows are candidates, no more than asked for, at most `cap` of a language and half the
      count of a type, and all of different commits. */
  lemma SelectionWithinCaps(candidates: seq<Candidate>, count: nat, cap: nat, language: string, kind: string)
    ensures var rows := SelectionOf(candidates, count, cap).selected;
            && |rows| <= count && (forall row | row in rows :: row in candidates)
            && |set i | 0 <= i < |rows| && rows[i].language == language| <= cap
            && |set i | 0 <= i < |rows| && rows[i].kind == kind| <= count / 2
            && (forall i, j | 0 <= i < j < |rows| :: rows[i].repo != rows[j].repo || rows[i].commit != rows[j].commit)
  {
    var cs, g := SelectionRows(candidates, count, cap);
    ChosenFeasible(cs, |cs|, count, cap);
    RowsWithinCaps(cs, g, Rows(cs, g), count, cap, language, kind);
    CommitsDiffer(cs, g);
    SameElements(cs, candidates);
  }

  lemma RowsWithinCaps(cs: seq<Candidate>, g: seq<nat>, rows: seq<Candidate>, count: nat, cap: nat,
                       language: string, kind: string)
    requires Increasing(g) && Feasible(cs, Elements(g), count, cap) && |rows| == |g|
    requires forall k | 0 <= k < |g| :: g[k] < |cs| && rows[k] == cs[g[k]]
    ensures |set i | 0 <= i < |rows| && rows[i].language == language| <= cap
    ensures |set i | 0 <= i < |rows| && rows[i].kind == kind| <= count / 2
  {
    ClassSize(Languages(cs), g, language, set i | 0 <= i < |rows| && rows[i].language == language);
    ClassSize(Kinds(cs), g, kind, set i | 0 <= i < |rows| && rows[i].kind == kind);
  }

  lemma CommitsDiffer(cs: seq<Candidate>, g: seq<nat>)
    requires Increasing(g) && (forall k | 0 <= k < |g| :: g[k] < |cs|) && WithinCap(Commits(cs), Elements(g), 1)
    ensures forall i, j | 0 <= i < j < |g| :: cs[g[i]].repo != cs[g[j]].repo || cs[g[i]].commit != cs[g[j]].commit
  {
    forall i, j | 0 <= i < j < |g| ensures cs[g[i]].repo != cs[g[j]].repo || cs[g[i]].commit != cs[g[j]].commit {
      var k := Commits(cs)[g[i]];
      var same := ClassOf(Commits(cs), Elements(g), k);
      assert |same| <= 1;
      if Commits(cs)[g[j]] == k {
        assert g[i] in same && g[j] in same;
        assert {g[i], g[j]} <= same;
        SubsetSize({g[i], g[j]}, same);
      }
    }
  }

  /** The first selected row has the greatest score of all candidates. */
  lemma FirstIsHardest(candidates: seq<Candidate>, count: nat, cap: nat)
    requires candidates != [] && count >= 2 && cap >= 1
    ensures var rows := SelectionOf(candidates, count, cap).selected;
            rows != [] && forall c | c in candidates :: rows[0].score >= c.score
  {
    var cs, g := SelectionRows(candidates, count, cap);
    FirstIsKept(cs, count, cap);
    GreedyGrows(Fits(cs, count, cap), 1, |cs|, count);
    SameElements(cs, candidates);
    forall c | c in candidates ensures cs[0].score >= c.score {
      var i :| 0 <= i < |cs| && cs[i] == c;
      assert i == 0 || Precedes(cs[0], cs[i]);
    }
  }

  lemma {:induction false} RowsPrefix(cs: seq<Candidate>, g: seq<nat>, k: nat)
    requires (forall i | 0 <= i < |g| :: g[i] < |cs|) && k <= |g|
    ensures Rows(cs, g)[..k] == Rows(cs, g[..k])
  {
    if k == |g| {
      assert g[..k] == g;
    } else {
      RowsPrefix(cs, g[..|g| - 1], k);
      assert g[..|g| - 1][..k] == g[..k];
    }
  }

  /** Every candidate is selected, or stands behind the rows in front of some place k of the selection,
      which are all the rows asked for or leave no room for it. */
  lemma LeftOutIsBlocked(candidates: seq<Candidate>, count: nat, cap: nat, c: Candidate) returns (k: nat)
    requires c in candidates && c !in SelectionOf(candidates, count, cap).selected
    ensures var rows := SelectionOf(candidates, count, cap).selected;
            && k <= |rows| && (forall i | 0 <= i < k :: Precedes(rows[i], c) && rows[i].score >= c.score)
            && (k == count || Blocked(c, rows[..k], count, cap))
  {
    var cs, g := SelectionRows(candidates, count, cap);
    SameElements(cs, candidates);
    var n :| 0 <= n < |cs| && cs[n] == c;
    NotChosen(cs, g, n);
    k := PassedOverAt(cs, g, n, count, cap);
  }

  lemma NotChosen(cs: seq<Candidate>, g: seq<nat>, n: nat)
    requires (forall k | 0 <= k < |g| :: g[k] < |cs|) && n < |cs| && cs[n] !in Rows(cs, g)
    ensures n !in g
  {
    forall k | 0 <= k < |g| ensures g[k] != n { RowsAt(cs, g, k); }
  }

  lemma PassedOverAt(cs: seq<Candidate>, g: seq<nat>, n: nat, count: nat, cap: nat) returns (k: nat)
    requires Descending(cs) && g == Chosen(cs, |cs|, count, cap) && n < |cs| && n !in g
    requires forall k | 0 <= k < |g| :: Rows(cs, g)[k] == cs[g[k]]
    ensures k <= |g| && (forall i | 0 <= i < k :: Precedes(Rows(cs, g)[i], cs[n]))
    ensures k == count || Blocked(cs[n], Rows(cs, g)[..k], count, cap)
  {
    var before := Chosen(cs, n, count, cap);
    k := |before|;
    PassedOverConflicts(cs, |cs|, n, count, cap);
    GreedyIncreasing(Fits(cs, count, cap), n, count);
    ConflictsMeans(cs, before, n, count, cap);
    assert g[..k] == before;
    RowsPrefix(cs, g, k);
    forall i | 0 <= i < k ensures Precedes(Rows(cs, g)[i], cs[n]) { assert g[i] == before[i] < n; }
  }

  /** The reserve lists the candidates whose id was not selected. */
  lemma ReserveMeans(candidates: seq<Candidate>, count: nat, cap: nat)
    ensures var s := SelectionOf(candidates, count, cap);
            forall row :: row in s.reserve <==>
              row in candidates && forall i | 0 <= i < |s.selected| :: s.selected[i].id != row.id
  {
    var cs, g := SelectionRows(candidates, count, cap);
    ReserveDescends(cs, Ids(Rows(cs, g)));
    SameElements(cs, candidates);
  }
}
