/** The capped greedy selection of hard benchmark candidates: scan the candidates in score
    order and keep each one whose commit is new and whose language and type have room. */
module GreedySelection {
  import opened Wrappers
  import opened Sorting

  datatype Candidate = Candidate(
    id: string, language: string, kind: string, repo: string, commit: string,
    score: real, preferred: bool)

  function Languages(cs: seq<Candidate>): (ks: seq<string>) {
    seq(|cs|, i requires 0 <= i < |cs| => cs[i].language)
  }

  function Kinds(cs: seq<Candidate>): (ks: seq<string>) {
    seq(|cs|, i requires 0 <= i < |cs| => cs[i].kind)
  }

  function Commits(cs: seq<Candidate>): (ks: seq<(string, string)>) {
    seq(|cs|, i requires 0 <= i < |cs| => (cs[i].repo, cs[i].commit))
  }

  /** The members of a set of positions that carry a given key. */
  function ClassOf<K(==)>(keys: seq<K>, s: set<nat>, k: K): (c: set<nat>) {
    set i | i in s && i < |keys| && keys[i] == k
  }

  /** One partition constraint: no key occurs more than `cap` times. */
  ghost predicate WithinCap<K(!new)>(keys: seq<K>, s: set<nat>, cap: nat) {
    forall k :: |ClassOf(keys, s, k)| <= cap
  }

  /** The three constraints together: language cap, type cap `count / 2`, distinct commits. */
  ghost predicate Feasible(cs: seq<Candidate>, s: set<nat>, count: nat, cap: nat) {
    && (forall i | i in s :: i < |cs|)
    && WithinCap(Languages(cs), s, cap)
    && WithinCap(Kinds(cs), s, count / 2)
    && WithinCap(Commits(cs), s, 1)
  }

  /** Position i conflicts with s: its commit is taken, or its language or type is full. */
  predicate Conflicts(cs: seq<Candidate>, s: set<nat>, i: nat, count: nat, cap: nat)
    requires i < |cs|
  {
    || |ClassOf(Commits(cs), s, Commits(cs)[i])| >= 1
    || |ClassOf(Languages(cs), s, cs[i].language)| >= cap
    || |ClassOf(Kinds(cs), s, cs[i].kind)| >= count / 2
  }

  /** The positions below n that a greedy scan keeps, stopping at `count`. */
  function Greedy(fits: (seq<nat>, nat) -> bool, n: nat, count: nat): (g: seq<nat>)
    ensures forall k | 0 <= k < |g| :: g[k] < n
    ensures |g| <= count
  {
    if n == 0 then []
    else
      var g := Greedy(fits, n - 1, count);
      if |g| == count || !fits(g, n - 1) then g else g + [n - 1]
  }

  function Elements(g: seq<nat>): (s: set<nat>) {
    set i | i in g
  }

  function Fits(cs: seq<Candidate>, count: nat, cap: nat): (f: (seq<nat>, nat) -> bool) {
    (g: seq<nat>, i: nat) => i < |cs| && !Conflicts(cs, Elements(g), i, count, cap)
  }

  /** The positions kept from the first n candidates, in list order. */
  function Chosen(cs: seq<Candidate>, n: nat, count: nat, cap: nat): (g: seq<nat>)
    requires n <= |cs|
    ensures forall k | 0 <= k < |g| :: g[k] < n
    ensures |g| <= count
  {
    Greedy(Fits(cs, count, cap), n, count)
  }

  function Rows(cs: seq<Candidate>, g: seq<nat>): (r: seq<Candidate>)
    requires forall k | 0 <= k < |g| :: g[k] < |cs|
    ensures |r| == |g|
  {
    if g == [] then [] else Rows(cs, g[..|g| - 1]) + [cs[g[|g| - 1]]]
  }

  // ----- The loop

  function Tally<K(==)>(counts: map<K, nat>, k: K): (n: nat) {
    if k in counts then counts[k] else 0
  }

  ghost predicate Counted<K(!new)>(counts: map<K, nat>, keys: seq<K>, s: set<nat>) {
    forall k :: Tally(counts, k) == |ClassOf(keys, s, k)|
  }

  ghost predicate Seen<K(!new)>(taken: set<K>, keys: seq<K>, s: set<nat>) {
    forall k :: k in taken <==> |ClassOf(keys, s, k)| >= 1
  }

  /** The two counters and the commit set describe the positions kept so far. */
  ghost predicate Books(cs: seq<Candidate>, languages: map<string, nat>, kinds: map<string, nat>,
                        commits: set<(string, string)>, g: seq<nat>) {
    && Counted(languages, Languages(cs), Elements(g))
    && Counted(kinds, Kinds(cs), Elements(g))
    && Seen(commits, Commits(cs), Elements(g))
  }

  lemma BooksConflicts(cs: seq<Candidate>, languages: map<string, nat>, kinds: map<string, nat>,
                       commits: set<(string, string)>, g: seq<nat>, n: nat, count: nat, cap: nat)
    requires n < |cs| && Books(cs, languages, kinds, commits, g)
    ensures Conflicts(cs, Elements(g), n, count, cap) <==>
            || (cs[n].repo, cs[n].commit) in commits
            || Tally(languages, cs[n].language) >= cap
            || Tally(kinds, cs[n].kind) >= count / 2
  {
  }

  lemma BooksExtend(cs: seq<Candidate>, languages: map<string, nat>, kinds: map<string, nat>,
                    commits: set<(string, string)>, g: seq<nat>, n: nat)
    requires n < |cs| && n !in g && Books(cs, languages, kinds, commits, g)
    ensures Books(cs, languages[cs[n].language := Tally(languages, cs[n].language) + 1],
                  kinds[cs[n].kind := Tally(kinds, cs[n].kind) + 1],
                  commits + {(cs[n].repo, cs[n].commit)}, g + [n])
  {
    assert Elements(g + [n]) == Elements(g) + {n};
    CountedExtend(languages, Languages(cs), Elements(g), n);
    CountedExtend(kinds, Kinds(cs), Elements(g), n);
    SeenExtend(commits, Commits(cs), Elements(g), n);
  }

  lemma ChosenStep(cs: seq<Candidate>, n: nat, count: nat, cap: nat)
    requires n < |cs| && |Chosen(cs, n, count, cap)| < count
    ensures var g := Chosen(cs, n, count, cap);
            && n !in g
            && Chosen(cs, n + 1, count, cap) ==
               if Conflicts(cs, Elements(g), n, count, cap) then g else g + [n]
  {
  }

  /** One turn of the loop, in terms of its books. */
  lemma SelectStep(cs: seq<Candidate>, languages: map<string, nat>, kinds: map<string, nat>,
                   commits: set<(string, string)>, g: seq<nat>, n: nat, count: nat, cap: nat)
    requires n < |cs| && g == Chosen(cs, n, count, cap) && |g| < count
    requires Books(cs, languages, kinds, commits, g)
    ensures if || (cs[n].repo, cs[n].commit) in commits
               || Tally(languages, cs[n].language) >= cap
               || Tally(kinds, cs[n].kind) >= count / 2
            then Chosen(cs, n + 1, count, cap) == g
            else
              && Chosen(cs, n + 1, count, cap) == g + [n]
              && Rows(cs, g + [n]) == Rows(cs, g) + [cs[n]]
              && Books(cs, languages[cs[n].language := Tally(languages, cs[n].language) + 1],
                       kinds[cs[n].kind := Tally(kinds, cs[n].kind) + 1],
                       commits + {(cs[n].repo, cs[n].commit)}, g + [n])
  {
    BooksConflicts(cs, languages, kinds, commits, g, n, count, cap);
    ChosenStep(cs, n, count, cap);
    BooksExtend(cs, languages, kinds, commits, g, n);
    assert (g + [n])[..|g|] == g;
  }

  method Select(cs: seq<Candidate>, count: nat, cap: nat) returns (selected: seq<Candidate>)
    requires count >= 1
    ensures selected == Rows(cs, Chosen(cs, |cs|, count, cap))
  {
    selected := [];
    var languageCounts: map<string, nat>, kindCounts: map<string, nat> := map[], map[];
    var commitKeys: set<(string, string)> := {};
    ghost var g: seq<nat> := [];
    for n := 0 to |cs|
      invariant g == Chosen(cs, n, count, cap) && |g| < count
      invariant selected == Rows(cs, g)
      invariant Books(cs, languageCounts, kindCounts, commitKeys, g)
    {
      var row := cs[n];
      var commitKey := (row.repo, row.commit);
      SelectStep(cs, languageCounts, kindCounts, commitKeys, g, n, count, cap);
      if commitKey in commitKeys
         || Tally(languageCounts, row.language) >= cap
         || Tally(kindCounts, row.kind) >= count / 2 {
        continue;
      }
      selected := selected + [row];
      languageCounts := languageCounts[row.language := Tally(languageCounts, row.language) + 1];
      kindCounts := kindCounts[row.kind := Tally(kindCounts, row.kind) + 1];
      commitKeys := commitKeys + {commitKey};
      g := g + [n];
      if |selected| == count {
        ChosenFull(cs, n + 1, count, cap);
        return;
      }
    }
  }

  lemma ChosenFull(cs: seq<Candidate>, n: nat, count: nat, cap: nat)
    requires n <= |cs| && |Chosen(cs, n, count, cap)| == count
    ensures Chosen(cs, |cs|, count, cap) == Chosen(cs, n, count, cap)
  {
    GreedyFull(Fits(cs, count, cap), n, |cs|, count);
  }

  lemma CountedExtend<K(!new)>(counts: map<K, nat>, keys: seq<K>, s: set<nat>, n: nat)
    requires Counted(counts, keys, s) && n < |keys| && n !in s
    ensures Counted(counts[keys[n] := Tally(counts, keys[n]) + 1], keys, s + {n})
  {
    ClassExtend(keys, s, n);
  }

  lemma SeenExtend<K(!new)>(taken: set<K>, keys: seq<K>, s: set<nat>, n: nat)
    requires Seen(taken, keys, s) && n < |keys| && n !in s
    ensures Seen(taken + {keys[n]}, keys, s + {n})
  {
    ClassExtend(keys, s, n);
  }

  lemma ClassExtend<K(!new)>(keys: seq<K>, s: set<nat>, n: nat)
    requires n < |keys| && n !in s
    ensures forall k :: ClassOf(keys, s + {n}, k) ==
                        if keys[n] == k then ClassOf(keys, s, k) + {n} else ClassOf(keys, s, k)
    ensures forall k :: n !in ClassOf(keys, s, k)
  {
  }

  lemma {:induction false} GreedyFull(fits: (seq<nat>, nat) -> bool, n: nat, m: nat, count: nat)
    requires n <= m && |Greedy(fits, n, count)| == count
    ensures Greedy(fits, m, count) == Greedy(fits, n, count)
    decreases m
  {
    if n == m {
    } else {
      GreedyFull(fits, n, m - 1, count);
    }
  }

  lemma {:induction false} ElementsSize(fits: (seq<nat>, nat) -> bool, n: nat, count: nat)
    ensures |Elements(Greedy(fits, n, count))| == |Greedy(fits, n, count)|
  {
    if n == 0 {
    } else {
      ElementsSize(fits, n - 1, count);
      var g := Greedy(fits, n - 1, count);
      assert Elements(g + [n - 1]) == Elements(g) + {n - 1};
    }
  }

  // ----- The selection obeys the constraints and is maximal at every prefix

  lemma WithinCapExtend<K(!new)>(keys: seq<K>, s: set<nat>, n: nat, cap: nat)
    requires WithinCap(keys, s, cap) && n < |keys| && n !in s
    requires |ClassOf(keys, s, keys[n])| < cap
    ensures WithinCap(keys, s + {n}, cap)
  {
    ClassExtend(keys, s, n);
  }

  lemma {:induction false} ChosenFeasible(cs: seq<Candidate>, n: nat, count: nat, cap: nat)
    requires n <= |cs|
    ensures Feasible(cs, Elements(Chosen(cs, n, count, cap)), count, cap)
  {
    if n == 0 {
      EmptyFeasible(Languages(cs), cap);
      EmptyFeasible(Kinds(cs), count / 2);
      EmptyFeasible(Commits(cs), 1);
    } else {
      ChosenFeasible(cs, n - 1, count, cap);
      var g := Chosen(cs, n - 1, count, cap);
      var s := Elements(g);
      assert Elements(g + [n - 1]) == s + {n - 1};
      if |g| != count && !Conflicts(cs, s, n - 1, count, cap) {
        FeasibleExtend(cs, s, n - 1, count, cap);
      }
    }
  }

  lemma FeasibleExtend(cs: seq<Candidate>, s: set<nat>, n: nat, count: nat, cap: nat)
    requires Feasible(cs, s, count, cap) && n < |cs| && n !in s && !Conflicts(cs, s, n, count, cap)
    ensures Feasible(cs, s + {n}, count, cap)
  {
    WithinCapExtend(Languages(cs), s, n, cap);
    WithinCapExtend(Kinds(cs), s, n, count / 2);
    WithinCapExtend(Commits(cs), s, n, 1);
  }

  lemma EmptyFeasible<K(!new)>(keys: seq<K>, cap: nat)
    ensures WithinCap(keys, {}, cap)
  {
    forall k ensures |ClassOf(keys, {}, k)| <= cap {
      assert ClassOf(keys, {}, k) == {};
    }
  }

  lemma SubsetSize(a: set<nat>, b: set<nat>)
    requires a <= b
    ensures |a| <= |b|
  {
    assert b == a + (b - a);
  }

  lemma ConflictsMonotone(cs: seq<Candidate>, s: set<nat>, t: set<nat>, i: nat, count: nat, cap: nat)
    requires i < |cs| && s <= t && Conflicts(cs, s, i, count, cap)
    ensures Conflicts(cs, t, i, count, cap)
  {
    SubsetSize(ClassOf(Commits(cs), s, Commits(cs)[i]), ClassOf(Commits(cs), t, Commits(cs)[i]));
    SubsetSize(ClassOf(Languages(cs), s, cs[i].language), ClassOf(Languages(cs), t, cs[i].language));
    SubsetSize(ClassOf(Kinds(cs), s, cs[i].kind), ClassOf(Kinds(cs), t, cs[i].kind));
  }

  lemma {:induction false} GreedyPassedOver(fits: (seq<nat>, nat) -> bool, n: nat, i: nat, count: nat)
    requires i < n && i !in Greedy(fits, n, count)
    ensures |Greedy(fits, i, count)| == count || !fits(Greedy(fits, i, count), i)
    decreases n
  {
    if i == n - 1 {
    } else {
      GreedyPassedOver(fits, n - 1, i, count);
    }
  }

  lemma {:induction false} GreedyGrows(fits: (seq<nat>, nat) -> bool, i: nat, n: nat, count: nat)
    requires i <= n
    ensures Greedy(fits, i, count) <= Greedy(fits, n, count)
    decreases n
  {
    if i == n {
    } else {
      GreedyGrows(fits, i, n - 1, count);
    }
  }

  /** Every candidate passed over conflicts with candidates kept before it, all of which rank
      at least as high, unless the selection was already full when it came up. */
  lemma PassedOverConflicts(cs: seq<Candidate>, n: nat, i: nat, count: nat, cap: nat)
    requires i < n <= |cs| && i !in Chosen(cs, n, count, cap)
    ensures Chosen(cs, i, count, cap) <= Chosen(cs, n, count, cap)
    ensures |Chosen(cs, i, count, cap)| == count ||
            Conflicts(cs, Elements(Chosen(cs, i, count, cap)), i, count, cap)
  {
    GreedyPassedOver(Fits(cs, count, cap), n, i, count);
    GreedyGrows(Fits(cs, count, cap), i, n, count);
  }

  // ----- At most three times as many candidates are possible

  /** If every class met by b is at least `cap` large in s and at most `cap` large in b, then b
      is no larger than s. */
  lemma {:induction false} FullClassesBound<K(!new)>(keys: seq<K>, s: set<nat>, b: set<nat>, cap: nat)
    requires forall i | i in b :: i < |keys| && |ClassOf(keys, s, keys[i])| >= cap
    requires WithinCap(keys, b, cap)
    ensures |b| <= |s|
    decreases b
  {
    if b == {} {
    } else {
      var i :| i in b;
      var k := keys[i];
      var bk, sk := ClassOf(keys, b, k), ClassOf(keys, s, k);
      var b', s' := b - bk, s - sk;
      assert i in bk;
      forall j | j in b' ensures |ClassOf(keys, s', keys[j])| >= cap {
        assert ClassOf(keys, s', keys[j]) == ClassOf(keys, s, keys[j]);
      }
      forall l ensures |ClassOf(keys, b', l)| <= cap {
        SubsetSize(ClassOf(keys, b', l), ClassOf(keys, b, l));
      }
      FullClassesBound(keys, s', b', cap);
      assert b == bk + b' && s == sk + s';
    }
  }

  lemma WithinCapSubset<K(!new)>(keys: seq<K>, a: set<nat>, b: set<nat>, cap: nat)
    requires a <= b && WithinCap(keys, b, cap)
    ensures WithinCap(keys, a, cap)
  {
    forall k ensures |ClassOf(keys, a, k)| <= cap {
      SubsetSize(ClassOf(keys, a, k), ClassOf(keys, b, k));
    }
  }

  /** The positions of t that one partition constraint shuts out of s. */
  ghost function ShutOut<K(!new)>(keys: seq<K>, s: set<nat>, t: set<nat>, cap: nat): (b: set<nat>) {
    set i | i in t && i < |keys| && |ClassOf(keys, s, keys[i])| >= cap
  }

  lemma ShutOutBound<K(!new)>(keys: seq<K>, s: set<nat>, t: set<nat>, cap: nat)
    requires WithinCap(keys, t, cap)
    ensures |ShutOut(keys, s, t, cap)| <= |s|
  {
    WithinCapSubset(keys, ShutOut(keys, s, t, cap), t, cap);
    FullClassesBound(keys, s, ShutOut(keys, s, t, cap), cap);
  }

  /** A set that meets s only in conflicts is at most three times as large as s. */
  lemma ThreeConstraintsBound(cs: seq<Candidate>, s: set<nat>, t: set<nat>, count: nat, cap: nat)
    requires Feasible(cs, t, count, cap)
    requires forall i | i in t :: Conflicts(cs, s, i, count, cap)
    ensures |t| <= 3 * |s|
  {
    var byCommit := ShutOut(Commits(cs), s, t, 1);
    var byLanguage := ShutOut(Languages(cs), s, t, cap);
    var byKind := ShutOut(Kinds(cs), s, t, count / 2);
    ShutOutBound(Commits(cs), s, t, 1);
    ShutOutBound(Languages(cs), s, t, cap);
    ShutOutBound(Kinds(cs), s, t, count / 2);
    CoveredByThree(t, byCommit, byLanguage, byKind);
  }

  lemma CoveredByThree(t: set<nat>, a: set<nat>, b: set<nat>, c: set<nat>)
    requires forall i | i in t :: i in a || i in b || i in c
    ensures |t| <= |a| + |b| + |c|
  {
    SubsetSize(t, a + b + c);
  }

  /** A kept candidate's own commit is taken. */
  lemma KeptConflicts(cs: seq<Candidate>, s: set<nat>, i: nat, count: nat, cap: nat)
    requires i in s && i < |cs|
    ensures Conflicts(cs, s, i, count, cap)
  {
    assert i in ClassOf(Commits(cs), s, Commits(cs)[i]);
    SubsetSize({i}, ClassOf(Commits(cs), s, Commits(cs)[i]));
  }

  /** The guarantee, for every prefix of the candidate list: if the selection has room left,
      every candidate of the prefix conflicts with it, and no set of candidates of that prefix
      obeying the three constraints is more than three times as large.  A full selection is as
      large as any set within the requested count. */
  lemma GreedyGuarantee(cs: seq<Candidate>, n: nat, count: nat, cap: nat, t: set<nat>)
    requires n <= |cs|
    requires Feasible(cs, t, count, cap) && forall i | i in t :: i < n
    ensures var g := Chosen(cs, n, count, cap);
            && (|g| < count ==> forall i | 0 <= i < n :: Conflicts(cs, Elements(g), i, count, cap))
            && (|g| < count || |t| <= count ==> |t| <= 3 * |g|)
  {
    var g := Chosen(cs, n, count, cap);
    if |g| < count {
      forall i | 0 <= i < n ensures Conflicts(cs, Elements(g), i, count, cap) {
        if i in g {
          KeptConflicts(cs, Elements(g), i, count, cap);
        } else {
          PassedOverConflicts(cs, n, i, count, cap);
          ConflictsMonotone(cs, Elements(Chosen(cs, i, count, cap)), Elements(g), i, count, cap);
        }
      }
      ThreeConstraintsBound(cs, Elements(g), t, count, cap);
      ElementsSize(Fits(cs, count, cap), n, count);
    }
  }

  function Sample(language: string, kind: string, commit: string): (c: Candidate) {
    Candidate("", language, kind, "r", commit, 1.0, false)
  }

  function Four(): (cs: seq<Candidate>) {
    [Sample("a", "x", "1"), Sample("a", "y", "2"), Sample("b", "x", "3"), Sample("c", "z", "1")]
  }

  /** The factor three is reached: with one slot per language and type, taking the first of
      these four candidates shuts out three that fit together. */
  lemma FactorThreeIsReached()
    ensures Chosen(Four(), 4, 3, 1) == [0] && Feasible(Four(), {1, 2, 3}, 3, 1)
  {
    FirstOfFour();
    OthersOfFour();
  }

  lemma FirstOfFour()
    ensures Chosen(Four(), 4, 3, 1) == [0]
  {
    FirstStaysAlone(Four(), 4);
  }

  predicate Clash(a: Candidate, b: Candidate) {
    a.language == b.language || a.kind == b.kind || (a.repo == b.repo && a.commit == b.commit)
  }

  lemma {:induction false} FirstStaysAlone(cs: seq<Candidate>, n: nat)
    requires 1 <= n <= |cs|
    requires forall i | 0 <= i < n :: Clash(cs[i], cs[0])
    ensures Chosen(cs, n, 3, 1) == [0]
  {
    if n == 1 {
      FirstIsKept(cs, 3, 1);
    } else {
      FirstStaysAlone(cs, n - 1);
      assert Elements([0]) == {0};
      FirstShutsOut(cs, n - 1);
      ChosenStep(cs, n - 1, 3, 1);
    }
  }

  lemma OthersOfFour()
    ensures Feasible(Four(), {1, 2, 3}, 3, 1)
  {
    DistinctWithinOne(Languages(Four()), {1, 2, 3});
    DistinctWithinOne(Kinds(Four()), {1, 2, 3});
    DistinctWithinOne(Commits(Four()), {1, 2, 3});
  }

  lemma FirstShutsOut(cs: seq<Candidate>, i: nat)
    requires i < |cs|
    requires Clash(cs[i], cs[0])
    ensures Conflicts(cs, {0}, i, 3, 1)
  {
    assert cs[i].language == cs[0].language ==> ClassOf(Languages(cs), {0}, cs[i].language) == {0};
    assert cs[i].kind == cs[0].kind ==> ClassOf(Kinds(cs), {0}, cs[i].kind) == {0};
    assert Commits(cs)[i] == Commits(cs)[0] ==> ClassOf(Commits(cs), {0}, Commits(cs)[i]) == {0};
  }

  lemma FirstIsKept(cs: seq<Candidate>, count: nat, cap: nat)
    requires cs != [] && count >= 2 && cap >= 1
    ensures Chosen(cs, 1, count, cap) == [0]
  {
    assert Chosen(cs, 0, count, cap) == [];
    assert Elements([]) == {};
    assert ClassOf(Commits(cs), {}, Commits(cs)[0]) == {};
    assert ClassOf(Languages(cs), {}, cs[0].language) == {};
    assert ClassOf(Kinds(cs), {}, cs[0].kind) == {};
  }

  lemma DistinctWithinOne<K(!new)>(keys: seq<K>, s: set<nat>)
    requires forall i, j | i in s && j in s && i < |keys| && j < |keys| && keys[i] == keys[j] :: i == j
    ensures WithinCap(keys, s, 1)
  {
    forall k ensures |ClassOf(keys, s, k)| <= 1 {
      if i :| i in ClassOf(keys, s, k) {
        assert ClassOf(keys, s, k) == {i};
      }
    }
  }

  /** The type cap is half the count rounded down, so a request for one candidate selects none;
      every larger request on a non-empty list selects something. */
  lemma {:induction false} EmptySelectionIff(cs: seq<Candidate>, n: nat, count: nat, cap: nat)
    requires n <= |cs| && count >= 1 && cap >= 1
    ensures Chosen(cs, n, count, cap) == [] <==> n == 0 || count == 1
  {
    if n == 0 {
    } else {
      EmptySelectionIff(cs, n - 1, count, cap);
      if n == 1 && count >= 2 { FirstIsKept(cs, count, cap); }
    }
  }

  // ----- Score order, reserve list and the whole selection

  predicate Ahead(a: Candidate, b: Candidate) {
    || a.score > b.score
    || (a.score == b.score && a.preferred && !b.preferred)
    || (a.score == b.score && a.preferred == b.preferred && LexLe(a.id, b.id))
  }

  function ByScore(): (le: (Candidate, Candidate) -> bool) {
    (a, b) => Ahead(a, b)
  }

  lemma ByScoreIsTotalPreorder()
    ensures TotalPreorder(ByScore())
  {
    ByTextIsTotalOrder();
    forall a: Candidate, b: Candidate ensures Ahead(a, b) || Ahead(b, a) {
      LexTotal(a.id, b.id);
    }
    forall a: Candidate, b: Candidate, c: Candidate | Ahead(a, b) && Ahead(b, c) ensures Ahead(a, c) {
      if a.score == b.score == c.score && a.preferred == b.preferred == c.preferred {
        LexTransitive(a.id, b.id, c.id);
      }
    }
  }

  /** A candidate passed over while there was room never ranks ahead of what it conflicts with. */
  lemma PassedOverRanksBehind(raw: seq<Candidate>, n: nat, i: nat, j: nat, count: nat, cap: nat)
    requires var cs := Sort(ByScore(), raw);
             i < n <= |cs| && i !in Chosen(cs, n, count, cap) && j in Chosen(cs, i, count, cap)
    ensures Ahead(Sort(ByScore(), raw)[j], Sort(ByScore(), raw)[i])
  {
    ByScoreIsTotalPreorder();
    SortSorts(ByScore(), raw);
    var cs := Sort(ByScore(), raw);
    assert j < i;
    assert ByScore()(cs[j], cs[i]);
  }

  function Ids(rows: seq<Candidate>): (ids: set<string>) {
    set i | 0 <= i < |rows| :: rows[i].id
  }

  /** The candidates whose id was not selected. */
  function Reserve(cs: seq<Candidate>, taken: set<string>): (r: seq<Candidate>) {
    if cs == [] then []
    else
      var last := cs[|cs| - 1];
      Reserve(cs[..|cs| - 1], taken) + if last.id in taken then [] else [last]
  }

  function Untaken(cs: seq<Candidate>, taken: set<string>): (s: set<nat>) {
    set i: nat | i < |cs| && cs[i].id !in taken
  }

  lemma {:induction false} ReserveSize(cs: seq<Candidate>, taken: set<string>)
    ensures |Reserve(cs, taken)| == |Untaken(cs, taken)|
  {
    if cs == [] {
      assert Untaken(cs, taken) == {};
    } else {
      var n := |cs| - 1;
      ReserveSize(cs[..n], taken);
      assert Untaken(cs, taken) == Untaken(cs[..n], taken) + if cs[n].id in taken then {} else {n};
    }
  }

  /** Selected and reserve rows together account for every candidate exactly when no candidate
      left out shares its id with a selected one. */
  lemma ReserveComplete(cs: seq<Candidate>, s: set<nat>, taken: set<string>)
    requires forall i | i in s :: i < |cs| && cs[i].id in taken
    ensures |s| + |Reserve(cs, taken)| == |cs| <==>
            forall i: nat | i < |cs| && i !in s :: cs[i].id !in taken
  {
    ReserveSize(cs, taken);
    var both := s + Untaken(cs, taken);
    var all := Range(|cs|);
    assert |both| == |s| + |Untaken(cs, taken)|;
    if |both| == |cs| {
      SameSize(both, all);
      assert forall i | i in all :: i in both;
    }
    if forall i: nat | i < |cs| && i !in s :: cs[i].id !in taken {
      assert both == all;
    }
  }

  function Range(n: nat): (s: set<nat>)
    ensures |s| == n
    ensures forall i: nat :: i in s <==> i < n
  {
    if n == 0 then {} else Range(n - 1) + {n - 1}
  }

  lemma SameSize(a: set<nat>, b: set<nat>)
    requires a <= b && |a| == |b|
    ensures a == b
  {
    assert b == a + (b - a);
    assert |b - a| == 0;
  }

  datatype Selection = Selection(selected: seq<Candidate>, reserve: seq<Candidate>)

  /** The rows kept from the sorted candidates, and the sorted candidates whose id was not. */
  function SelectionOf(candidates: seq<Candidate>, count: nat, cap: nat): (s: Selection) {
    var cs := Sort(ByScore(), candidates);
    var rows := Rows(cs, Chosen(cs, |cs|, count, cap));
    Selection(rows, Reserve(cs, Ids(rows)))
  }

  /** Sort, select, and refuse a selection spread over too few languages. */
  method SelectHard(candidates: seq<Candidate>, count: nat, cap: nat, minLanguages: nat)
      returns (r: Result<Selection, string>)
    requires count >= 1 && cap >= 1
    ensures var s := SelectionOf(candidates, count, cap);
            r == if |set i | 0 <= i < |s.selected| :: s.selected[i].language| < minLanguages
                 then Err("too few languages") else Ok(s)
  {
    var cs := Sort(ByScore(), candidates);
    var selected := Select(cs, count, cap);
    var reserve := Reserve(cs, Ids(selected));
    if |set i | 0 <= i < |selected| :: selected[i].language| < minLanguages {
      return Err("too few languages");
    }
    return Ok(Selection(selected, reserve));
  }
}
