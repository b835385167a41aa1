/** Lists of entries that carry an identifier: filtering, mapping and indexing by it. */
module KeyedLists {

  function Filter<T>(s: seq<T>, keep: T -> bool): (r: seq<T>) {
    if s == [] then [] else (if keep(s[0]) then [s[0]] else []) + Filter(s[1..], keep)
  }

  function Map<S, T>(s: seq<S>, f: S -> T): (r: seq<T>)
    ensures |r| == |s| && forall i | 0 <= i < |s| :: r[i] == f(s[i])
  {
    seq(|s|, i requires 0 <= i < |s| => f(s[i]))
  }

  ghost predicate Distinct(s: seq<string>) {
    forall i, j | 0 <= i < j < |s| :: s[i] != s[j]
  }

  /** The index {key(e): e for e in s}: a later entry replaces an earlier one. */
  function ById<T>(s: seq<T>, key: T -> string): (m: map<string, T>) {
    if s == [] then map[] else ById(s[..|s| - 1], key)[key(s[|s| - 1]) := s[|s| - 1]]
  }

  lemma {:induction false} FilterMembers<T(!new)>(s: seq<T>, keep: T -> bool)
    ensures forall x :: x in Filter(s, keep) <==> x in s && keep(x)
  {
    if s == [] {
    } else {
      FilterMembers(s[1..], keep);
      assert s == [s[0]] + s[1..];
    }
  }

  lemma {:induction false} FilterAll<T>(s: seq<T>, keep: T -> bool)
    requires forall i | 0 <= i < |s| :: keep(s[i])
    ensures Filter(s, keep) == s
  {
    if s == [] {
    } else {
      FilterAll(s[1..], keep);
      assert s == [s[0]] + s[1..];
    }
  }

  lemma {:induction false} FilterNone<T>(s: seq<T>, keep: T -> bool)
    requires forall i | 0 <= i < |s| :: !keep(s[i])
    ensures Filter(s, keep) == []
  {
    if s == [] {
    } else {
      FilterNone(s[1..], keep);
    }
  }

  lemma {:induction false} FilterConcat<T>(a: seq<T>, b: seq<T>, keep: T -> bool)
    ensures Filter(a + b, keep) == Filter(a, keep) + Filter(b, keep)
  {
    if a == [] {
      assert a + b == b;
    } else {
      FilterConcat(a[1..], b, keep);
      FilterFirst(a[0], a[1..] + b, keep);
      FilterFirst(a[0], a[1..], keep);
      assert a + b == [a[0]] + (a[1..] + b) && a == [a[0]] + a[1..];
      Associative(if keep(a[0]) then [a[0]] else [], Filter(a[1..], keep), Filter(b, keep));
    }
  }

  lemma Associative<T>(a: seq<T>, b: seq<T>, c: seq<T>)
    ensures (a + b) + c == a + (b + c)
  {
  }

  lemma FilterFirst<T>(x: T, s: seq<T>, keep: T -> bool)
    ensures Filter([x] + s, keep) == (if keep(x) then [x] else []) + Filter(s, keep)
  {
    assert ([x] + s)[1..] == s;
  }

  /** Removing, adding entries that would be removed, and removing again is removing once. */
  lemma FilterAgain<T(!new)>(s: seq<T>, added: seq<T>, keep: T -> bool)
    requires forall i | 0 <= i < |added| :: !keep(added[i])
    ensures Filter(Filter(s, keep) + added, keep) == Filter(s, keep)
  {
    FilterConcat(Filter(s, keep), added, keep);
    FilterMembers(s, keep);
    FilterAll(Filter(s, keep), keep);
    FilterNone(added, keep);
  }

  lemma DistinctConcat(a: seq<string>, b: seq<string>)
    ensures Distinct(a + b) <==> Distinct(a) && Distinct(b) && forall x | x in a :: x !in b
  {
    var c := a + b;
    if Distinct(c) {
      forall i, j | 0 <= i < j < |a| ensures a[i] != a[j] { assert c[i] != c[j]; }
      forall i, j | 0 <= i < j < |b| ensures b[i] != b[j] { assert c[|a| + i] != c[|a| + j]; }
      forall x | x in a ensures x !in b {
        var i :| 0 <= i < |a| && a[i] == x;
        forall j | 0 <= j < |b| ensures b[j] != x { assert c[i] != c[|a| + j]; }
      }
    } else {
      var i, j :| 0 <= i < j < |c| && c[i] == c[j];
      if i < |a| <= j {
        assert a[i] in a && b[j - |a|] in b;
      } else if |a| <= i {
        assert b[i - |a|] == b[j - |a|];
      }
    }
  }

  lemma {:induction false} FilterDistinct<T(!new)>(s: seq<T>, keep: T -> bool, key: T -> string)
    requires Distinct(Map(s, key))
    ensures Distinct(Map(Filter(s, keep), key))
  {
    if s == [] {
    } else {
      var ids, rest := Map(s, key), s[1..];
      assert Map(rest, key) == ids[1..];
      FilterDistinct(rest, keep, key);
      FilterMembers(rest, keep);
      var kept := Filter(rest, keep);
      forall i | 0 <= i < |kept| ensures key(kept[i]) != key(s[0]) {
        assert kept[i] in rest;
        var j :| 0 <= j < |rest| && rest[j] == kept[i];
        assert ids[0] != ids[j + 1];
      }
    }
  }

  lemma KeyDetermines<T>(s: seq<T>, key: T -> string, x: T, y: T)
    requires Distinct(Map(s, key)) && x in s && y in s && key(x) == key(y)
    ensures x == y
  {
    var i :| 0 <= i < |s| && s[i] == x;
    var j :| 0 <= j < |s| && s[j] == y;
    var ids := Map(s, key);
    assert ids[i] == ids[j];
  }

  lemma {:induction false} ByIdMembers<T(!new)>(s: seq<T>, key: T -> string)
    ensures forall id | id in ById(s, key) :: ById(s, key)[id] in s && key(ById(s, key)[id]) == id
    ensures forall x | x in s :: key(x) in ById(s, key)
  {
    if s == [] {
    } else {
      var init, last := s[..|s| - 1], s[|s| - 1];
      ByIdMembers(init, key);
      assert s == init + [last];
    }
  }

  /** len(ids) == len(set(ids)) says that nothing repeats. */
  lemma {:induction false} DistinctIff(ids: seq<string>)
    ensures |set x | x in ids| <= |ids|
    ensures |set x | x in ids| == |ids| <==> Distinct(ids)
  {
    if ids == [] {
    } else {
      var init, last := ids[..|ids| - 1], ids[|ids| - 1];
      DistinctIff(init);
      assert ids == init + [last];
      var few := set x | x in init;
      assert (set x | x in ids) == few + {last};
      DistinctConcat(init, [last]);
    }
  }

  /** More places than values: some value repeats. */
  lemma {:induction false} Pigeonhole<T>(xs: seq<T>, values: set<T>)
    requires |xs| > |values| && forall x | x in xs :: x in values
    ensures exists i, j | 0 <= i < j < |xs| :: xs[i] == xs[j]
  {
    var init, last := xs[..|xs| - 1], xs[|xs| - 1];
    if last in init {
      var i :| 0 <= i < |init| && init[i] == last;
      assert xs[i] == xs[|xs| - 1];
    } else {
      assert |values - {last}| == |values| - 1;
      Pigeonhole(init, values - {last});
      var i, j :| 0 <= i < j < |init| && init[i] == init[j];
      assert xs[i] == xs[j];
    }
  }

  lemma Pluck<T>(s: seq<T>, k: nat)
    requires k < |s|
    ensures multiset(s) == multiset{s[k]} + multiset(s[..k] + s[k + 1..])
    ensures multiset(s[..k] + s[k + 1..]) == multiset(s) - multiset{s[k]}
  {
    assert s == s[..k] + [s[k]] + s[k + 1..];
  }

  /** Rearranging a list rearranges its image. */
  lemma {:induction false} MapRearranged<S(!new), T>(a: seq<S>, b: seq<S>, f: S -> T)
    requires multiset(a) == multiset(b)
    ensures multiset(Map(a, f)) == multiset(Map(b, f))
    decreases |a|
  {
    assert |multiset(a)| == |a| && |multiset(b)| == |b|;
    if a == [] {
    } else {
      assert a[0] in multiset(b);
      var k :| 0 <= k < |b| && b[k] == a[0];
      SameRest(a, b, k);
      MapRearranged(a[1..], b[..k] + b[k + 1..], f);
      MapFirst(a, f);
      MapPluck(b, k, f);
    }
  }

  lemma MapFirst<S, T>(s: seq<S>, f: S -> T)
    requires s != []
    ensures multiset(Map(s, f)) == multiset{f(s[0])} + multiset(Map(s[1..], f))
  {
    MapPluck(s, 0, f);
    assert s[..0] + s[1..] == s[1..];
  }

  lemma SameRest<T>(a: seq<T>, b: seq<T>, k: nat)
    requires a != [] && k < |b| && multiset(a) == multiset(b) && a[0] == b[k]
    ensures multiset(a[1..]) == multiset(b[..k] + b[k + 1..])
  {
    assert a == [a[0]] + a[1..];
    assert multiset(a[1..]) == multiset(a) - multiset{a[0]};
    Pluck(b, k);
  }

  lemma MapPluck<S, T>(s: seq<S>, k: nat, f: S -> T)
    requires k < |s|
    ensures multiset(Map(s, f)) == multiset{f(s[k])} + multiset(Map(s[..k] + s[k + 1..], f))
  {
    var image := Map(s, f);
    Pluck(image, k);
    assert Map(s[..k] + s[k + 1..], f) == image[..k] + image[k + 1..];
  }
}
