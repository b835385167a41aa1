/** The process-family memory sampler: which processes it tracks across samples of a changing
    process table with PID reuse, and what its peaks mean.  Process-table and memory readings are
    inputs. */
module ProcessSampler {
  import opened Wrappers

  datatype Identity = Identity(parent: nat, start: int)

  type Table = map<nat, Identity>

  datatype Metrics = Metrics(pss: nat, rss: nat, private: nat, swapPss: nat)

  /** The outcome of reading one process; None when it is unreadable or changed identity. */
  type Reader = nat -> Option<Metrics>

  // ----- Reachability by parent links

  function Children(table: Table, parent: nat): (s: set<nat>) {
    set pid | pid in table && table[pid].parent == parent
  }

  /** A chain of processes of the table, each the parent of the next, from a root to a process. */
  ghost predicate Chain(table: Table, roots: set<nat>, path: seq<nat>, pid: nat) {
    && path != [] && path[0] in roots && path[|path| - 1] == pid
    && (forall i | 0 <= i < |path| :: path[i] in table)
    && (forall i | 0 <= i < |path| - 1 :: table[path[i + 1]].parent == path[i])
  }

  ghost predicate Reachable(table: Table, roots: set<nat>, pid: nat) {
    exists path :: Chain(table, roots, path, pid)
  }

  /** The processes of the table reachable from the roots. */
  ghost function Family(table: Table, roots: set<nat>): (s: set<nat>) {
    set pid | pid in table && Reachable(table, roots, pid)
  }

  lemma RootReachable(table: Table, roots: set<nat>, pid: nat)
    requires pid in roots && pid in table
    ensures Reachable(table, roots, pid)
  {
    assert Chain(table, roots, [pid], pid);
  }

  lemma ChildReachable(table: Table, roots: set<nat>, parent: nat, child: nat)
    requires Reachable(table, roots, parent) && child in Children(table, parent)
    ensures Reachable(table, roots, child)
  {
    var path :| Chain(table, roots, path, parent);
    var longer := path + [child];
    assert Chain(table, roots, longer, child);
  }

  /** A set that holds the roots and is closed under children holds everything reachable. */
  lemma {:induction false} ClosedHoldsChain(table: Table, roots: set<nat>, live: set<nat>, path: seq<nat>, pid: nat)
    requires roots <= live && forall p | p in live :: Children(table, p) <= live
    requires Chain(table, roots, path, pid)
    ensures pid in live
  {
    if |path| == 1 {
    } else {
      var front := path[..|path| - 1];
      var parent := front[|front| - 1];
      assert Chain(table, roots, front, parent);
      ClosedHoldsChain(table, roots, live, front, parent);
      assert table[path[|front| - 1 + 1]].parent == path[|front| - 1];
      assert pid in Children(table, parent);
    }
  }

  // ----- Sums over a set in ascending order

  lemma {:induction false} FindLeast(s: set<nat>) returns (least: nat)
    requires s != {}
    ensures least in s && forall y | y in s :: least <= y
  {
    var x :| x in s;
    var rest := s - {x};
    assert s == rest + {x};
    least := x;
    if rest == {} {
    } else {
      var y := FindLeast(rest);
      if y < x { least := y; }
    }
  }

  lemma LeastExists(s: set<nat>)
    requires s != {}
    ensures exists x :: x in s && forall y | y in s :: x <= y
  {
    var x := FindLeast(s);
  }

  ghost function Least(s: set<nat>): (x: nat)
    requires s != {}
    ensures x in s && forall y | y in s :: x <= y
  {
    LeastExists(s);
    var x :| x in s && forall y | y in s :: x <= y;
    x
  }

  /** The sum of one quantity over the processes that can be read. */
  ghost function Sum(read: Reader, f: Metrics -> nat, s: set<nat>): (n: nat) {
    if s == {} then 0
    else var x := Least(s); Sum(read, f, s - {x}) + if read(x).Some? then f(read(x).value) else 0
  }

  function Pss(): (f: Metrics -> nat) { (m: Metrics) => m.pss }

  function Rss(): (f: Metrics -> nat) { (m: Metrics) => m.rss }

  function Private(): (f: Metrics -> nat) { (m: Metrics) => m.private }

  function SwapPss(): (f: Metrics -> nat) { (m: Metrics) => m.swapPss }

  ghost function Total(read: Reader, s: set<nat>): (t: Metrics) {
    Metrics(Sum(read, Pss(), s), Sum(read, Rss(), s), Sum(read, Private(), s), Sum(read, SwapPss(), s))
  }

  ghost function TotalPss(read: Reader, s: set<nat>): (n: nat) { Sum(read, Pss(), s) }

  ghost function TotalPrivate(read: Reader, s: set<nat>): (n: nat) { Sum(read, Private(), s) }

  /** A sum does not depend on the order: any process may be counted first. */
  lemma {:induction false} SumAny(read: Reader, f: Metrics -> nat, s: set<nat>, x: nat)
    requires x in s
    ensures Sum(read, f, s) == Sum(read, f, s - {x}) + if read(x).Some? then f(read(x).value) else 0
  {
    var l := Least(s);
    if x == l {
    } else {
      SumAny(read, f, s - {l}, x);
      assert s - {l} - {x} == s - {x} - {l};
      assert l in s - {x};
      var m := Least(s - {x});
      assert m in s;
      assert m == l;
    }
  }

  function Added(f: nat -> nat, pids: seq<nat>): (n: nat) {
    if pids == [] then 0 else Added(f, pids[..|pids| - 1]) + f(pids[|pids| - 1])
  }

  /** The sequence lists the set without repeats. */
  ghost predicate Lists(pids: seq<nat>, s: set<nat>) {
    && (forall i, j | 0 <= i < j < |pids| :: pids[i] != pids[j])
    && forall pid :: pid in pids <==> pid in s
  }

  lemma ListsFront(pids: seq<nat>, s: set<nat>)
    requires Lists(pids, s) && pids != []
    ensures pids[|pids| - 1] in s && Lists(pids[..|pids| - 1], s - {pids[|pids| - 1]})
  {
    var front, last := pids[..|pids| - 1], pids[|pids| - 1];
    assert pids == front + [last];
    assert last !in front;
  }

  lemma {:induction false} SumIsAdded(read: Reader, f: Metrics -> nat, g: nat -> nat, pids: seq<nat>, s: set<nat>)
    requires Lists(pids, s) && forall pid :: g(pid) == if read(pid).Some? then f(read(pid).value) else 0
    ensures Sum(read, f, s) == Added(g, pids)
  {
    if pids == [] {
      assert forall pid :: pid !in s;
      assert s == {};
    } else {
      var last := pids[|pids| - 1];
      ListsFront(pids, s);
      SumIsAdded(read, f, g, pids[..|pids| - 1], s - {last});
      SumAny(read, f, s, last);
    }
  }

  /** The four totals of a set of processes, listed in any order: proportional, resident, private and
      swapped memory, added over the processes that can be read. */
  lemma TotalsMean(read: Reader, pids: seq<nat>, s: set<nat>)
    requires Lists(pids, s)
    ensures TotalPss(read, s) == Added(pid => if read(pid).Some? then read(pid).value.pss else 0, pids)
    ensures TotalPrivate(read, s) == Added(pid => if read(pid).Some? then read(pid).value.private else 0, pids)
    ensures Total(read, s).pss == TotalPss(read, s) && Total(read, s).private == TotalPrivate(read, s)
    ensures Total(read, s).rss == Added(pid => if read(pid).Some? then read(pid).value.rss else 0, pids)
    ensures Total(read, s).swapPss == Added(pid => if read(pid).Some? then read(pid).value.swapPss else 0, pids)
  {
    SumIsAdded(read, Pss(), pid => if read(pid).Some? then read(pid).value.pss else 0, pids, s);
    SumIsAdded(read, Rss(), pid => if read(pid).Some? then read(pid).value.rss else 0, pids, s);
    SumIsAdded(read, Private(), pid => if read(pid).Some? then read(pid).value.private else 0, pids, s);
    SumIsAdded(read, SwapPss(), pid => if read(pid).Some? then read(pid).value.swapPss else 0, pids, s);
  }

  /** The processes of a set that could be read, or could not, in ascending order. */
  ghost function Readable(read: Reader, s: set<nat>, readable: bool): (pids: seq<nat>) {
    if s == {} then []
    else var x := Least(s); (if read(x).Some? == readable then [x] else []) + Readable(read, s - {x}, readable)
  }

  lemma {:induction false} ReadableMembers(read: Reader, s: set<nat>, readable: bool)
    ensures forall pid :: pid in Readable(read, s, readable) <==> pid in s && read(pid).Some? == readable
    ensures forall i, j | 0 <= i < j < |Readable(read, s, readable)| ::
              Readable(read, s, readable)[i] < Readable(read, s, readable)[j]
  {
    if s == {} {
    } else {
      ReadableMembers(read, s - {Least(s)}, readable);
      var rest := Readable(read, s - {Least(s)}, readable);
      forall i | 0 <= i < |rest| ensures rest[i] > Least(s) { assert rest[i] in rest; }
    }
  }

  ghost predicate AllReadable(read: Reader, s: set<nat>) {
    forall pid | pid in s :: read(pid).Some?
  }

  ghost predicate SomeReadable(read: Reader, s: set<nat>) {
    exists pid | pid in s :: read(pid).Some?
  }

  // ----- The sampler as a state machine

  datatype State = State(
    identities: map<nat, int>, registrationFailed: bool, hasObservedMemory: bool,
    peakPss: Option<nat>, peakPrivate: Option<nat>, samples: nat, incompleteSamples: nat)

  const INITIAL := State(map[], false, false, None, None, 0, 0)

  function Registered(st: State, pid: nat, stat: Option<Identity>, expected: Option<int>): (st': State) {
    if stat.None? || (expected.Some? && stat.value.start != expected.value)
    then st.(registrationFailed := true)
    else st.(identities := st.identities[pid := stat.value.start])
  }

  /** Tracked processes that are still the same process. */
  function Survivors(identities: map<nat, int>, table: Table): (s: set<nat>) {
    set pid | pid in identities && pid in table && table[pid].start == identities[pid]
  }

  ghost function Tracked(identities: map<nat, int>, table: Table): (r: map<nat, int>) {
    map pid | pid in Family(table, Survivors(identities, table)) :: table[pid].start
  }

  function Raised(peak: Option<nat>, value: nat): (r: Option<nat>) {
    if peak.Some? && peak.value >= value then peak else Some(value)
  }

  ghost predicate CompleteSample(st: State, table: Table, read: Reader) {
    var live := Tracked(st.identities, table).Keys;
    AllReadable(read, live) && (st.hasObservedMemory || SomeReadable(read, live)) && !st.registrationFailed
  }

  /** One sample, given what the pass over the live processes found. */
  function Advance(st: State, identities: map<nat, int>, pss: nat, private: nat,
                   anyMeasured: bool, allMeasured: bool): (st': State) {
    var observed := st.hasObservedMemory || anyMeasured;
    var complete := allMeasured && observed && !st.registrationFailed;
    State(identities, st.registrationFailed, observed,
          if complete then Raised(st.peakPss, pss) else st.peakPss,
          if complete then Raised(st.peakPrivate, private) else st.peakPrivate,
          st.samples + 1, st.incompleteSamples + if complete then 0 else 1)
  }

  ghost function Sampled(st: State, table: Table, read: Reader): (st': State) {
    var identities := Tracked(st.identities, table);
    var live := identities.Keys;
    Advance(st, identities, TotalPss(read, live), TotalPrivate(read, live),
            SomeReadable(read, live), AllReadable(read, live))
  }

  // ----- The class

  /** The results of a registration: True, False and the exception. */
  datatype Registration = Accepted | Rejected | Invalid

  datatype Report =
    | Unsupported
    | Observed(processes: seq<nat>, unreadable: seq<nat>, totals: Option<Metrics>)

  class ProcessTreeMemorySampler {
    const supported: bool
    var identities: map<nat, int>
    var registrationFailed: bool
    var hasObservedMemory: bool
    var peakPss: Option<nat>
    var peakPrivate: Option<nat>
    var samples: nat
    var incompleteSamples: nat

    function View(): (st: State)
      reads this
    {
      State(identities, registrationFailed, hasObservedMemory, peakPss, peakPrivate, samples, incompleteSamples)
    }

    constructor (supported: bool)
      ensures this.supported == supported && View() == INITIAL
    {
      this.supported := supported;
      identities, registrationFailed, hasObservedMemory := map[], false, false;
      peakPss, peakPrivate, samples, incompleteSamples := None, None, 0, 0;
    }

    /** Creating a sampler registers its root; null stands for the exception on an invalid PID. */
    static method Create(supported: bool, root: int, stat: Option<Identity>)
      returns (sampler: ProcessTreeMemorySampler?)
      ensures sampler == null <==> supported && root <= 0
      ensures sampler != null ==>
                && fresh(sampler) && sampler.supported == supported
                && sampler.View() == if supported then Registered(INITIAL, root, stat, None) else INITIAL
    {
      sampler := new ProcessTreeMemorySampler(supported);
      var outcome := sampler.RegisterRoot(root, stat, None);
      if outcome == Invalid { sampler := null; }
    }

    /** Without support nothing is registered; an invalid PID raises and changes nothing. */
    method RegisterRoot(pid: int, stat: Option<Identity>, expected: Option<int>) returns (outcome: Registration)
      modifies this
      ensures outcome == Invalid <==> supported && pid <= 0
      ensures outcome == Accepted <==>
                supported && pid > 0 && stat.Some? && (expected.Some? ==> stat.value.start == expected.value)
      ensures View() == if supported && pid > 0 then Registered(old(View()), pid, stat, expected) else old(View())
    {
      if !supported { return Rejected; }
      if pid <= 0 { return Invalid; }
      if stat.None? || (expected.Some? && stat.value.start != expected.value) {
        registrationFailed := true;
        return Rejected;
      }
      identities := identities[pid := stat.value.start];
      return Accepted;
    }

    method Sample(table: Table, read: Reader) returns (report: Report)
      modifies this
      ensures View() == if supported then Sampled(old(View()), table, read) else old(View())
      ensures report == if !supported then Unsupported
                        else Observed(
                               Readable(read, identities.Keys, true), Readable(read, identities.Keys, false),
                               if CompleteSample(old(View()), table, read)
                               then Some(Total(read, identities.Keys)) else None)
    {
      if !supported { return Unsupported; }
      var tracked := FollowChildren(table, identities);
      var totals, measured, unreadable := Measure(read, tracked.Keys);
      ReadableMembers(read, tracked.Keys, true);
      ReadableMembers(read, tracked.Keys, false);
      SomeListed(read, tracked.Keys);
      var complete := Record(tracked, totals.pss, totals.private, measured != [], unreadable == []);
      return Observed(measured, unreadable, if complete then Some(totals) else None);
    }

    /** The bookkeeping at the end of a sample. */
    method Record(tracked: map<nat, int>, pss: nat, private: nat, anyMeasured: bool, allMeasured: bool)
        returns (complete: bool)
      modifies this
      ensures View() == Advance(old(View()), tracked, pss, private, anyMeasured, allMeasured)
      ensures complete <==> allMeasured && (old(hasObservedMemory) || anyMeasured) && !old(registrationFailed)
    {
      identities := tracked;
      hasObservedMemory := hasObservedMemory || anyMeasured;
      complete := allMeasured && hasObservedMemory && !registrationFailed;
      samples := samples + 1;
      incompleteSamples := incompleteSamples + if complete then 0 else 1;
      if complete {
        peakPss := Some(if peakPss.Some? && peakPss.value >= pss then peakPss.value else pss);
        peakPrivate := Some(if peakPrivate.Some? && peakPrivate.value >= private then peakPrivate.value else private);
      }
    }
  }

  /** children.get(parent, []), whose order does not matter. */
  function ChildrenIn(children: map<nat, set<nat>>, parent: nat): (r: set<nat>) {
    if parent in children then children[parent] else {}
  }

  /** Parent to children, built in one pass over the table. */
  method IndexChildren(table: Table) returns (children: map<nat, set<nat>>)
    ensures forall p: nat :: ChildrenIn(children, p) == Children(table, p)
  {
    children := map[];
    var rest := table.Keys;
    while rest != {}
      invariant rest <= table.Keys
      invariant forall p: nat :: ChildrenIn(children, p) == Children(table, p) - rest
      decreases rest
    {
      var pid :| pid in rest;
      var parent := table[pid].parent;
      children := children[parent := ChildrenIn(children, parent) + {pid}];
      rest := rest - {pid};
    }
  }

  function StartsOf(table: Table, live: set<nat>): (r: map<nat, int>)
    requires live <= table.Keys
  {
    map p | p in live :: table[p].start
  }

  /** Everything live is reachable, and the children of what is not pending are live. */
  ghost predicate Pending(table: Table, roots: set<nat>, live: set<nat>, pending: set<nat>) {
    && roots <= live <= table.Keys && pending <= live
    && (forall p | p in live :: Reachable(table, roots, p))
    && (forall p | p in live && p !in pending :: Children(table, p) <= live)
  }

  /** The worklist: drop dead and reused PIDs, then follow children until nothing is pending.
      Any pending process may be taken next. */
  method FollowChildren(table: Table, known: map<nat, int>) returns (identities: map<nat, int>)
    ensures identities == Tracked(known, table)
  {
    var children := IndexChildren(table);
    var live := Survivors(known, table);
    ghost var roots := live;
    identities := map pid | pid in live :: known[pid];
    assert identities == StartsOf(table, live);
    var pending := live;
    PendingStart(table, roots);
    while pending != {}
      invariant Pending(table, roots, live, pending)
      invariant identities == StartsOf(table, live)
      decreases table.Keys - live, pending
    {
      var parent :| parent in pending;
      var kids := ChildrenIn(children, parent) - live;
      PendingStep(table, roots, live, pending, parent, kids);
      StartsExtend(table, live, kids);
      pending := (pending - {parent}) + kids;
      live := live + kids;
      identities := identities + StartsOf(table, kids);
    }
    FamilyIsClosure(table, roots, live);
  }

  lemma StartsExtend(table: Table, live: set<nat>, kids: set<nat>)
    requires live <= table.Keys && kids <= table.Keys
    ensures StartsOf(table, live) + StartsOf(table, kids) == StartsOf(table, live + kids)
  {
  }

  lemma PendingStart(table: Table, roots: set<nat>)
    requires roots <= table.Keys
    ensures Pending(table, roots, roots, roots)
  {
    forall p | p in roots ensures Reachable(table, roots, p) { RootReachable(table, roots, p); }
  }

  lemma PendingStep(table: Table, roots: set<nat>, live: set<nat>, pending: set<nat>, parent: nat, kids: set<nat>)
    requires Pending(table, roots, live, pending) && parent in pending
    requires kids == Children(table, parent) - live
    ensures Pending(table, roots, live + kids, (pending - {parent}) + kids)
    ensures table.Keys - (live + kids) < table.Keys - live ||
            (live + kids == live && (pending - {parent}) + kids < pending)
  {
    forall p | p in live + kids ensures Reachable(table, roots, p) {
      if p in kids { ChildReachable(table, roots, parent, p); }
    }
    WorkShrinks(table.Keys, live, pending, parent, kids);
  }

  lemma WorkShrinks(all: set<nat>, live: set<nat>, pending: set<nat>, parent: nat, kids: set<nat>)
    requires kids <= all && kids !! live && parent in pending
    ensures all - (live + kids) < all - live || (live + kids == live && (pending - {parent}) + kids < pending)
  {
    if k :| k in kids {
      assert k in all - live && k !in all - (live + kids);
    } else {
      assert live + kids == live;
      assert parent !in (pending - {parent}) + kids;
    }
  }

  lemma FamilyIsClosure(table: Table, roots: set<nat>, live: set<nat>)
    requires Pending(table, roots, live, {})
    ensures live == Family(table, roots)
  {
    forall pid | pid in Family(table, roots) ensures pid in live {
      var path :| Chain(table, roots, path, pid);
      ClosedHoldsChain(table, roots, live, path, pid);
    }
  }

  lemma SomeListed(read: Reader, s: set<nat>)
    ensures Readable(read, s, true) != [] <==> SomeReadable(read, s)
    ensures Readable(read, s, false) == [] <==> AllReadable(read, s)
  {
    ReadableMembers(read, s, true);
    ReadableMembers(read, s, false);
    var yes, no := Readable(read, s, true), Readable(read, s, false);
    if yes != [] { assert yes[0] in yes; }
    if no != [] { assert no[0] in no; }
  }

  lemma ReadableStep(read: Reader, rest: set<nat>, listed: seq<nat>, readable: bool)
    requires rest != {}
    ensures var pid := Least(rest);
            (if read(pid).Some? == readable then listed + [pid] else listed) + Readable(read, rest - {pid}, readable)
            == listed + Readable(read, rest, readable)
  {
  }

  /** One pass over the live processes in ascending order. */
  method Measure(read: Reader, live: set<nat>) returns (totals: Metrics, measured: seq<nat>, unreadable: seq<nat>)
    ensures totals == Total(read, live)
    ensures measured == Readable(read, live, true) && unreadable == Readable(read, live, false)
  {
    var pss, rss, private, swap := 0, 0, 0, 0;
    measured, unreadable := [], [];
    var rest := live;
    while rest != {}
      invariant rest <= live
      invariant pss + Sum(read, Pss(), rest) == Sum(read, Pss(), live)
      invariant rss + Sum(read, Rss(), rest) == Sum(read, Rss(), live)
      invariant private + Sum(read, Private(), rest) == Sum(read, Private(), live)
      invariant swap + Sum(read, SwapPss(), rest) == Sum(read, SwapPss(), live)
      invariant measured + Readable(read, rest, true) == Readable(read, live, true)
      invariant unreadable + Readable(read, rest, false) == Readable(read, live, false)
      decreases rest
    {
      LeastExists(rest);
      var pid :| pid in rest && forall y | y in rest :: pid <= y;
      assert pid == Least(rest);
      ReadableStep(read, rest, measured, true);
      ReadableStep(read, rest, unreadable, false);
      var metrics := read(pid);
      if metrics.None? {
        unreadable := unreadable + [pid];
      } else {
        measured := measured + [pid];
        pss := pss + metrics.value.pss;
        rss := rss + metrics.value.rss;
        private := private + metrics.value.private;
        swap := swap + metrics.value.swapPss;
      }
      rest := rest - {pid};
    }
    totals := Metrics(pss, rss, private, swap);
  }

  // ----- What is tracked

  /** After a sample the tracked identities are exactly the table entries reachable from the
      surviving ones; a process that survives stays tracked whatever its parent now is; a reused
      PID is tracked only as a descendant of a survivor; a vanished PID is not tracked. */
  lemma TrackedMeaning(known: map<nat, int>, table: Table, pid: nat)
    ensures pid in Tracked(known, table) <==> pid in table && Reachable(table, Survivors(known, table), pid)
    ensures pid in Tracked(known, table) ==> Tracked(known, table)[pid] == table[pid].start
    ensures pid in known && pid in table && table[pid].start == known[pid] ==> pid in Tracked(known, table)
    ensures pid in Tracked(known, table) ==> Children(table, pid) <= Tracked(known, table).Keys
    ensures pid in Tracked(known, table) && pid !in Survivors(known, table) ==>
            table[pid].parent in Tracked(known, table)
  {
    var roots := Survivors(known, table);
    if pid in roots { RootReachable(table, roots, pid); }
    if pid in Tracked(known, table) {
      forall child | child in Children(table, pid) ensures child in Tracked(known, table) {
        ChildReachable(table, roots, pid, child);
      }
      var path :| Chain(table, roots, path, pid);
      if pid !in roots {
        var front := path[..|path| - 1];
        assert Chain(table, roots, front, front[|front| - 1]);
        assert table[path[|front| - 1 + 1]].parent == path[|front| - 1];
      }
    }
  }

  // ----- Whole runs

  datatype Event =
    | Register(pid: int, stat: Option<Identity>, expected: Option<int>)
    | Sample(table: Table, read: Reader)

  ghost function Apply(st: State, e: Event): (st': State) {
    match e
    case Register(pid, stat, expected) => if pid > 0 then Registered(st, pid, stat, expected) else st
    case Sample(table, read) => Sampled(st, table, read)
  }

  ghost function After(st: State, es: seq<Event>): (st': State) {
    if es == [] then st else Apply(After(st, es[..|es| - 1]), es[|es| - 1])
  }

  /** The PSS totals of the complete samples of a run, in order. */
  ghost function CompletePss(st: State, es: seq<Event>): (r: seq<nat>) {
    if es == [] then []
    else
      var front, e := es[..|es| - 1], es[|es| - 1];
      var before := After(st, front);
      CompletePss(st, front) +
      if e.Sample? && CompleteSample(before, e.table, e.read)
      then [TotalPss(e.read, Tracked(before.identities, e.table).Keys)] else []
  }

  ghost predicate IsMaximum(peak: Option<nat>, values: seq<nat>) {
    if values == [] then peak == None
    else peak.Some? && peak.value in values && forall v | v in values :: v <= peak.value
  }

  /** A first registration of a live process tracks it alone; a missing process, or one of another start
      time than expected, is not tracked and marks the sampler for good; an invalid PID changes nothing. */
  lemma RegistrationMeans(pid: int, stat: Option<Identity>, expected: Option<int>)
    ensures var st := After(INITIAL, [Register(pid, stat, expected)]);
            && st.samples == 0 && st.incompleteSamples == 0 && st.peakPss == None && st.peakPrivate == None
            && st.hasObservedMemory == false
            && (st.registrationFailed <==>
                  pid >= 1 && (stat == None || (expected.Some? && expected.value != stat.value.start)))
            && st.identities ==
               (if pid >= 1 && stat.Some? && (expected == None || expected.value == stat.value.start)
                then map[pid := stat.value.start] else map[])
  {
    assert [Register(pid, stat, expected)][..0] == [];
    assert After(INITIAL, []) == INITIAL;
  }

  /** The reported peak is the largest total of any complete sample so far, and absent exactly
      when there was none. */
  lemma {:induction false} PeakIsMaximum(es: seq<Event>)
    ensures IsMaximum(After(INITIAL, es).peakPss, CompletePss(INITIAL, es))
  {
    if es == [] {
    } else {
      PeakIsMaximum(es[..|es| - 1]);
    }
  }

  /** The private totals of the complete samples of a run, in order. */
  ghost function CompletePrivate(st: State, es: seq<Event>): (r: seq<nat>) {
    if es == [] then []
    else
      var front, e := es[..|es| - 1], es[|es| - 1];
      var before := After(st, front);
      CompletePrivate(st, front) +
      if e.Sample? && CompleteSample(before, e.table, e.read)
      then [TotalPrivate(e.read, Tracked(before.identities, e.table).Keys)] else []
  }

  lemma {:induction false} PrivatePeakIsMaximum(es: seq<Event>)
    ensures IsMaximum(After(INITIAL, es).peakPrivate, CompletePrivate(INITIAL, es))
  {
    if es == [] {
    } else {
      PrivatePeakIsMaximum(es[..|es| - 1]);
    }
  }

  /** The samples that are not counted as incomplete are the ones with a total. */
  lemma {:induction false} SamplesCounted(es: seq<Event>)
    ensures After(INITIAL, es).samples == After(INITIAL, es).incompleteSamples + |CompletePss(INITIAL, es)|
  {
    if es == [] {
    } else {
      SamplesCounted(es[..|es| - 1]);
    }
  }

  /** Once a registration has failed, no sample is ever complete again and the peaks are frozen. */
  lemma {:induction false} FailureFreezes(st: State, es: seq<Event>)
    requires st.registrationFailed
    ensures After(st, es).registrationFailed
    ensures After(st, es).peakPss == st.peakPss && After(st, es).peakPrivate == st.peakPrivate
    ensures CompletePss(st, es) == []
  {
    if es == [] {
    } else {
      FailureFreezes(st, es[..|es| - 1]);
    }
  }

  ghost predicate StaysAlive(e: Event, pid: nat, start: int) {
    match e
    case Register(p, stat, _) => p == pid && stat.Some? ==> stat.value.start == start
    case Sample(table, _) => pid in table && table[pid].start == start
  }

  /** A tracked process stays tracked, under the same identity, through any run in which it stays
      alive, however often it is reparented. */
  lemma {:induction false} StaysTracked(st: State, es: seq<Event>, pid: nat, start: int)
    requires pid in st.identities && st.identities[pid] == start
    requires forall i | 0 <= i < |es| :: StaysAlive(es[i], pid, start)
    ensures pid in After(st, es).identities && After(st, es).identities[pid] == start
  {
    if es == [] {
    } else {
      var front, e := es[..|es| - 1], es[|es| - 1];
      StaysTracked(st, front, pid, start);
      assert StaysAlive(es[|es| - 1], pid, start);
      if e.Sample? { TrackedMeaning(After(st, front).identities, e.table, pid); }
    }
  }
}
