/** Exclusive custody of a process family: a class-level lock taken without blocking, and the
    child-subreaper setting of the monitor process. */
module FamilyCustody {
  import opened Wrappers

  /** What opening finds: the platform and thread checks, reading the setting, the children
      already there, and setting it. */
  datatype Opening = Opening(checksPass: bool, readFails: bool, hasChildren: bool, setFails: bool)

  datatype Custody = Custody(supported: bool, previous: bool, closed: bool)

  function Supported(o: Opening): (b: bool) {
    o.checksPass && !o.readFails && !o.hasChildren && !o.setFails
  }

  // ----- One custody

  /** The class-level lock and the subreaper setting of the monitor process. */
  datatype Shared = Shared(lockHeld: bool, subreaper: bool)

  /** Opening raises when the lock is taken; otherwise it takes the lock, also where custody turns
      out to be unavailable. */
  function Opened(m: Shared, o: Opening): (r: (Shared, Option<Custody>)) {
    if m.lockHeld then (m, None)
    else (Shared(true, m.subreaper || Supported(o)), Some(Custody(Supported(o), m.subreaper, false)))
  }

  /** Closing always ends the custody and frees the lock; it raises, and leaves the setting, when
      children are left unreaped, or they cannot be listed or the setting not restored. */
  function Closed(m: Shared, c: Custody, unreaped: bool): (r: (Shared, Custody, bool)) {
    if c.closed then (m, c, false)
    else (Shared(false, if c.supported && !unreaped then c.previous else m.subreaper),
          c.(closed := true), c.supported && unreaped)
  }

  class Monitor {
    var lockHeld: bool
    var subreaper: bool

    function View(): (m: Shared)
      reads this
    {
      Shared(lockHeld, subreaper)
    }

    constructor (subreaper: bool)
      ensures View() == Shared(false, subreaper)
    {
      lockHeld, this.subreaper := false, subreaper;
    }
  }

  class ProcessFamilyCustody {
    const monitor: Monitor
    const supported: bool
    const previous: bool
    var closed: bool

    function View(): (c: Custody)
      reads this
    {
      Custody(supported, previous, closed)
    }

    constructor (monitor: Monitor, supported: bool)
      ensures this.monitor == monitor && View() == Custody(supported, monitor.subreaper, false)
    {
      this.monitor, this.supported, this.previous, closed := monitor, supported, monitor.subreaper, false;
    }

    static method Open(monitor: Monitor, o: Opening) returns (c: ProcessFamilyCustody?)
      modifies monitor
      ensures c != null ==> fresh(c) && c.monitor == monitor
      ensures (monitor.View(), if c == null then None else Some(c.View())) == Opened(old(monitor.View()), o)
    {
      if monitor.lockHeld { return null; }
      monitor.lockHeld := true;
      c := new ProcessFamilyCustody(monitor, Supported(o));
      if Supported(o) { monitor.subreaper := true; }
    }

    method Close(unreaped: bool) returns (raised: bool)
      modifies this, monitor
      ensures (monitor.View(), View(), raised) == Closed(old(monitor.View()), old(View()), unreaped)
    {
      if closed { return false; }
      raised := false;
      if supported {
        if unreaped { raised := true; } else { monitor.subreaper := previous; }
      }
      closed := true;
      monitor.lockHeld := false;
    }
  }

  // ----- Runs of opens and closes

  datatype System = System(shared: Shared, custodies: seq<Custody>)

  datatype Event = Open(opening: Opening) | Close(index: nat, unreaped: bool)

  /** The state after an event and whether it raised. */
  function Step(s: System, e: Event): (r: (System, bool)) {
    match e
    case Open(o) =>
      var (m, c) := Opened(s.shared, o);
      (System(m, s.custodies + if c.Some? then [c.value] else []), c.None?)
    case Close(i, unreaped) =>
      if i >= |s.custodies| then (s, false)
      else
        var (m, c, raised) := Closed(s.shared, s.custodies[i], unreaped);
        (System(m, s.custodies[i := c]), raised)
  }

  function Run(s: System, es: seq<Event>): (r: System) {
    if es == [] then s else Step(Run(s, es[..|es| - 1]), es[|es| - 1]).0
  }

  /** Whether some close of the run raised because children were left unreaped. */
  function AnyUnreaped(s: System, es: seq<Event>): (b: bool) {
    es != [] && (AnyUnreaped(s, es[..|es| - 1]) ||
                 (es[|es| - 1].Close? && Step(Run(s, es[..|es| - 1]), es[|es| - 1]).1))
  }

  predicate OpenAt(s: System, i: nat) {
    i < |s.custodies| && !s.custodies[i].closed
  }

  /** At most one custody is open, the lock is held exactly then, and the setting is on exactly if
      it was on at first, a close was refused, or a supported custody is open, which remembers it. */
  ghost predicate Exclusive(s: System, initial: bool, refused: bool) {
    && (forall i: nat, j: nat :: OpenAt(s, i) && OpenAt(s, j) ==> i == j)
    && (s.shared.lockHeld <==> exists i: nat :: OpenAt(s, i))
    && (!s.shared.lockHeld ==> s.shared.subreaper == (initial || refused))
    && (forall i: nat | OpenAt(s, i) ::
          && s.custodies[i].previous == (initial || refused)
          && s.shared.subreaper == (initial || refused || s.custodies[i].supported))
  }

  lemma StepExclusive(s: System, e: Event, initial: bool, refused: bool)
    requires Exclusive(s, initial, refused)
    ensures Exclusive(Step(s, e).0, initial, refused || (e.Close? && Step(s, e).1))
  {
    var s' := Step(s, e).0;
    match e
    case Open(o) =>
      if s.shared.lockHeld {
        assert s'.custodies == s.custodies;
      } else {
        assert OpenAt(s', |s.custodies|);
        forall i: nat | OpenAt(s', i) ensures i == |s.custodies| {
          assert i < |s.custodies| ==> OpenAt(s, i);
        }
      }
    case Close(k, unreaped) =>
      if OpenAt(s, k) {
        forall i: nat ensures !OpenAt(s', i) {
          assert i != k && OpenAt(s', i) ==> OpenAt(s, i);
        }
      } else {
        assert s'.custodies == s.custodies;
      }
  }

  /** Across any sequence of opens and closes: one custody at a time, and the lock held exactly
      while it is open. */
  lemma {:induction false} RunExclusive(initial: bool, es: seq<Event>)
    ensures var start := System(Shared(false, initial), []);
            Exclusive(Run(start, es), initial, AnyUnreaped(start, es))
  {
    var start := System(Shared(false, initial), []);
    if es == [] {
    } else {
      var front := es[..|es| - 1];
      RunExclusive(initial, front);
      StepExclusive(Run(start, front), es[|es| - 1], initial, AnyUnreaped(start, front));
    }
  }

  /** When no custody is open, the setting is as it was found if and only if it was on at first or
      no close was refused. */
  lemma SettingRestoredIff(initial: bool, es: seq<Event>)
    ensures var start := System(Shared(false, initial), []);
            var end := Run(start, es);
            !end.shared.lockHeld ==> (end.shared.subreaper == initial <==> initial || !AnyUnreaped(start, es))
  {
    RunExclusive(initial, es);
  }

  /** A close that raises still ends the custody and frees the lock, but leaves the setting on:
      an open and such a close turn a setting that was off on for good. */
  lemma RefusedCloseLeavesSetting(o: Opening)
    requires Supported(o)
    ensures var start := System(Shared(false, false), []);
            var s := Run(start, [Open(o), Close(0, true)]);
            !s.shared.lockHeld && s.shared.subreaper && !OpenAt(s, 0)
  {
    var start := System(Shared(false, false), []);
    assert [Open(o), Close(0, true)][..1] == [Open(o)];
    assert [Open(o)][..0] == [];
    assert Run(start, [Open(o)]) == System(Shared(true, true), [Custody(true, false, false)]);
  }
}
