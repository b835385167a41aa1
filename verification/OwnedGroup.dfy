/** The benchmark-only cgroup below a delegated parent: acquiring it, closing it, and what a
    whole life of it leaves behind.  Other users of the parent may act between any two calls. */
module OwnedGroup {
  import opened Wrappers

  /** A subgroup directory: its inode, whether it holds processes, and whether its counters
      already show resource history. */
  datatype Group = Group(inode: nat, populated: bool, history: bool)

  /** The delegated parent: its subgroups and whether the memory controller is enabled. */
  datatype World = World(groups: map<string, Group>, memory: bool)

  const MONITOR := "monitor"

  datatype Handle = Handle(path: Option<string>, identity: Option<nat>, enabledMemory: bool, closed: bool)

  datatype CloseError =
    | NotLive
    | IdentityChanged
    | ReadFailed
    | Populated
    | RemoveFailed
    | ForeignSubgroup
    | WriteFailed

  /** Which system calls of a close fail: reading the counters, removing the directory, turning the
      controller off. */
  datatype Failing = Failing(read: bool, remove: bool, write: bool)

  const NO_FAILURE := Failing(false, false, false)

  // ----- close

  /** Removing the group, if there still is one. */
  function RemoveGroup(w: World, h: Handle, f: Failing): (r: Result<(World, Handle), CloseError>) {
    if h.path.None? then Ok((w, h))
    else
      var p := h.path.value;
      if p !in w.groups then Err(NotLive)
      else if h.identity != Some(w.groups[p].inode) then Err(IdentityChanged)
      else if f.read then Err(ReadFailed)
      else if w.groups[p].populated then Err(Populated)
      else if f.remove then Err(RemoveFailed)
      else Ok((w.(groups := w.groups - {p}), h.(path := None)))
  }

  /** The state after a close and the exception it raises, if any. */
  function Closing(w: World, h: Handle, f: Failing): (r: (World, Handle, Option<CloseError>)) {
    if h.closed then (w, h, None)
    else
      match RemoveGroup(w, h, f)
      case Err(e) => (w, h, Some(e))
      case Ok((w1, h1)) =>
        if !h1.enabledMemory then (w1, h1.(closed := true), None)
        else if w1.groups.Keys != {MONITOR} then (w1, h1, Some(ForeignSubgroup))
        else if f.write then (w1, h1, Some(WriteFailed))
        else (w1.(memory := false), h1.(enabledMemory := false, closed := true), None)
  }

  /** A close that returns has removed its own group and nothing else, the group was unpopulated
      and still the one created, and the memory controller is off exactly if this handle had
      turned it on. */
  lemma CloseMeaning(w: World, h: Handle, f: Failing)
    ensures var (w', h', e) := Closing(w, h, f);
            && (e == None ==>
                && h'.closed
                && w'.memory == (w.memory && (h.closed || !h.enabledMemory))
                && (h.closed || h.path == None ==> w'.groups == w.groups)
                && (!h.closed && h.path.Some? ==>
                    && h.path.value in w.groups && !w.groups[h.path.value].populated
                    && h.identity == Some(w.groups[h.path.value].inode)
                    && w'.groups == w.groups - {h.path.value}))
            && (e.Some? ==> !h'.closed && w'.memory == w.memory && h'.enabledMemory == h.enabledMemory)
            && (e.Some? && e != Some(ForeignSubgroup) && e != Some(WriteFailed) ==> w' == w && h' == h)
  {
  }

  /** Closing again after a close that returned changes nothing and returns. */
  lemma CloseIdempotent(w: World, h: Handle, f: Failing, w2: World, f2: Failing)
    requires Closing(w, h, f).2 == None
    ensures Closing(w2, Closing(w, h, f).1, f2) == (w2, Closing(w, h, f).1, None)
  {
  }

  // ----- Acquiring

  datatype Mkdir = Created(inode: nat, populated: bool, history: bool) | MkdirFails

  /** What the system does during acquisition: whether a check of the delegation refuses it, whether
      the controller cannot be turned on, what creating the directory does, whether it cannot be
      examined or its counters not be read, and what fails if it is closed again. */
  datatype Environment = Environment(
    refused: bool, enableFails: bool, mkdir: Mkdir, statFails: bool, readFails: bool, closing: Failing)

  const NEW_HANDLE := Handle(None, None, false, false)

  /** The state when the protected part of the constructor ends, and whether it ends by raising. */
  function Preparing(w: World, name: string, env: Environment): (r: (World, Handle, bool)) {
    if !w.memory && env.enableFails then (w, NEW_HANDLE, true)
    else
      var w1, h1 := w.(memory := true), NEW_HANDLE.(enabledMemory := !w.memory, path := Some(name));
      if env.mkdir.MkdirFails? || name in w.groups then (w1, h1, true)
      else
        var g := Group(env.mkdir.inode, env.mkdir.populated, env.mkdir.history);
        var w2 := w1.(groups := w1.groups[name := g]);
        if env.statFails then (w2, h1, true)
        else (w2, h1.(identity := Some(g.inode)), env.readFails || g.history || g.populated)
  }

  /** The constructor: a refused delegation changes nothing; a failure on the way closes what was
      opened, and whatever that close raises. */
  function Acquiring(w: World, name: string, env: Environment): (r: (World, Handle, bool)) {
    if env.refused || w.groups.Keys != {MONITOR} then (w, NEW_HANDLE, true)
    else
      var (w1, h1, raised) := Preparing(w, name, env);
      if !raised then (w1, h1, false)
      else var (w2, h2, _) := Closing(w1, h1, env.closing); (w2, h2, true)
  }

  /** A constructor that raises leaves the parent exactly as it found it unless a directory could
      not be created after the controller was turned on, a created directory could not be examined,
      was already populated or could not be removed, or the controller could not be turned off. */
  lemma FailedAcquireRestoresIff(w: World, name: string, env: Environment)
    requires Acquiring(w, name, env).2 && name != MONITOR
    ensures Acquiring(w, name, env).0 == w <==>
            || env.refused
            || w.groups.Keys != {MONITOR}
            || (!w.memory && env.enableFails)
            || (env.mkdir.MkdirFails? && w.memory)
            || (env.mkdir.Created? && !env.statFails && !env.mkdir.populated
                && !env.closing.read && !env.closing.remove && (w.memory || !env.closing.write))
  {
    if !env.refused && w.groups.Keys == {MONITOR} && !(!w.memory && env.enableFails) {
      assert name !in w.groups;
      if env.mkdir.Created? {
        var g := Group(env.mkdir.inode, env.mkdir.populated, env.mkdir.history);
        assert (w.groups[name := g]) - {name} == w.groups;
        assert name in w.groups[name := g];
      }
    }
  }

  // ----- A whole life

  datatype Event = Foreign(after: World) | Close(failing: Failing)

  /** Others may change anything in the parent except its controller setting. */
  ghost predicate Allowed(w: World, e: Event) {
    e.Foreign? ==> e.after.memory == w.memory
  }

  function Next(w: World, h: Handle, e: Event): (r: (World, Handle)) {
    match e
    case Foreign(after) => (after, h)
    case Close(f) => var (w', h', _) := Closing(w, h, f); (w', h')
  }

  function Life(w: World, h: Handle, es: seq<Event>): (r: (World, Handle)) {
    if es == [] then (w, h)
    else var (w1, h1) := Life(w, h, es[..|es| - 1]); Next(w1, h1, es[|es| - 1])
  }

  ghost predicate LegalLife(w: World, h: Handle, es: seq<Event>) {
    es == [] || (LegalLife(w, h, es[..|es| - 1]) && Allowed(Life(w, h, es[..|es| - 1]).0, es[|es| - 1]))
  }

  /** Whether a close of the life has returned. */
  ghost predicate Returned(w: World, h: Handle, es: seq<Event>) {
    es != [] &&
    (Returned(w, h, es[..|es| - 1]) ||
     (es[|es| - 1].Close? && var (w1, h1) := Life(w, h, es[..|es| - 1]); Closing(w1, h1, es[|es| - 1].failing).2 == None))
  }

  /** How many closes of the life removed a directory. */
  ghost function Removals(w: World, h: Handle, es: seq<Event>): (n: nat) {
    if es == [] then 0
    else
      var (w1, h1) := Life(w, h, es[..|es| - 1]);
      Removals(w, h, es[..|es| - 1]) +
      if es[|es| - 1].Close? && Next(w1, h1, es[|es| - 1]).0.groups != w1.groups then 1 else 0
  }

  /** What the handle owns.  Its identity is the inode it created, and its path the name it created
      or none, none exactly after a removal; it is closed exactly after a close that returned.  The
      controller setting found at acquisition is in force again whenever the handle is closed; until
      then the controller is on, and the handle remembers whether it owes turning it off. */
  ghost predicate Owns(w: World, h: Handle, name: string, inode: nat, found: bool, removals: nat, returned: bool) {
    && h.identity == Some(inode)
    && h.path == (if removals == 0 then Some(name) else None) && removals <= 1
    && h.closed == returned && (returned ==> removals == 1)
    && (if returned then w.memory == found && !h.enabledMemory else w.memory && h.enabledMemory == !found)
  }

  lemma CloseOwns(w: World, h: Handle, f: Failing, name: string, inode: nat, found: bool, removals: nat, returned: bool)
    requires Owns(w, h, name, inode, found, removals, returned)
    ensures var (w', h', e) := Closing(w, h, f);
            && (w'.groups != w.groups ==>
                  removals == 0 && name in w.groups && w.groups[name].inode == inode && !w.groups[name].populated
                  && w'.groups == w.groups - {name})
            && Owns(w', h', name, inode, found, removals + (if w'.groups != w.groups then 1 else 0),
                    returned || e == None)
  {
    if name in w.groups { assert name !in (w.groups - {name}); }
  }

  /** Through any closes and foreign actions after a successful acquisition the handle keeps the
      identity it acquired, removes at most one directory, and keeps the controller setting. */
  lemma {:induction false} LifeKeepsOwnership(w0: World, name: string, env: Environment, es: seq<Event>)
    requires !Acquiring(w0, name, env).2
    requires var (w, h, _) := Acquiring(w0, name, env); LegalLife(w, h, es)
    ensures var (w, h, _) := Acquiring(w0, name, env);
            var (w', h') := Life(w, h, es);
            Owns(w', h', name, env.mkdir.inode, w0.memory, Removals(w, h, es), Returned(w, h, es))
  {
    var (w, h, _) := Acquiring(w0, name, env);
    if es == [] {
    } else {
      var front, e := es[..|es| - 1], es[|es| - 1];
      LifeKeepsOwnership(w0, name, env, front);
      if e.Close? {
        var (w1, h1) := Life(w, h, front);
        CloseOwns(w1, h1, e.failing, name, env.mkdir.inode, w0.memory, Removals(w, h, front), Returned(w, h, front));
      }
    }
  }

  /** Whatever happened before, a close removes nothing, or the one unpopulated directory that has the
      acquired name and inode, and only if no close did before. */
  lemma CloseRemovesOwn(w0: World, name: string, env: Environment, es: seq<Event>, f: Failing)
    requires !Acquiring(w0, name, env).2
    requires var (w, h, _) := Acquiring(w0, name, env); LegalLife(w, h, es)
    ensures var (w, h, _) := Acquiring(w0, name, env);
            var (w1, h1) := Life(w, h, es);
            var after := Closing(w1, h1, f).0.groups;
            after == w1.groups ||
            (Removals(w, h, es) == 0 && name in w1.groups && w1.groups[name].inode == env.mkdir.inode
             && !w1.groups[name].populated && after == w1.groups - {name})
  {
    LifeKeepsOwnership(w0, name, env, es);
    var (w, h, _) := Acquiring(w0, name, env);
    var (w1, h1) := Life(w, h, es);
    CloseOwns(w1, h1, f, name, env.mkdir.inode, w0.memory, Removals(w, h, es), Returned(w, h, es));
  }

  /** When a close returns, in terms of what was acquired and of what happened: a close returned
      before, or the group is gone by an earlier close or is still the one acquired, empty and
      removable, and the controller was on at first or can be turned off with nobody else there. */
  lemma CloseReturnsIff(w0: World, name: string, env: Environment, es: seq<Event>, f: Failing)
    requires !Acquiring(w0, name, env).2 && name != MONITOR
    requires var (w, h, _) := Acquiring(w0, name, env); LegalLife(w, h, es)
    ensures var (w, h, _) := Acquiring(w0, name, env);
            var (w1, h1) := Life(w, h, es);
            Closing(w1, h1, f).2 == None <==>
            || Returned(w, h, es)
            || (&& (Removals(w, h, es) == 1 ||
                    (name in w1.groups && w1.groups[name].inode == env.mkdir.inode && !f.read
                     && !w1.groups[name].populated && !f.remove))
                && (w0.memory ||
                    (!f.write
                     && w1.groups.Keys == {MONITOR} + if Removals(w, h, es) == 1 then {} else {name})))
  {
    LifeKeepsOwnership(w0, name, env, es);
    var (w, h, _) := Acquiring(w0, name, env);
    var w1 := Life(w, h, es).0;
    if name in w1.groups {
      assert (w1.groups - {name}).Keys == w1.groups.Keys - {name};
      assert w1.groups.Keys - {name} == {MONITOR} <==> w1.groups.Keys == {MONITOR} + {name};
    }
    assert {MONITOR} + {} == {MONITOR};
  }

  lemma {:induction false} ForeignKeepsHandle(w: World, h: Handle, es: seq<Event>, others: seq<Event>)
    requires forall i | 0 <= i < |others| :: others[i].Foreign?
    ensures Life(w, h, es + others).1 == Life(w, h, es).1
  {
    if others == [] {
      assert es + others == es;
    } else {
      var front := others[..|others| - 1];
      assert (es + others)[..|es + others| - 1] == es + front;
      ForeignKeepsHandle(w, h, es, front);
    }
  }

  /** After a close refused for a foreign subgroup, and whatever others do then, the next close
      returns if and only if the monitor is alone again. */
  lemma RefusedCloseRetriesIff(w: World, h: Handle, es: seq<Event>, f: Failing, others: seq<Event>)
    requires var (w1, h1) := Life(w, h, es); Closing(w1, h1, f).2 == Some(ForeignSubgroup)
    requires forall i | 0 <= i < |others| :: others[i].Foreign?
    ensures var (w1, h1) := Life(w, h, es + [Close(f)] + others);
            Closing(w1, h1, NO_FAILURE).2 == None <==> w1.groups.Keys == {MONITOR}
  {
    var refused := es + [Close(f)];
    assert refused[..|refused| - 1] == es;
    ForeignKeepsHandle(w, h, refused, others);
    RefusedHandle(Life(w, h, es).0, Life(w, h, es).1, f);
  }

  lemma RefusedHandle(w: World, h: Handle, f: Failing)
    requires Closing(w, h, f).2 == Some(ForeignSubgroup)
    ensures var h' := Closing(w, h, f).1; h'.path == None && h'.enabledMemory && !h'.closed
  {
  }

  // ----- The class

  class Delegation {
    var state: World
    constructor (w: World) ensures state == w { state := w; }
  }

  class OwnedKernelGroup {
    const parent: Delegation
    var path: Option<string>
    var identity: Option<nat>
    var enabledMemory: bool
    var closed: bool

    function View(): (h: Handle)
      reads this
    {
      Handle(path, identity, enabledMemory, closed)
    }

    constructor (parent: Delegation)
      ensures this.parent == parent && View() == NEW_HANDLE
    {
      this.parent := parent;
      path, identity, enabledMemory, closed := None, None, false, false;
    }

    /** The source's constructor; `raised` says that it ends in an exception. */
    static method Acquire(parent: Delegation, name: string, env: Environment)
      returns (group: OwnedKernelGroup, raised: bool)
      modifies parent
      ensures fresh(group) && group.parent == parent
      ensures (parent.state, group.View(), raised) == Acquiring(old(parent.state), name, env)
    {
      group := new OwnedKernelGroup(parent);
      if env.refused || parent.state.groups.Keys != {MONITOR} { return group, true; }
      raised := group.Prepare(name, env);
      if raised {
        var _ := group.CloseGroup(env.closing);
      }
    }

    /** The protected part: turn the controller on, create the directory, examine it. */
    method Prepare(name: string, env: Environment) returns (raised: bool)
      requires View() == NEW_HANDLE
      modifies this, parent
      ensures (parent.state, View(), raised) == Preparing(old(parent.state), name, env)
    {
      if !parent.state.memory {
        if env.enableFails { return true; }
        parent.state := parent.state.(memory := true);
        enabledMemory := true;
      }
      path := Some(name);
      if env.mkdir.MkdirFails? || name in parent.state.groups { return true; }
      var g := Group(env.mkdir.inode, env.mkdir.populated, env.mkdir.history);
      parent.state := parent.state.(groups := parent.state.groups[name := g]);
      if env.statFails { return true; }
      identity := Some(g.inode);
      return env.readFails || g.history || g.populated;
    }

    method CloseGroup(f: Failing) returns (error: Option<CloseError>)
      modifies this, parent
      ensures (parent.state, View(), error) == Closing(old(parent.state), old(View()), f)
    {
      if closed { return None; }
      if path.Some? {
        if path.value !in parent.state.groups { return Some(NotLive); }
        if Some(parent.state.groups[path.value].inode) != identity { return Some(IdentityChanged); }
        if f.read { return Some(ReadFailed); }
        if parent.state.groups[path.value].populated { return Some(Populated); }
        if f.remove { return Some(RemoveFailed); }
        parent.state := parent.state.(groups := parent.state.groups - {path.value});
        path := None;
      }
      if enabledMemory {
        if parent.state.groups.Keys != {MONITOR} { return Some(ForeignSubgroup); }
        if f.write { return Some(WriteFailed); }
        parent.state := parent.state.(memory := false);
        enabledMemory := false;
      }
      closed := true;
      return None;
    }
  }
}
