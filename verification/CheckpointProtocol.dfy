/** The worker protocol of the benchmark runner: concurrent jobs, one per pending task, record their
    preflight and append result rows to shared lists under one checkpoint lock.  The model interleaves
    the jobs at every read of shared data, every write under the lock and between the two files a
    checkpoint writes. */
module CheckpointProtocol {
  import opened Wrappers
  import opened BenchmarkResults
  import opened ShardMerge
  import opened CheckpointStore

  /** The tasks with a selected arm that has no row yet. */
  function PendingOf(existing: seq<Row>, ids: seq<string>, selected: seq<string>): (pending: seq<string>) {
    if ids == [] then []
    else
      (if forall arm | arm in selected :: (ids[0], arm) in KeySet(existing) then [] else [ids[0]])
      + PendingOf(existing, ids[1..], selected)
  }

  lemma {:induction false} PendingMembers(existing: seq<Row>, ids: seq<string>, selected: seq<string>)
    ensures forall id :: id in PendingOf(existing, ids, selected) <==>
              id in ids && exists arm | arm in selected :: (id, arm) !in KeySet(existing)
  {
    if ids == [] {
    } else {
      PendingMembers(existing, ids[1..], selected);
      assert ids == [ids[0]] + ids[1..];
    }
  }

  predicate NoRepeats(ids: seq<string>) {
    forall i, k | 0 <= i < k < |ids| :: ids[i] != ids[k]
  }

  lemma {:induction false} PendingNoRepeats(existing: seq<Row>, ids: seq<string>, selected: seq<string>)
    requires NoRepeats(ids)
    ensures NoRepeats(PendingOf(existing, ids, selected))
  {
    if ids == [] {
    } else {
      PendingNoRepeats(existing, ids[1..], selected);
      PendingMembers(existing, ids[1..], selected);
      assert ids[0] !in ids[1..];
    }
  }

  // ----- The concurrent protocol

  datatype Config = Config(
    ids: seq<string>,                 // the tasks
    existing: seq<Row>,               // rows of the resumed run
    preflights: map<string, string>,  // preflights in the manifest of the resumed run
    pending: seq<string>,             // task of each job
    selected: seq<string>,            // arms to run
    order: string -> seq<string>,
    workers: nat)

  /** Where a job is.  `todo` lists the arms its loop has yet to visit. */
  datatype Job =
    | Queued
    | Preparing
    | Recording
    | Checking
    | Picking(todo: seq<string>)
    | Running(arm: string, todo: seq<string>)
    | Listing(arms: seq<string>, failures: seq<Row>)
    | Waiting(batch: seq<Row>, todo: seq<string>)
    | Adding(batch: seq<Row>, todo: seq<string>)
    | Marking(batch: seq<Row>, todo: seq<string>)
    | Saving(todo: seq<string>)
    | Sealing(todo: seq<string>)
    | Done

  /** What the jobs share: the rows, their keys and the recorded preflights. */
  datatype Memory = Memory(rows: seq<Row>, completed: set<Key>, preflights: map<string, string>)

  /** The two files of a checkpoint that are read again. */
  datatype Disk = Disk(rows: seq<Row>, manifest: map<string, string>)

  datatype State = State(mem: Memory, disk: Disk, holder: Option<nat>, jobs: seq<Job>)

  predicate InLock(job: Job) {
    job.Adding? || job.Marking? || job.Saving? || job.Sealing?
  }

  predicate Active(job: Job) {
    !job.Queued? && !job.Done?
  }

  function ActiveCount(jobs: seq<Job>): (n: nat) {
    if jobs == [] then 0 else ActiveCount(jobs[..|jobs| - 1]) + if Active(jobs[|jobs| - 1]) then 1 else 0
  }

  /** A row produced for a task and arm carries their key and the result schema. */
  predicate RowFor(row: Row, id: string, arm: string) {
    KeyOf(row) == (id, arm) && row.schema == RESULT_SCHEMA
  }

  /** The steps that change nothing shared.  Clone and preflight may raise, a preflight that returned
      may be invalid, and a run may return any row. */
  predicate Moves(c: Config, id: string, completed: set<Key>, room: bool, job: Job, job': Job) {
    match job
    case Queued => room && job' == Preparing
    case Preparing => job' == Recording || job' == Listing(c.selected, [])
    case Checking => job' == Picking(c.order(id)) || job' == Listing(c.selected, [])
    case Picking(todo) =>
      if todo == [] then job' == Done
      else if todo[0] !in c.selected || (id, todo[0]) in completed then job' == Picking(todo[1..])
      else job' == Running(todo[0], todo[1..])
    case Running(arm, todo) =>
      job'.Waiting? && job'.todo == todo && |job'.batch| == 1 && RowFor(job'.batch[0], id, arm)
    case Listing(arms, failures) => Lists(id, completed, arms, failures, job')
    case _ => false
  }

  predicate Lists(id: string, completed: set<Key>, arms: seq<string>, failures: seq<Row>, job': Job) {
    if arms == [] then job' == Waiting(failures, [])
    else if (id, arms[0]) in completed then job' == Listing(arms[1..], failures)
    else
      && job'.Listing? && job'.arms == arms[1..] && |job'.failures| == |failures| + 1
      && job'.failures[..|failures|] == failures && RowFor(job'.failures[|failures|], id, arms[0])
  }

  /** The steps of the job that holds the lock.  A checkpoint writes the rows first and the manifest
      second, and releases the lock. */
  predicate Writes(c: Config, m: Memory, d: Disk, job: Job, m': Memory, d': Disk, job': Job) {
    match job
    case Adding(batch, todo) =>
      && d' == d
      && if batch == [] then m' == m && job' == Saving(todo)
         else if KeyOf(batch[0]) in m.completed then m' == m && job' == Adding(batch[1..], todo)
         else m' == m.(rows := m.rows + [batch[0]]) && job' == Marking(batch, todo)
    case Marking(batch, todo) =>
      batch != [] && d' == d && m' == m.(completed := m.completed + {KeyOf(batch[0])}) && job' == Adding(batch[1..], todo)
    case Saving(todo) =>
      m' == m && d' == d.(rows := Ordered(c.ids, m.rows)) && job' == Sealing(todo)
    case Sealing(todo) =>
      m' == m && d' == d.(manifest := m.preflights) && job' == Picking(todo)
    case _ => false
  }

  predicate Records(m: Memory, id: string, m': Memory) {
    id in m'.preflights && m' == m.(preflights := m.preflights[id := m'.preflights[id]])
  }

  predicate Quiet(s: State, s': State) {
    s'.mem == s.mem && s'.disk == s.disk
  }

  /** One step of job j: a step of its own, recording a preflight under the lock, taking the lock, or
      a step inside it. */
  predicate Step(c: Config, s: State, j: nat, s': State) {
    && j < |s.jobs| == |c.pending| == |s'.jobs|
    && s'.jobs == s.jobs[j := s'.jobs[j]]
    && var id, job, job' := c.pending[j], s.jobs[j], s'.jobs[j];
       || (Moves(c, id, s.mem.completed, ActiveCount(s.jobs) < c.workers, job, job')
           && Quiet(s, s') && s'.holder == s.holder)
       || (job.Recording? && job' == Checking && s.holder == s'.holder == None
           && Records(s.mem, id, s'.mem) && s'.disk == s.disk)
       || (job.Waiting? && job' == Adding(job.batch, job.todo) && s.holder == None && s'.holder == Some(j)
           && Quiet(s, s'))
       || (Writes(c, s.mem, s.disk, job, s'.mem, s'.disk, job')
           && s'.holder == if job.Sealing? then None else s.holder)
  }

  ghost predicate Runnable(c: Config) {
    && DistinctKeys(c.existing)
    && c.workers >= 1
    && (forall arm | arm in c.selected :: arm in ARMS)
    && (forall id, arm | id in c.pending && arm in c.selected :: arm in c.order(id))
  }

  /** What the program makes sure of before it starts its workers. */
  ghost predicate WellFormed(c: Config) {
    && Runnable(c)
    && NoRepeats(c.ids) && Acceptable(c.existing, c.ids)
    && (forall id | id in c.preflights :: id in c.ids)
    && c.pending == PendingOf(c.existing, c.ids, c.selected)
  }

  function Start(c: Config): (s: State) {
    State(Memory(c.existing, KeySet(c.existing), c.preflights), Disk(Ordered(c.ids, c.existing), c.preflights), None,
          seq(|c.pending|, _ => Queued))
  }

  // ----- Invariant

  /** The job inside the lock. */
  function Inside(s: State): (job: Option<Job>) {
    if s.holder.Some? && s.holder.value < |s.jobs| then Some(s.jobs[s.holder.value]) else None
  }

  /** The key whose row is in the list but not yet in the completed set. */
  function Unmarked(inside: Option<Job>): (ks: set<Key>) {
    if inside.Some? && inside.value.Marking? && inside.value.batch != [] then {KeyOf(inside.value.batch[0])} else {}
  }

  /** The shared data: one row per key, rows and completed in agreement except for the key being
      marked, existing rows in place. */
  ghost predicate SharedInv(c: Config, m: Memory, inside: Option<Job>) {
    && DistinctKeys(m.rows)
    && KeySet(m.rows) == m.completed + Unmarked(inside)
    && Unmarked(inside) !! m.completed
    && c.existing <= m.rows
  }

  /** The files: existing rows are on disk, nothing but rows is, and outside the lock all of them. */
  ghost predicate DiskInv(c: Config, m: Memory, d: Disk, inside: Option<Job>) {
    && multiset(c.existing) <= multiset(d.rows) <= multiset(m.rows)
    && (inside.None? || inside.value.Sealing? ==> d.rows == Ordered(c.ids, m.rows))
  }

  ghost predicate LockInv(s: State) {
    && (s.holder.Some? ==> s.holder.value < |s.jobs|)
    && (forall j | 0 <= j < |s.jobs| :: InLock(s.jobs[j]) <==> s.holder == Some(j))
  }

  /** A selected arm of a job is completed or still ahead of it. */
  predicate Owed(job: Job, id: string, arm: string, completed: set<Key>) {
    (id, arm) in completed ||
    match job
    case Queued => true
    case Preparing => true
    case Recording => true
    case Checking => true
    case Picking(todo) => arm in todo
    case Running(a, todo) => arm == a || arm in todo
    case Listing(arms, failures) => arm in arms || (id, arm) in KeySet(failures)
    case Waiting(batch, todo) => (id, arm) in KeySet(batch) || arm in todo
    case Adding(batch, todo) => (id, arm) in KeySet(batch) || arm in todo
    case Marking(batch, todo) => (id, arm) in KeySet(batch) || arm in todo
    case Saving(todo) => arm in todo
    case Sealing(todo) => arm in todo
    case Done => false
  }

  /** Rows a job carries belong to its task and a selected arm. */
  ghost predicate Carries(c: Config, job: Job, id: string) {
    && (job.Running? ==> job.arm in c.selected)
    && (job.Listing? ==> (forall a | a in job.arms :: a in c.selected) && OwnRows(c, job.failures, id))
    && (job.Waiting? || job.Adding? || job.Marking? ==> OwnRows(c, job.batch, id))
    && (job.Marking? ==> job.batch != [])
  }

  ghost predicate OwnRow(c: Config, row: Row, id: string) {
    row.taskId == id && row.arm in c.selected && row.schema == RESULT_SCHEMA
  }

  ghost predicate OwnRows(c: Config, rows: seq<Row>, id: string) {
    forall i | 0 <= i < |rows| :: OwnRow(c, rows[i], id)
  }

  ghost predicate JobInv(c: Config, job: Job, id: string, completed: set<Key>) {
    Carries(c, job, id) && forall arm | arm in c.selected :: Owed(job, id, arm, completed)
  }

  /** Every row beyond the existing ones belongs to a pending task and a selected arm. */
  ghost predicate NewRows(c: Config, rows: seq<Row>) {
    && |c.existing| <= |rows|
    && forall i | |c.existing| <= i < |rows| :: rows[i].taskId in c.pending && OwnRow(c, rows[i], rows[i].taskId)
  }

  ghost predicate Inv(c: Config, s: State) {
    && |s.jobs| == |c.pending|
    && LockInv(s)
    && SharedInv(c, s.mem, Inside(s))
    && NewRows(c, s.mem.rows)
    && (forall j | 0 <= j < |s.jobs| :: JobInv(c, s.jobs[j], c.pending[j], s.mem.completed))
  }

  lemma StartInv(c: Config)
    requires Runnable(c)
    ensures Inv(c, Start(c))
  {
    StartShared(c);
  }

  lemma StartShared(c: Config)
    requires DistinctKeys(c.existing)
    ensures SharedInv(c, Start(c).mem, None)
  {
  }

  lemma StartDisk(c: Config)
    requires DistinctKeys(c.existing)
    ensures DiskInv(c, Start(c).mem, Start(c).disk, None)
  {
    OrderedKeeps(c.ids, c.existing);
  }

  // ----- Every step keeps the invariant

  /** What every step leaves alone, and that rows are appended only. */
  lemma StepGrows(c: Config, s: State, j: nat, s': State)
    requires Step(c, s, j, s')
    ensures s.mem.rows <= s'.mem.rows && s.mem.completed <= s'.mem.completed
    ensures |s'.jobs| == |s.jobs| && forall i | 0 <= i < |s.jobs| && i != j :: s'.jobs[i] == s.jobs[i]
  {
  }

  /** A job outside the lock changes no rows and nothing on disk. */
  lemma OthersLeaveShared(c: Config, s: State, j: nat, s': State)
    requires LockInv(s) && Step(c, s, j, s') && s.holder != Some(j)
    ensures s'.mem.rows == s.mem.rows && s'.mem.completed == s.mem.completed && s'.disk == s.disk
    ensures s.holder.Some? ==> s'.holder == s.holder
  {
    assert !InLock(s.jobs[j]);
  }

  lemma StepKeepsLock(c: Config, s: State, j: nat, s': State)
    requires LockInv(s) && Step(c, s, j, s')
    ensures LockInv(s')
  {
    assert InLock(s.jobs[j]) <==> s.holder == Some(j);
    StepGrows(c, s, j, s');
    HolderFollows(c, s, j, s');
    forall i | 0 <= i < |s'.jobs| ensures InLock(s'.jobs[i]) <==> s'.holder == Some(i) {
      if i != j { assert InLock(s.jobs[i]) <==> s.holder == Some(i); }
    }
  }

  /** The lock passes to a job that enters it and is free when it leaves; other jobs do not touch it. */
  lemma HolderFollows(c: Config, s: State, j: nat, s': State)
    requires LockInv(s) && Step(c, s, j, s')
    ensures InLock(s'.jobs[j]) ==> s'.holder == Some(j)
    ensures !InLock(s'.jobs[j]) ==> s'.holder == if s.holder == Some(j) then None else s.holder
    ensures InLock(s'.jobs[j]) && !InLock(s.jobs[j]) ==> s.holder == None
  {
    assert InLock(s.jobs[j]) <==> s.holder == Some(j);
  }

  lemma PrefixElements(a: seq<Row>, b: seq<Row>)
    requires a <= b
    ensures multiset(a) <= multiset(b)
  {
    assert b == a + b[|a|..];
  }

  lemma WritesKeepShared(c: Config, m: Memory, d: Disk, job: Job, m': Memory, d': Disk, job': Job)
    requires SharedInv(c, m, Some(job)) && Writes(c, m, d, job, m', d', job')
    ensures SharedInv(c, m', if job.Sealing? then None else Some(job'))
  {
    if job.Adding? && job.batch != [] && KeyOf(job.batch[0]) !in m.completed {
      KeySetAppend(m.rows, job.batch[0]);
      DistinctAppend(m.rows, job.batch[0]);
    }
  }

  lemma WritesKeepDisk(c: Config, m: Memory, d: Disk, job: Job, m': Memory, d': Disk, job': Job)
    requires SharedInv(c, m, Some(job)) && DiskInv(c, m, d, Some(job)) && Writes(c, m, d, job, m', d', job')
    ensures DiskInv(c, m', d', if job.Sealing? then None else Some(job'))
  {
    if job.Adding? && job.batch != [] && KeyOf(job.batch[0]) !in m.completed {
      assert multiset(m'.rows) == multiset(m.rows) + multiset{job.batch[0]};
    } else if job.Saving? {
      OrderedKeeps(c.ids, m.rows);
      PrefixElements(c.existing, m.rows);
    }
  }

  lemma StepKeepsDisk(c: Config, s: State, j: nat, s': State)
    requires LockInv(s) && SharedInv(c, s.mem, Inside(s)) && DiskInv(c, s.mem, s.disk, Inside(s)) && Step(c, s, j, s')
    ensures DiskInv(c, s'.mem, s'.disk, Inside(s'))
  {
    assert InLock(s.jobs[j]) <==> s.holder == Some(j);
    if InLock(s.jobs[j]) {
      WritesKeepDisk(c, s.mem, s.disk, s.jobs[j], s'.mem, s'.disk, s'.jobs[j]);
    } else {
      OthersLeaveShared(c, s, j, s');
    }
  }

  lemma StepKeepsShared(c: Config, s: State, j: nat, s': State)
    requires LockInv(s) && SharedInv(c, s.mem, Inside(s)) && Step(c, s, j, s')
    ensures SharedInv(c, s'.mem, Inside(s'))
  {
    assert InLock(s.jobs[j]) <==> s.holder == Some(j);
    if InLock(s.jobs[j]) {
      WritesKeepShared(c, s.mem, s.disk, s.jobs[j], s'.mem, s'.disk, s'.jobs[j]);
    } else {
      OthersLeaveShared(c, s, j, s');
    }
  }

  lemma StepKeepsNewRows(c: Config, s: State, j: nat, s': State)
    requires NewRows(c, s.mem.rows) && Step(c, s, j, s') && Carries(c, s.jobs[j], c.pending[j])
    ensures NewRows(c, s'.mem.rows)
  {
  }

  lemma KeySetTail(rows: seq<Row>, k: Key)
    requires rows != [] && k in KeySet(rows) && k != KeyOf(rows[0])
    ensures k in KeySet(rows[1..])
  {
    var r :| r in rows && KeyOf(r) == k;
    assert r in rows[1..];
  }

  lemma MovesKeepOwed(c: Config, id: string, completed: set<Key>, room: bool, job: Job, job': Job, arm: string)
    requires Moves(c, id, completed, room, job, job') && Owed(job, id, arm, completed)
    requires arm in c.selected && arm in c.order(id)
    ensures Owed(job', id, arm, completed)
  {
    if (id, arm) !in completed {
      if job.Running? {
        assert job'.batch[0] in job'.batch;
      } else if job.Listing? && job.arms != [] && (id, job.arms[0]) !in completed {
        var row := job'.failures[|job.failures|];
        assert job'.failures == job.failures + [row];
        KeySetAppend(job.failures, row);
      }
    }
  }

  lemma WritesKeepOwed(c: Config, m: Memory, d: Disk, job: Job, m': Memory, d': Disk, job': Job, id: string, arm: string)
    requires Writes(c, m, d, job, m', d', job') && Owed(job, id, arm, m.completed)
    ensures Owed(job', id, arm, m'.completed)
  {
    if (job.Adding? || job.Marking?) && (id, arm) in KeySet(job.batch) && KeyOf(job.batch[0]) != (id, arm) {
      KeySetTail(job.batch, (id, arm));
    }
  }

  lemma MovesKeepCarries(c: Config, id: string, completed: set<Key>, room: bool, job: Job, job': Job)
    requires Moves(c, id, completed, room, job, job') && Carries(c, job, id)
    ensures Carries(c, job', id)
  {
    if job.Listing? && job.arms != [] && (id, job.arms[0]) !in completed {
      assert job'.failures == job.failures + [job'.failures[|job.failures|]];
    }
  }

  lemma WritesKeepCarries(c: Config, m: Memory, d: Disk, job: Job, m': Memory, d': Disk, job': Job, id: string)
    requires Writes(c, m, d, job, m', d', job') && Carries(c, job, id)
    ensures Carries(c, job', id)
  {
  }

  lemma StepKeepsJob(c: Config, s: State, j: nat, s': State)
    requires Runnable(c) && Step(c, s, j, s') && JobInv(c, s.jobs[j], c.pending[j], s.mem.completed)
    ensures JobInv(c, s'.jobs[j], c.pending[j], s'.mem.completed)
  {
    var id, job, job' := c.pending[j], s.jobs[j], s'.jobs[j];
    if InLock(job) {
      WritesKeepCarries(c, s.mem, s.disk, job, s'.mem, s'.disk, job', id);
      forall arm | arm in c.selected ensures Owed(job', id, arm, s'.mem.completed) {
        WritesKeepOwed(c, s.mem, s.disk, job, s'.mem, s'.disk, job', id, arm);
      }
    } else if job.Recording? || job.Waiting? {
      assert s'.mem.completed == s.mem.completed;
    } else {
      var room := ActiveCount(s.jobs) < c.workers;
      assert Moves(c, id, s.mem.completed, room, job, job');
      MovesKeepCarries(c, id, s.mem.completed, room, job, job');
      forall arm | arm in c.selected ensures Owed(job', id, arm, s'.mem.completed) {
        MovesKeepOwed(c, id, s.mem.completed, room, job, job', arm);
      }
    }
  }

  lemma OwedGrows(c: Config, job: Job, id: string, before: set<Key>, after: set<Key>)
    requires JobInv(c, job, id, before) && before <= after
    ensures JobInv(c, job, id, after)
  {
    forall arm | arm in c.selected ensures Owed(job, id, arm, after) { assert Owed(job, id, arm, before); }
  }

  lemma StepKeepsJobs(c: Config, s: State, j: nat, s': State, i: nat)
    requires Runnable(c) && Step(c, s, j, s') && i < |s.jobs|
    requires JobInv(c, s.jobs[i], c.pending[i], s.mem.completed)
    ensures i < |s'.jobs| && JobInv(c, s'.jobs[i], c.pending[i], s'.mem.completed)
  {
    if i == j {
      StepKeepsJob(c, s, j, s');
    } else {
      StepGrows(c, s, j, s');
      OwedGrows(c, s.jobs[i], c.pending[i], s.mem.completed, s'.mem.completed);
    }
  }

  lemma StepKeepsInv(c: Config, s: State, j: nat, s': State)
    requires Runnable(c) && Inv(c, s) && Step(c, s, j, s')
    ensures Inv(c, s')
  {
    StepKeepsLock(c, s, j, s');
    StepKeepsShared(c, s, j, s');
    StepKeepsNewRows(c, s, j, s');
    forall i | 0 <= i < |s'.jobs| ensures JobInv(c, s'.jobs[i], c.pending[i], s'.mem.completed) {
      StepKeepsJobs(c, s, j, s', i);
    }
  }

  /** What the row list will be when a job in the lock leaves it. */
  function LockedOutcome(rows: seq<Row>, job: Job): (r: seq<Row>) {
    if job.Adding? then AddNew(rows, job.batch)
    else if job.Marking? && job.batch != [] then AddNew(rows, job.batch[1..])
    else rows
  }

  lemma WritesKeepOutcome(c: Config, m: Memory, d: Disk, job: Job, m': Memory, d': Disk, job': Job)
    requires SharedInv(c, m, Some(job)) && Writes(c, m, d, job, m', d', job')
    ensures LockedOutcome(m'.rows, job') == LockedOutcome(m.rows, job)
  {
  }

  /** The section under the lock is atomic: from its entry to its release, whatever steps other
      jobs take in between, it does what `CheckpointRows` does in one call, and it brings the manifest
      up to date. */
  lemma LockedSectionIsAtomic(c: Config, s: State, i: nat, s': State, j: nat)
    requires LockInv(s) && SharedInv(c, s.mem, Inside(s)) && Step(c, s, i, s') && j < |s.jobs|
    ensures |s'.jobs| == |s.jobs|
    ensures s.jobs[j].Waiting? && InLock(s'.jobs[j]) ==>
              LockedOutcome(s'.mem.rows, s'.jobs[j]) == AddNew(s.mem.rows, s.jobs[j].batch)
    ensures InLock(s.jobs[j]) && InLock(s'.jobs[j]) ==>
              LockedOutcome(s'.mem.rows, s'.jobs[j]) == LockedOutcome(s.mem.rows, s.jobs[j])
    ensures InLock(s.jobs[j]) && !InLock(s'.jobs[j]) && DiskInv(c, s.mem, s.disk, Inside(s)) ==>
              && s'.mem.rows == LockedOutcome(s.mem.rows, s.jobs[j])
              && s'.disk == Disk(Ordered(c.ids, s'.mem.rows), s'.mem.preflights)
  {
    StepGrows(c, s, i, s');
    assert InLock(s.jobs[j]) <==> s.holder == Some(j);
    if i != j {
      if InLock(s.jobs[j]) { OthersLeaveShared(c, s, i, s'); }
    } else if InLock(s.jobs[j]) {
      WritesKeepOutcome(c, s.mem, s.disk, s.jobs[j], s'.mem, s'.disk, s'.jobs[j]);
      if !InLock(s'.jobs[j]) { LeavingSeals(c, s.mem, s.disk, s.jobs[j], s'.mem, s'.disk, s'.jobs[j]); }
    }
  }

  lemma LeavingSeals(c: Config, m: Memory, d: Disk, job: Job, m': Memory, d': Disk, job': Job)
    requires InLock(job) && !InLock(job') && Writes(c, m, d, job, m', d', job')
    ensures m' == m && LockedOutcome(m.rows, job) == m.rows && d' == Disk(d.rows, m.preflights) && job.Sealing?
  {
  }

  // ----- Whole runs

  /** A run: the states t an interleaving passes through from the start, and the job that takes
      each step. */
  predicate Run(c: Config, t: seq<State>, who: seq<nat>)
    decreases |who|
  {
    && |t| == |who| + 1
    && if who == [] then t == [Start(c)]
       else
         var n := |who| - 1;
         Run(c, t[..n + 1], who[..n]) && Step(c, t[n], who[n], t[n + 1])
  }

  lemma {:induction false} RunStarts(c: Config, t: seq<State>, who: seq<nat>)
    requires Run(c, t, who)
    ensures t[0] == Start(c)
    decreases |who|
  {
    if who == [] {
    } else {
      RunStarts(c, t[..|who|], who[..|who| - 1]);
    }
  }

  lemma {:induction false} RunSteps(c: Config, t: seq<State>, who: seq<nat>, k: nat)
    requires Run(c, t, who) && k < |who|
    ensures Step(c, t[k], who[k], t[k + 1])
    decreases |who|
  {
    if k == |who| - 1 {
    } else {
      RunSteps(c, t[..|who|], who[..|who| - 1], k);
    }
  }

  /** Every state of every interleaving keeps the invariant. */
  lemma {:induction false} RunKeepsInv(c: Config, t: seq<State>, who: seq<nat>, k: nat)
    requires Runnable(c) && Run(c, t, who) && k < |t|
    ensures Inv(c, t[k])
  {
    if k == 0 {
      RunStarts(c, t, who);
      StartInv(c);
    } else {
      RunKeepsInv(c, t, who, k - 1);
      RunSteps(c, t, who, k - 1);
      StepKeepsInv(c, t[k - 1], who[k - 1], t[k]);
    }
  }

  lemma {:induction false} RunKeepsDisk(c: Config, t: seq<State>, who: seq<nat>, k: nat)
    requires Runnable(c) && Run(c, t, who) && k < |t|
    ensures DiskInv(c, t[k].mem, t[k].disk, Inside(t[k]))
  {
    if k == 0 {
      RunStarts(c, t, who);
      StartDisk(c);
    } else {
      RunKeepsDisk(c, t, who, k - 1);
      RunKeepsInv(c, t, who, k - 1);
      RunSteps(c, t, who, k - 1);
      StepKeepsDisk(c, t[k - 1], who[k - 1], t[k]);
    }
  }

  lemma {:induction false} RunSavesDistinct(c: Config, t: seq<State>, who: seq<nat>, k: nat)
    requires Runnable(c) && Run(c, t, who) && k < |t|
    ensures DistinctKeys(t[k].disk.rows)
  {
    if k == 0 {
      RunStarts(c, t, who);
      OrderedDistinct(c.ids, c.existing);
    } else {
      RunSavesDistinct(c, t, who, k - 1);
      RunKeepsInv(c, t, who, k - 1);
      RunSteps(c, t, who, k - 1);
      StepSavesDistinct(c, t[k - 1], who[k - 1], t[k]);
    }
  }

  lemma StepSavesDistinct(c: Config, s: State, j: nat, s': State)
    requires Step(c, s, j, s') && DistinctKeys(s.mem.rows) && DistinctKeys(s.disk.rows)
    ensures DistinctKeys(s'.disk.rows)
  {
    OrderedDistinct(c.ids, s.mem.rows);
    if s.jobs[j].Saving? {
      assert s'.disk.rows == Ordered(c.ids, s.mem.rows);
    } else {
      assert s'.disk.rows == s.disk.rows;
    }
  }

  /** No row is ever dropped, replaced or moved. */
  lemma {:induction false} RunOnlyAppends(c: Config, t: seq<State>, who: seq<nat>, i: nat, k: nat)
    requires Run(c, t, who) && i <= k < |t|
    ensures t[i].mem.rows <= t[k].mem.rows
    decreases k
  {
    if i == k {
    } else {
      RunOnlyAppends(c, t, who, i, k - 1);
      RunSteps(c, t, who, k - 1);
      StepGrows(c, t[k - 1], who[k - 1], t[k]);
    }
  }

  ghost predicate Finished(s: State) {
    forall j | 0 <= j < |s.jobs| :: s.jobs[j].Done?
  }

  /** When all jobs are done, every pending task has exactly one row for every selected arm, the
      existing rows are still in place, the rest belong to pending tasks and selected arms, and
      the last checkpoint holds all rows in the order of tasks and arms. */
  lemma FinishedRun(c: Config, t: seq<State>, who: seq<nat>)
    requires Runnable(c) && Run(c, t, who) && Finished(t[|t| - 1])
    ensures var s := t[|t| - 1];
            && s.mem.completed == KeySet(s.mem.rows) && DistinctKeys(s.mem.rows)
            && c.existing <= s.mem.rows && s.disk.rows == Ordered(c.ids, s.mem.rows)
            && NewRows(c, s.mem.rows)
            && (forall id, arm | id in c.pending && arm in c.selected :: (id, arm) in KeySet(s.mem.rows))
  {
    RunKeepsInv(c, t, who, |t| - 1);
    RunKeepsDisk(c, t, who, |t| - 1);
    FinishedState(c, t[|t| - 1]);
  }

  lemma FinishedState(c: Config, s: State)
    requires Inv(c, s) && DiskInv(c, s.mem, s.disk, Inside(s)) && Finished(s)
    ensures s.mem.completed == KeySet(s.mem.rows) && DistinctKeys(s.mem.rows)
    ensures c.existing <= s.mem.rows && s.disk.rows == Ordered(c.ids, s.mem.rows)
    ensures NewRows(c, s.mem.rows)
    ensures forall id, arm | id in c.pending && arm in c.selected :: (id, arm) in KeySet(s.mem.rows)
  {
    NobodyInside(s);
    forall id, arm | id in c.pending && arm in c.selected ensures (id, arm) in KeySet(s.mem.rows) {
      var j :| 0 <= j < |c.pending| && c.pending[j] == id;
      assert JobInv(c, s.jobs[j], id, s.mem.completed);
      assert Owed(s.jobs[j], id, arm, s.mem.completed);
    }
  }

  lemma NobodyInside(s: State)
    requires LockInv(s) && Finished(s)
    ensures s.holder == None
  {
    assert s.holder.Some? ==> InLock(s.jobs[s.holder.value]);
  }

  /** What the program starts from when it is called again after an interruption: the rows and the
      preflights on disk. */
  ghost predicate Resumes(c': Config, c: Config, s: State) {
    && c'.ids == c.ids && c'.existing == s.disk.rows && c'.preflights == s.disk.manifest
    && c'.pending == PendingOf(s.disk.rows, c.ids, c'.selected)
    && c'.workers >= 1
    && (forall arm | arm in c'.selected :: arm in ARMS)
    && (forall id, arm | id in c'.pending && arm in c'.selected :: arm in c'.order(id))
  }

  /** Whatever state a run is interrupted in, its last checkpoint can be resumed: the rows pass the
      checks on resumed rows, contain every existing row and no other than those in memory, and start
      a well-formed run. */
  lemma InterruptedRunResumes(c: Config, t: seq<State>, who: seq<nat>, i: nat, c': Config)
    requires WellFormed(c) && Run(c, t, who) && i < |t| && Resumes(c', c, t[i])
    ensures Acceptable(t[i].disk.rows, c.ids)
    ensures multiset(c.existing) <= multiset(t[i].disk.rows) <= multiset(t[i].mem.rows)
    ensures t[i].holder == None ==> t[i].disk.rows == Ordered(c.ids, t[i].mem.rows)
    ensures WellFormed(c')
  {
    RunKeepsInv(c, t, who, i);
    RunKeepsDisk(c, t, who, i);
    RunSavesDistinct(c, t, who, i);
    SavedAcceptable(c, t[i]);
    RunKeepsPreflights(c, t, who, i);
    PendingMembers(c.existing, c.ids, c.selected);
  }

  lemma ReachedAcceptable(c: Config, s: State)
    requires WellFormed(c) && Inv(c, s)
    ensures Acceptable(s.mem.rows, c.ids)
  {
    PendingMembers(c.existing, c.ids, c.selected);
    forall row | row in s.mem.rows ensures row.schema == RESULT_SCHEMA && row.taskId in c.ids && row.arm in ARMS {
      var k :| 0 <= k < |s.mem.rows| && s.mem.rows[k] == row;
      if k < |c.existing| { assert c.existing[k] == row && row in c.existing; }
    }
  }

  lemma SavedAcceptable(c: Config, s: State)
    requires WellFormed(c) && Inv(c, s) && DiskInv(c, s.mem, s.disk, Inside(s)) && DistinctKeys(s.disk.rows)
    ensures Acceptable(s.disk.rows, c.ids)
  {
    ReachedAcceptable(c, s);
    forall row | row in s.disk.rows ensures row in s.mem.rows {
      assert row in multiset(s.disk.rows);
      assert row in multiset(s.mem.rows);
    }
  }

  ghost predicate OwnPreflights(c: Config, s: State) {
    forall id | id in s.disk.manifest || id in s.mem.preflights :: id in c.preflights || id in c.pending
  }

  /** Preflights are recorded for pending tasks alone. */
  lemma {:induction false} RunKeepsPreflights(c: Config, t: seq<State>, who: seq<nat>, k: nat)
    requires Run(c, t, who) && k < |t|
    ensures OwnPreflights(c, t[k])
  {
    if k == 0 {
      RunStarts(c, t, who);
    } else {
      RunKeepsPreflights(c, t, who, k - 1);
      RunSteps(c, t, who, k - 1);
      StepKeepsPreflights(c, t[k - 1], who[k - 1], t[k]);
    }
  }

  lemma StepKeepsPreflights(c: Config, s: State, j: nat, s': State)
    requires Step(c, s, j, s') && OwnPreflights(c, s)
    ensures OwnPreflights(c, s')
  {
  }

  // ----- Progress and termination

  lemma {:induction false} NoneActive(jobs: seq<Job>)
    requires forall j | 0 <= j < |jobs| :: !Active(jobs[j])
    ensures ActiveCount(jobs) == 0
  {
    if jobs == [] {
    } else {
      NoneActive(jobs[..|jobs| - 1]);
    }
  }

  function Goto(s: State, j: nat, job: Job): (s': State)
    requires j < |s.jobs|
  {
    s.(jobs := s.jobs[j := job])
  }

  /** There is no deadlock: an unfinished run can always take a step, whether preparations raise or
      not. */
  lemma Progress(c: Config, s: State, raises: bool) returns (j: nat, s': State)
    requires Runnable(c) && Inv(c, s) && !Finished(s)
    ensures Step(c, s, j, s')
    ensures s.jobs[j].Preparing? ==> s'.jobs[j] == if raises then Listing(c.selected, []) else Recording
  {
    if s.holder.Some? {
      j := s.holder.value;
      assert InLock(s.jobs[j]) && Carries(c, s.jobs[j], c.pending[j]);
      s' := LockedStep(c, s, j);
    } else if k :| 0 <= k < |s.jobs| && Active(s.jobs[k]) {
      j := k;
      assert !InLock(s.jobs[j]);
      s' := FreeStep(c, s, j, raises);
    } else {
      j :| 0 <= j < |s.jobs| && !s.jobs[j].Done?;
      assert !Active(s.jobs[j]);
      NoneActive(s.jobs);
      s' := Goto(s, j, Preparing);
    }
  }

  lemma LockedStep(c: Config, s: State, j: nat) returns (s': State)
    requires j < |s.jobs| == |c.pending| && InLock(s.jobs[j]) && (s.jobs[j].Marking? ==> s.jobs[j].batch != [])
    ensures Step(c, s, j, s') && s'.holder == if s.jobs[j].Sealing? then None else s.holder
  {
    var m, d, job := s.mem, s.disk, s.jobs[j];
    match job
    case Adding(batch, todo) =>
      if batch == [] {
        s' := Goto(s, j, Saving(todo));
      } else if KeyOf(batch[0]) in m.completed {
        s' := Goto(s, j, Adding(batch[1..], todo));
      } else {
        s' := Goto(s, j, Marking(batch, todo)).(mem := m.(rows := m.rows + [batch[0]]));
      }
    case Marking(batch, todo) =>
      s' := Goto(s, j, Adding(batch[1..], todo)).(mem := m.(completed := m.completed + {KeyOf(batch[0])}));
    case Saving(todo) =>
      s' := Goto(s, j, Sealing(todo)).(disk := d.(rows := Ordered(c.ids, m.rows)));
    case Sealing(todo) =>
      s' := Goto(s, j, Picking(todo)).(disk := d.(manifest := m.preflights), holder := None);
  }

  lemma FreeStep(c: Config, s: State, j: nat, raises: bool) returns (s': State)
    requires j < |s.jobs| == |c.pending| && Active(s.jobs[j]) && !InLock(s.jobs[j]) && s.holder == None
    ensures Step(c, s, j, s')
    ensures s.jobs[j].Preparing? ==> s'.jobs[j] == if raises then Listing(c.selected, []) else Recording
  {
    var id, job := c.pending[j], s.jobs[j];
    if job.Recording? {
      s' := Goto(s, j, Checking).(mem := s.mem.(preflights := s.mem.preflights[id := ""]));
    } else if job.Waiting? {
      s' := Goto(s, j, Adding(job.batch, job.todo)).(holder := Some(j));
    } else {
      var job' := NextMove(c, s, j, raises);
      s' := Goto(s, j, job');
    }
  }

  lemma NextMove(c: Config, s: State, j: nat, raises: bool) returns (job': Job)
    requires j < |s.jobs| == |c.pending| && Active(s.jobs[j]) && !InLock(s.jobs[j])
    requires !s.jobs[j].Recording? && !s.jobs[j].Waiting?
    ensures Moves(c, c.pending[j], s.mem.completed, ActiveCount(s.jobs) < c.workers, s.jobs[j], job')
    ensures s.jobs[j].Preparing? ==> job' == if raises then Listing(c.selected, []) else Recording
  {
    var id := c.pending[j];
    match s.jobs[j]
    case Preparing => job' := if raises then Listing(c.selected, []) else Recording;
    case Checking => job' := Picking(c.order(id));
    case Picking(todo) =>
      if todo == [] {
        job' := Done;
      } else if todo[0] !in c.selected || (id, todo[0]) in s.mem.completed {
        job' := Picking(todo[1..]);
      } else {
        job' := Running(todo[0], todo[1..]);
      }
    case Running(arm, todo) => job' := Waiting([Row(RESULT_SCHEMA, id, arm, Failed)], todo);
    case Listing(arms, failures) =>
      if arms == [] {
        job' := Waiting(failures, []);
      } else if (id, arms[0]) in s.mem.completed {
        job' := Listing(arms[1..], failures);
      } else {
        job' := Listing(arms[1..], failures + [Row(RESULT_SCHEMA, id, arms[0], Failed)]);
      }
  }

  /** How many steps a job can still take. */
  function Rank(c: Config, job: Job, id: string): (n: nat) {
    match job
    case Queued => 8 * |c.order(id)| + 3 * |c.selected| + 10
    case Preparing => 8 * |c.order(id)| + 3 * |c.selected| + 9
    case Recording => 8 * |c.order(id)| + 3 * |c.selected| + 8
    case Checking => 8 * |c.order(id)| + 3 * |c.selected| + 7
    case Picking(todo) => 8 * |todo| + 1
    case Running(arm, todo) => 8 * |todo| + 8
    case Listing(arms, failures) => 3 * |arms| + 2 * |failures| + 6
    case Waiting(batch, todo) => 8 * |todo| + 2 * |batch| + 5
    case Adding(batch, todo) => 8 * |todo| + 2 * |batch| + 4
    case Marking(batch, todo) => 8 * |todo| + 2 * |batch| + 3
    case Saving(todo) => 8 * |todo| + 3
    case Sealing(todo) => 8 * |todo| + 2
    case Done => 0
  }

  function TotalRank(c: Config, jobs: seq<Job>): (n: nat)
    requires |jobs| <= |c.pending|
  {
    if jobs == [] then 0
    else TotalRank(c, jobs[..|jobs| - 1]) + Rank(c, jobs[|jobs| - 1], c.pending[|jobs| - 1])
  }

  lemma {:induction false} TotalRankUpdate(c: Config, jobs: seq<Job>, j: nat, job: Job)
    requires j < |jobs| <= |c.pending|
    ensures TotalRank(c, jobs[j := job]) ==
            TotalRank(c, jobs) - Rank(c, jobs[j], c.pending[j]) + Rank(c, job, c.pending[j])
  {
    var n := |jobs| - 1;
    if j == n {
      assert jobs[j := job][..n] == jobs[..n];
    } else {
      TotalRankUpdate(c, jobs[..n], j, job);
      assert jobs[j := job][..n] == jobs[..n][j := job];
    }
  }

  lemma MovesLowerRank(c: Config, id: string, completed: set<Key>, room: bool, job: Job, job': Job)
    requires Moves(c, id, completed, room, job, job')
    ensures Rank(c, job', id) < Rank(c, job, id)
  {
  }

  lemma WritesLowerRank(c: Config, m: Memory, d: Disk, job: Job, m': Memory, d': Disk, job': Job, id: string)
    requires Writes(c, m, d, job, m', d', job')
    ensures Rank(c, job', id) < Rank(c, job, id)
  {
  }

  lemma StepLowersRank(c: Config, s: State, j: nat, s': State)
    requires Step(c, s, j, s')
    ensures |s'.jobs| == |s.jobs| == |c.pending|
    ensures TotalRank(c, s'.jobs) < TotalRank(c, s.jobs)
  {
    var id, job, job' := c.pending[j], s.jobs[j], s'.jobs[j];
    if InLock(job) {
      WritesLowerRank(c, s.mem, s.disk, job, s'.mem, s'.disk, job', id);
    } else if job.Recording? || job.Waiting? {
      assert Rank(c, job', id) < Rank(c, job, id);
    } else {
      MovesLowerRank(c, id, s.mem.completed, ActiveCount(s.jobs) < c.workers, job, job');
    }
    TotalRankUpdate(c, s.jobs, j, job');
  }

  /** Every interleaving ends: no run is longer than the rank of its start. */
  lemma {:induction false} RunsAreBounded(c: Config, t: seq<State>, who: seq<nat>, k: nat)
    requires Run(c, t, who) && k < |t|
    ensures |t[k].jobs| == |c.pending|
    ensures k + TotalRank(c, t[k].jobs) <= TotalRank(c, Start(c).jobs)
  {
    if k == 0 {
      RunStarts(c, t, who);
    } else {
      RunsAreBounded(c, t, who, k - 1);
      RunSteps(c, t, who, k - 1);
      StepLowersRank(c, t[k - 1], who[k - 1], t[k]);
    }
  }

  /** At most `workers` jobs are between their start and their end. */
  lemma {:induction false} WorkersBounded(c: Config, t: seq<State>, who: seq<nat>, k: nat)
    requires Run(c, t, who) && k < |t|
    ensures ActiveCount(t[k].jobs) <= c.workers
  {
    if k == 0 {
      RunStarts(c, t, who);
      NoneActive(t[0].jobs);
    } else {
      WorkersBounded(c, t, who, k - 1);
      RunSteps(c, t, who, k - 1);
      StepActive(c, t[k - 1], who[k - 1], t[k]);
    }
  }

  lemma StepActive(c: Config, s: State, j: nat, s': State)
    requires Step(c, s, j, s') && ActiveCount(s.jobs) <= c.workers
    ensures ActiveCount(s'.jobs) <= c.workers
  {
    ActiveUpdate(s.jobs, j, s'.jobs[j]);
    assert s'.jobs == s.jobs[j := s'.jobs[j]];
  }

  lemma {:induction false} ActiveUpdate(jobs: seq<Job>, j: nat, job: Job)
    requires j < |jobs|
    ensures ActiveCount(jobs[j := job]) ==
            ActiveCount(jobs) - (if Active(jobs[j]) then 1 else 0) + (if Active(job) then 1 else 0)
  {
    var n := |jobs| - 1;
    if j == n {
      assert jobs[j := job][..n] == jobs[..n];
    } else {
      ActiveUpdate(jobs[..n], j, job);
      assert jobs[j := job][..n] == jobs[..n][j := job];
    }
  }
}
