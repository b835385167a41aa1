/** Which preflights a run of the worker protocol leaves in the manifest on disk.  A job records its
    preflight in memory, and the manifest is written as the second file of a checkpoint. */
module PreflightRecords {
  import opened Wrappers
  import opened BenchmarkResults
  import opened ShardMerge
  import opened CheckpointStore
  import opened Sorting
  import opened CheckpointProtocol

  // ----- What is recorded is saved

  /** The job has not come past its preflight. */
  predicate Early(job: Job) {
    job.Queued? || job.Preparing? || job.Recording?
  }

  predicate OpenArm(c: Config, todo: seq<string>, id: string, completed: set<Key>) {
    exists arm | arm in todo :: arm in c.selected && (id, arm) !in completed
  }

  /** A checkpoint of the job lies ahead. */
  predicate Ahead(c: Config, job: Job, id: string, completed: set<Key>) {
    !Early(job) && !job.Done? && (job.Picking? ==> OpenArm(c, job.todo, id, completed))
  }

  /** Before its preflight is checked no row of the job's task is added. */
  ghost predicate Untouched(c: Config, job: Job, id: string, completed: set<Key>) {
    Early(job) || job.Checking? ==> OpenArm(c, c.order(id), id, completed)
  }

  ghost predicate SavedOrAhead(c: Config, s: State, id: string) {
    || (id in s.mem.preflights && id in s.disk.manifest && s.disk.manifest[id] == s.mem.preflights[id])
    || exists j | 0 <= j < |s.jobs| && j < |c.pending| ::
         c.pending[j] == id && Ahead(c, s.jobs[j], id, s.mem.completed)
  }

  ghost predicate RecordInv(c: Config, s: State) {
    && s.disk.manifest.Keys <= s.mem.preflights.Keys
    && (forall id | id in s.mem.preflights :: SavedOrAhead(c, s, id))
    && (forall j | 0 <= j < |s.jobs| && j < |c.pending| ::
          Untouched(c, s.jobs[j], c.pending[j], s.mem.completed))
  }

  lemma MovesKeepAhead(c: Config, id: string, completed: set<Key>, room: bool, job: Job, job': Job)
    requires Moves(c, id, completed, room, job, job') && Ahead(c, job, id, completed) && Untouched(c, job, id, completed)
    ensures Ahead(c, job', id, completed)
  {
    if job.Picking? && job'.Picking? {
      var arm :| arm in job.todo && arm in c.selected && (id, arm) !in completed;
      assert arm in job'.todo;
    }
  }

  /** Another job's step completes no arm of this job's task. */
  lemma OthersKeepOpen(c: Config, s: State, j: nat, s': State, todo: seq<string>, id: string)
    requires Step(c, s, j, s') && Carries(c, s.jobs[j], c.pending[j]) && c.pending[j] != id
    ensures OpenArm(c, todo, id, s.mem.completed) ==> OpenArm(c, todo, id, s'.mem.completed)
  {
    if OpenArm(c, todo, id, s.mem.completed) {
      var arm :| arm in todo && arm in c.selected && (id, arm) !in s.mem.completed;
      assert (id, arm) !in s'.mem.completed;
    }
  }

  lemma StepKeepsUntouched(c: Config, s: State, j: nat, s': State, i: nat)
    requires Step(c, s, j, s') && NoRepeats(c.pending) && i < |s.jobs|
    requires Carries(c, s.jobs[j], c.pending[j]) && Untouched(c, s.jobs[i], c.pending[i], s.mem.completed)
    ensures i < |s'.jobs| && Untouched(c, s'.jobs[i], c.pending[i], s'.mem.completed)
  {
    StepGrows(c, s, j, s');
    if i == j {
      if Early(s'.jobs[j]) || s'.jobs[j].Checking? { assert s'.mem.completed == s.mem.completed; }
    } else {
      OthersKeepOpen(c, s, j, s', c.order(c.pending[i]), c.pending[i]);
    }
  }

  lemma StepKeepsAhead(c: Config, s: State, j: nat, s': State, i: nat)
    requires Step(c, s, j, s') && NoRepeats(c.pending) && i < |s.jobs|
    requires Carries(c, s.jobs[j], c.pending[j]) && Untouched(c, s.jobs[i], c.pending[i], s.mem.completed)
    requires Ahead(c, s.jobs[i], c.pending[i], s.mem.completed)
    ensures i < |s'.jobs|
    ensures Ahead(c, s'.jobs[i], c.pending[i], s'.mem.completed) || s'.disk.manifest == s'.mem.preflights
  {
    StepGrows(c, s, j, s');
    var id, job, job' := c.pending[j], s.jobs[j], s'.jobs[j];
    if i != j {
      if s.jobs[i].Picking? { OthersKeepOpen(c, s, j, s', s.jobs[i].todo, c.pending[i]); }
    } else if !InLock(job) && !job.Waiting? {
      MovesKeepAhead(c, id, s.mem.completed, ActiveCount(s.jobs) < c.workers, job, job');
    }
  }

  lemma StepKeepsSaved(c: Config, s: State, j: nat, s': State, id: string)
    requires Step(c, s, j, s') && NoRepeats(c.pending) && RecordInv(c, s)
    requires Carries(c, s.jobs[j], c.pending[j]) && id in s'.mem.preflights
    ensures SavedOrAhead(c, s', id)
  {
    StepGrows(c, s, j, s');
    if s.jobs[j].Recording? && c.pending[j] == id {
      assert Ahead(c, s'.jobs[j], id, s'.mem.completed);
    } else if s'.disk.manifest != s'.mem.preflights {
      PreflightStays(c, s, j, s', id);
      if i :| 0 <= i < |s.jobs| && i < |c.pending| && c.pending[i] == id && Ahead(c, s.jobs[i], id, s.mem.completed) {
        StepKeepsAhead(c, s, j, s', i);
      }
    }
  }

  /** A step that neither records this preflight nor writes the manifest leaves both alone. */
  lemma PreflightStays(c: Config, s: State, j: nat, s': State, id: string)
    requires Step(c, s, j, s') && id in s'.mem.preflights
    requires !(s.jobs[j].Recording? && c.pending[j] == id) && s'.disk.manifest != s'.mem.preflights
    ensures id in s.mem.preflights && s'.mem.preflights[id] == s.mem.preflights[id]
    ensures s'.disk.manifest == s.disk.manifest
  {
  }

  lemma StepKeepsRecord(c: Config, s: State, j: nat, s': State)
    requires Step(c, s, j, s') && NoRepeats(c.pending) && RecordInv(c, s) && Carries(c, s.jobs[j], c.pending[j])
    ensures RecordInv(c, s')
  {
    StepGrows(c, s, j, s');
    forall id | id in s'.mem.preflights ensures SavedOrAhead(c, s', id) { StepKeepsSaved(c, s, j, s', id); }
    forall i | 0 <= i < |s'.jobs| && i < |c.pending|
      ensures Untouched(c, s'.jobs[i], c.pending[i], s'.mem.completed)
    {
      StepKeepsUntouched(c, s, j, s', i);
    }
  }

  lemma StartRecord(c: Config)
    requires WellFormed(c)
    ensures RecordInv(c, Start(c)) && NoRepeats(c.pending)
  {
    PendingNoRepeats(c.existing, c.ids, c.selected);
    forall j | 0 <= j < |c.pending| ensures OpenArm(c, c.order(c.pending[j]), c.pending[j], KeySet(c.existing)) {
      PendingOpen(c, c.pending[j]);
    }
  }

  lemma PendingOpen(c: Config, id: string)
    requires WellFormed(c) && id in c.pending
    ensures OpenArm(c, c.order(id), id, KeySet(c.existing))
  {
    PendingMembers(c.existing, c.ids, c.selected);
    var arm :| arm in c.selected && (id, arm) !in KeySet(c.existing);
    assert arm in c.order(id);
  }

  lemma {:induction false} RunKeepsRecord(c: Config, t: seq<State>, who: seq<nat>, k: nat)
    requires WellFormed(c) && Run(c, t, who) && k < |t|
    ensures RecordInv(c, t[k]) && NoRepeats(c.pending)
  {
    if k == 0 {
      RunStarts(c, t, who);
      StartRecord(c);
    } else {
      RunKeepsRecord(c, t, who, k - 1);
      RunKeepsInv(c, t, who, k - 1);
      RunSteps(c, t, who, k - 1);
      CarriesAt(c, t[k - 1], who[k - 1]);
      StepKeepsRecord(c, t[k - 1], who[k - 1], t[k]);
    }
  }

  lemma CarriesAt(c: Config, s: State, j: nat)
    requires Inv(c, s) && j < |s.jobs|
    ensures Carries(c, s.jobs[j], c.pending[j])
  {
    assert JobInv(c, s.jobs[j], c.pending[j], s.mem.completed);
  }

  /** When all jobs are done the manifest on disk holds every preflight that was recorded. */
  lemma FinishedManifest(c: Config, t: seq<State>, who: seq<nat>)
    requires WellFormed(c) && Run(c, t, who) && Finished(t[|t| - 1])
    ensures t[|t| - 1].disk.manifest == t[|t| - 1].mem.preflights
  {
    var s := t[|t| - 1];
    RunKeepsRecord(c, t, who, |t| - 1);
    forall id | id in s.mem.preflights ensures id in s.disk.manifest && s.disk.manifest[id] == s.mem.preflights[id] {
      assert SavedOrAhead(c, s, id);
    }
  }

  // ----- Which preflights are recorded

  /** In step k the clone or the preflight of job j raised. */
  predicate RaisesAt(t: seq<State>, who: seq<nat>, j: nat, k: nat)
    requires k < |who| < |t|
  {
    who[k] == j && j < |t[k].jobs| && j < |t[k + 1].jobs| && t[k].jobs[j].Preparing? && t[k + 1].jobs[j].Listing?
  }

  predicate RaisedBy(t: seq<State>, who: seq<nat>, j: nat, n: nat)
    requires n <= |who| < |t|
  {
    exists k | 0 <= k < n :: RaisesAt(t, who, j, k)
  }

  lemma RaisedNext(t: seq<State>, who: seq<nat>, j: nat, n: nat)
    requires n < |who| < |t|
    ensures RaisedBy(t, who, j, n + 1) <==> RaisedBy(t, who, j, n) || RaisesAt(t, who, j, n)
  {
  }

  lemma PreflightsGrow(c: Config, s: State, j: nat, s': State)
    requires Step(c, s, j, s')
    ensures s.mem.preflights.Keys <= s'.mem.preflights.Keys
    ensures forall id | id in s'.mem.preflights && id !in s.mem.preflights ::
              id == c.pending[j] && s.jobs[j].Recording? && s'.jobs[j].Checking?
  {
  }

  /** How a step moves a job past its preflight: by raising or by recording. */
  lemma PassesPreflight(c: Config, s: State, i: nat, s': State, j: nat)
    requires Step(c, s, i, s') && j < |s.jobs|
    ensures j < |s'.jobs| && j < |c.pending|
    ensures !Early(s.jobs[j]) ==> !Early(s'.jobs[j])
    ensures Early(s.jobs[j]) && !Early(s'.jobs[j]) ==>
            i == j && ((s.jobs[j].Preparing? && s'.jobs[j].Listing?) || c.pending[j] in s'.mem.preflights)
  {
    StepGrows(c, s, i, s');
  }

  lemma {:induction false} JobCount(c: Config, t: seq<State>, who: seq<nat>, n: nat)
    requires Run(c, t, who) && n <= |who|
    ensures |t[n].jobs| == |c.pending|
  {
    RunsAreBounded(c, t, who, n);
  }

  lemma {:induction false} EarlyNotRaised(c: Config, t: seq<State>, who: seq<nat>, n: nat, j: nat)
    requires Run(c, t, who) && n <= |who| && j < |t[n].jobs| && Early(t[n].jobs[j])
    ensures !RaisedBy(t, who, j, n)
  {
    if n == 0 {
    } else {
      JobCount(c, t, who, n - 1);
      JobCount(c, t, who, n);
      RunSteps(c, t, who, n - 1);
      PassesPreflight(c, t[n - 1], who[n - 1], t[n], j);
      EarlyNotRaised(c, t, who, n - 1, j);
      RaisedNext(t, who, j, n - 1);
    }
  }

  lemma NowRecorded(c: Config, t: seq<State>, who: seq<nat>, n: nat, j: nat)
    requires Run(c, t, who) && n < |who| && j < |t[n].jobs| == |c.pending| == |t[n + 1].jobs|
    requires Early(t[n].jobs[j]) || c.pending[j] in t[n].mem.preflights
    requires !Early(t[n + 1].jobs[j]) && !RaisesAt(t, who, j, n)
    ensures c.pending[j] in t[n + 1].mem.preflights
  {
    RunSteps(c, t, who, n);
    PassesPreflight(c, t[n], who[n], t[n + 1], j);
    PreflightsGrow(c, t[n], who[n], t[n + 1]);
  }

  /** A job that came past its preflight without raising has recorded it. */
  lemma {:induction false} LateRecorded(c: Config, t: seq<State>, who: seq<nat>, n: nat, j: nat)
    requires Run(c, t, who) && n <= |who| && j < |t[n].jobs|
    requires !Early(t[n].jobs[j]) && !RaisedBy(t, who, j, n)
    ensures j < |c.pending| && c.pending[j] in t[n].mem.preflights
  {
    if n == 0 {
      RunStarts(c, t, who);
    } else {
      JobCount(c, t, who, n - 1);
      JobCount(c, t, who, n);
      RaisedNext(t, who, j, n - 1);
      if !Early(t[n - 1].jobs[j]) { LateRecorded(c, t, who, n - 1, j); }
      NowRecorded(c, t, who, n - 1, j);
    }
  }

  /** Whatever is recorded beyond what the run started from is the preflight of a job that did not
      raise. */
  lemma {:induction false} RecordedBy(c: Config, t: seq<State>, who: seq<nat>, n: nat, id: string) returns (j: nat)
    requires Run(c, t, who) && n <= |who| && id in t[n].mem.preflights && id !in c.preflights
    ensures j < |c.pending| && j < |t[n].jobs| && c.pending[j] == id
    ensures !Early(t[n].jobs[j]) && !RaisedBy(t, who, j, n)
  {
    if n == 0 {
      RunStarts(c, t, who);
      assert false;
    } else {
      JobCount(c, t, who, n - 1);
      RunSteps(c, t, who, n - 1);
      PreflightsGrow(c, t[n - 1], who[n - 1], t[n]);
      if id in t[n - 1].mem.preflights {
        j := RecordedBy(c, t, who, n - 1, id);
      } else {
        j := who[n - 1];
        EarlyNotRaised(c, t, who, n - 1, j);
      }
      PassesPreflight(c, t[n - 1], who[n - 1], t[n], j);
      RaisedNext(t, who, j, n - 1);
    }
  }

  lemma {:induction false} PreflightsKept(c: Config, t: seq<State>, who: seq<nat>, n: nat)
    requires Run(c, t, who) && n <= |who|
    ensures c.preflights.Keys <= t[n].mem.preflights.Keys
  {
    if n == 0 {
      RunStarts(c, t, who);
    } else {
      PreflightsKept(c, t, who, n - 1);
      RunSteps(c, t, who, n - 1);
      PreflightsGrow(c, t[n - 1], who[n - 1], t[n]);
    }
  }

  /** The task's preflight was in the manifest the run started from, or neither its clone nor its
      preflight raised in the run. */
  ghost predicate Prepared(c: Config, t: seq<State>, who: seq<nat>, id: string)
    requires |who| < |t|
  {
    id in c.preflights || exists j | 0 <= j < |c.pending| :: c.pending[j] == id && !RaisedBy(t, who, j, |who|)
  }

  /** A finished run leaves exactly the preflights of the prepared tasks. */
  lemma FinishedPreflights(c: Config, t: seq<State>, who: seq<nat>, id: string)
    requires WellFormed(c) && Run(c, t, who) && Finished(t[|t| - 1])
    ensures id in t[|t| - 1].disk.manifest <==> Prepared(c, t, who, id)
  {
    FinishedManifest(c, t, who);
    PreflightsKept(c, t, who, |who|);
    JobCount(c, t, who, |who|);
    if j :| 0 <= j < |c.pending| && c.pending[j] == id && !RaisedBy(t, who, j, |who|) {
      LateRecorded(c, t, who, |who|, j);
    }
    if id in t[|who|].mem.preflights && id !in c.preflights {
      var j := RecordedBy(c, t, who, |who|, id);
    }
  }

  // ----- Runs in which preparations raise

  lemma RunExtends(c: Config, t: seq<State>, who: seq<nat>, j: nat, s': State)
    requires Run(c, t, who) && Step(c, t[|who|], j, s')
    ensures Run(c, t + [s'], who + [j])
  {
    assert (t + [s'])[..|who| + 1] == t && (who + [j])[..|who|] == who;
  }

  ghost predicate NothingRecorded(c: Config, s: State) {
    s.mem.preflights == c.preflights && forall j | 0 <= j < |s.jobs| :: !s.jobs[j].Recording? && !s.jobs[j].Checking?
  }

  lemma StepRecordsNothing(c: Config, s: State, j: nat, s': State)
    requires Step(c, s, j, s') && NothingRecorded(c, s) && (s.jobs[j].Preparing? ==> s'.jobs[j].Listing?)
    ensures NothingRecorded(c, s')
  {
    StepGrows(c, s, j, s');
  }

  lemma {:induction false} RaiseOn(c: Config, t: seq<State>, who: seq<nat>) returns (t': seq<State>, who': seq<nat>)
    requires Runnable(c) && Run(c, t, who) && NothingRecorded(c, t[|who|]) && |t[|who|].jobs| == |c.pending|
    ensures Run(c, t', who') && Finished(t'[|who'|]) && NothingRecorded(c, t'[|who'|])
    decreases TotalRank(c, t[|who|].jobs)
  {
    var s := t[|who|];
    if Finished(s) {
      t', who' := t, who;
    } else {
      RunKeepsInv(c, t, who, |who|);
      var j, s' := Progress(c, s, true);
      RunExtends(c, t, who, j, s');
      StepRecordsNothing(c, s, j, s');
      StepLowersRank(c, s, j, s');
      t', who' := RaiseOn(c, t + [s'], who + [j]);
    }
  }

  /** Every benchmark has a run that finishes, with a row for every pending task and selected arm, and
      records no preflight at all. */
  lemma RaisingRun(c: Config) returns (t: seq<State>, who: seq<nat>)
    requires WellFormed(c)
    ensures Run(c, t, who) && Finished(t[|t| - 1]) && t[|t| - 1].disk.manifest == c.preflights
    ensures forall id, arm | id in c.pending && arm in c.selected :: (id, arm) in KeySet(t[|t| - 1].disk.rows)
  {
    t, who := RaiseOn(c, [Start(c)], []);
    FinishedManifest(c, t, who);
    FinishedRun(c, t, who);
    KeySetOf(t[|t| - 1].disk.rows, t[|t| - 1].mem.rows);
  }

  // ----- Runs that are interrupted and resumed

  /** Every row comes with the preflight of its task. */
  ghost predicate Backed(rows: seq<Row>, preflights: map<string, string>) {
    forall row | row in rows :: row.taskId in preflights
  }

  /** Interrupted here, the rows of a checkpoint are on disk and its manifest is not. */
  predicate Torn(s: State) {
    Inside(s).Some? && Inside(s).value.Sealing?
  }

  ghost predicate NobodyRaised(t: seq<State>, who: seq<nat>, n: nat)
    requires n <= |who| < |t|
  {
    forall j: nat, k | 0 <= k < n :: !RaisesAt(t, who, j, k)
  }

  lemma StepBacked(c: Config, s: State, j: nat, s': State)
    requires Step(c, s, j, s') && Carries(c, s.jobs[j], c.pending[j]) && Backed(s.mem.rows, s.mem.preflights)
    requires !Early(s.jobs[j]) ==> c.pending[j] in s.mem.preflights
    ensures Backed(s'.mem.rows, s'.mem.preflights)
  {
    PreflightsGrow(c, s, j, s');
    if s'.mem.rows != s.mem.rows {
      assert s'.mem.rows == s.mem.rows + [s.jobs[j].batch[0]];
      assert OwnRow(c, s.jobs[j].batch[0], c.pending[j]);
    }
  }

  lemma LateBacked(c: Config, t: seq<State>, who: seq<nat>, n: nat, j: nat)
    requires Run(c, t, who) && n <= |who| && NobodyRaised(t, who, n) && j < |t[n].jobs|
    ensures !Early(t[n].jobs[j]) ==> j < |c.pending| && c.pending[j] in t[n].mem.preflights
  {
    if !Early(t[n].jobs[j]) { LateRecorded(c, t, who, n, j); }
  }

  /** While nothing raises, every row in memory comes with its preflight. */
  lemma {:induction false} RunBacked(c: Config, t: seq<State>, who: seq<nat>, n: nat)
    requires Runnable(c) && Run(c, t, who) && n <= |who|
    requires Backed(c.existing, c.preflights) && NobodyRaised(t, who, n)
    ensures Backed(t[n].mem.rows, t[n].mem.preflights)
  {
    if n == 0 {
      RunStarts(c, t, who);
    } else {
      var j := who[n - 1];
      RunBacked(c, t, who, n - 1);
      RunSteps(c, t, who, n - 1);
      RunKeepsInv(c, t, who, n - 1);
      CarriesAt(c, t[n - 1], j);
      LateBacked(c, t, who, n - 1, j);
      StepBacked(c, t[n - 1], j, t[n]);
    }
  }

  lemma WritesBacked(c: Config, m: Memory, d: Disk, job: Job, m': Memory, d': Disk, job': Job)
    requires Writes(c, m, d, job, m', d', job') && DiskInv(c, m, d, Some(job)) && Backed(m.rows, m.preflights)
    requires !job.Sealing? ==> Backed(d.rows, d.manifest)
    ensures !job'.Sealing? ==> Backed(d'.rows, d'.manifest)
  {
    if job.Sealing? {
      SameRows(c.ids, m.rows);
    } else if !job.Saving? {
      assert d' == d;
    }
  }

  lemma StepBackedDisk(c: Config, s: State, j: nat, s': State)
    requires Step(c, s, j, s') && LockInv(s) && DiskInv(c, s.mem, s.disk, Inside(s))
    requires Backed(s.mem.rows, s.mem.preflights) && (!Torn(s) ==> Backed(s.disk.rows, s.disk.manifest))
    ensures !Torn(s') ==> Backed(s'.disk.rows, s'.disk.manifest)
  {
    assert InLock(s.jobs[j]) <==> s.holder == Some(j);
    if InLock(s.jobs[j]) {
      WritesBacked(c, s.mem, s.disk, s.jobs[j], s'.mem, s'.disk, s'.jobs[j]);
      assert !Torn(s') ==> !s'.jobs[j].Sealing?;
    } else {
      OthersLeaveShared(c, s, j, s');
      StepGrows(c, s, j, s');
      assert Torn(s) ==> Torn(s');
    }
  }

  lemma SameRows(ids: seq<string>, rows: seq<Row>)
    ensures forall row | row in Ordered(ids, rows) :: row in rows
  {
    SameElements(Ordered(ids, rows), rows);
  }

  /** And so does every row on disk, except between the two files of a checkpoint. */
  lemma {:induction false} RunBackedDisk(c: Config, t: seq<State>, who: seq<nat>, n: nat)
    requires Runnable(c) && Run(c, t, who) && n <= |who|
    requires Backed(c.existing, c.preflights) && NobodyRaised(t, who, n)
    ensures !Torn(t[n]) ==> Backed(t[n].disk.rows, t[n].disk.manifest)
  {
    if n == 0 {
      RunStarts(c, t, who);
      SameRows(c.ids, c.existing);
    } else {
      RunBackedDisk(c, t, who, n - 1);
      RunBacked(c, t, who, n - 1);
      RunSteps(c, t, who, n - 1);
      RunKeepsInv(c, t, who, n - 1);
      RunKeepsDisk(c, t, who, n - 1);
      StepBackedDisk(c, t[n - 1], who[n - 1], t[n]);
    }
  }

  /** One call of the program, up to the state it was interrupted in or finished. */
  datatype Session = Session(config: Config, states: seq<State>, who: seq<nat>)

  /** Calls of the program that start from nothing and resume one another. */
  ghost predicate History(h: seq<Session>)
    decreases |h|
  {
    && h != []
    && var x := h[|h| - 1];
       && Run(x.config, x.states, x.who)
       && if |h| == 1 then WellFormed(x.config) && x.config.existing == [] && x.config.preflights == map[]
          else
            var y := h[|h| - 2];
            History(h[..|h| - 1]) && Resumes(x.config, y.config, y.states[|y.who|])
  }

  /** No preparation raised, and the interruption did not tear a checkpoint. */
  ghost predicate Clean(x: Session)
    requires |x.who| < |x.states|
  {
    NobodyRaised(x.states, x.who, |x.who|) && !Torn(x.states[|x.who|])
  }

  /** However often a benchmark is interrupted and resumed, its configuration is well formed, and as
      long as all earlier calls were clean its rows come with their preflights. */
  lemma {:induction false} HistoryBacked(h: seq<Session>)
    requires History(h)
    requires forall k | 0 <= k < |h| - 1 :: |h[k].who| < |h[k].states| && Clean(h[k])
    ensures WellFormed(h[|h| - 1].config) && Backed(h[|h| - 1].config.existing, h[|h| - 1].config.preflights)
    decreases |h|
  {
    if |h| == 1 {
    } else {
      var x, y := h[|h| - 1], h[|h| - 2];
      assert h[..|h| - 1][|h| - 2] == y;
      HistoryBacked(h[..|h| - 1]);
      InterruptedRunResumes(y.config, y.states, y.who, |y.who|, x.config);
      RunBackedDisk(y.config, y.states, y.who, |y.who|);
    }
  }

  lemma BackedFinish(c: Config, t: seq<State>, who: seq<nat>, id: string)
    requires WellFormed(c) && Backed(c.existing, c.preflights) && c.selected != []
    requires Run(c, t, who) && NobodyRaised(t, who, |who|) && id in c.ids
    ensures Prepared(c, t, who, id)
  {
    PendingMembers(c.existing, c.ids, c.selected);
    if id in c.pending {
      var j :| 0 <= j < |c.pending| && c.pending[j] == id;
      assert !RaisedBy(t, who, j, |who|);
    } else {
      assert (id, c.selected[0]) in KeySet(c.existing);
      var row :| row in c.existing && KeyOf(row) == (id, c.selected[0]);
    }
  }

  /** If nothing raised and no interruption tore a checkpoint, the call that finishes leaves the
      preflight of every task. */
  lemma CleanHistoryPrepares(h: seq<Session>, id: string)
    requires History(h)
    requires forall k | 0 <= k < |h| :: |h[k].who| < |h[k].states| && Clean(h[k])
    requires var x := h[|h| - 1];
             Finished(x.states[|x.who|]) && x.config.selected != [] && id in x.config.ids
    ensures id in h[|h| - 1].states[|h[|h| - 1].who|].disk.manifest
  {
    HistoryBacked(h);
    var x := h[|h| - 1];
    BackedFinish(x.config, x.states, x.who, id);
    FinishedPreflights(x.config, x.states, x.who, id);
  }

  // ----- A torn checkpoint

  predicate SomeArm(c: Config, id: string, completed: set<Key>) {
    exists arm | arm in c.selected :: (id, arm) in completed
  }

  /** A job saves after it has added a row, or when it found one. */
  predicate Full(c: Config, job: Job, id: string, completed: set<Key>) {
    && (job.Waiting? || job.Adding? || job.Marking? ==> job.batch != [] || SomeArm(c, id, completed))
    && (job.Saving? || job.Sealing? ==> SomeArm(c, id, completed))
  }

  lemma MovesKeepFull(c: Config, id: string, completed: set<Key>, room: bool, job: Job, job': Job)
    requires Moves(c, id, completed, room, job, job') && c.selected != [] && JobInv(c, job, id, completed)
    ensures Full(c, job', id, completed)
  {
    if job.Listing? && job.arms == [] && job.failures == [] {
      assert Owed(job, id, c.selected[0], completed);
    }
  }

  lemma WritesKeepFull(c: Config, m: Memory, d: Disk, job: Job, m': Memory, d': Disk, job': Job, id: string)
    requires Writes(c, m, d, job, m', d', job') && Full(c, job, id, m.completed) && Carries(c, job, id)
    ensures Full(c, job', id, m'.completed)
  {
    if (job.Adding? || job.Marking?) && job.batch != [] {
      assert OwnRow(c, job.batch[0], id);
      if job.Marking? || KeyOf(job.batch[0]) in m.completed {
        assert (id, job.batch[0].arm) in m'.completed;
      }
    }
  }

  lemma StepKeepsFull(c: Config, s: State, j: nat, s': State, i: nat)
    requires Step(c, s, j, s') && c.selected != [] && i < |s.jobs|
    requires JobInv(c, s.jobs[j], c.pending[j], s.mem.completed)
    requires Full(c, s.jobs[i], c.pending[i], s.mem.completed)
    ensures i < |s'.jobs| && Full(c, s'.jobs[i], c.pending[i], s'.mem.completed)
  {
    StepGrows(c, s, j, s');
    var id, job, job' := c.pending[j], s.jobs[j], s'.jobs[j];
    if i != j {
      if SomeArm(c, c.pending[i], s.mem.completed) {
        var arm :| arm in c.selected && (c.pending[i], arm) in s.mem.completed;
        assert (c.pending[i], arm) in s'.mem.completed;
      }
    } else if InLock(job) {
      WritesKeepFull(c, s.mem, s.disk, job, s'.mem, s'.disk, job', id);
    } else if !job.Recording? && !job.Waiting? {
      MovesKeepFull(c, id, s.mem.completed, ActiveCount(s.jobs) < c.workers, job, job');
    }
  }

  lemma {:induction false} RunKeepsFull(c: Config, t: seq<State>, who: seq<nat>, n: nat, i: nat)
    requires Runnable(c) && Run(c, t, who) && n <= |who| && c.selected != [] && i < |c.pending|
    ensures |t[n].jobs| == |c.pending| && Full(c, t[n].jobs[i], c.pending[i], t[n].mem.completed)
  {
    if n == 0 {
      RunStarts(c, t, who);
    } else {
      RunKeepsFull(c, t, who, n - 1, i);
      RunKeepsInv(c, t, who, n - 1);
      RunSteps(c, t, who, n - 1);
      assert JobInv(c, t[n - 1].jobs[who[n - 1]], c.pending[who[n - 1]], t[n - 1].mem.completed);
      StepKeepsFull(c, t[n - 1], who[n - 1], t[n], i);
    }
  }

  lemma ManifestStays(c: Config, s: State, j: nat, s': State)
    requires Step(c, s, j, s') && LockInv(s) && !Torn(s)
    ensures s'.disk.manifest == s.disk.manifest
  {
    assert InLock(s.jobs[j]) <==> s.holder == Some(j);
  }

  lemma {:induction false} TearOn(c: Config, t: seq<State>, who: seq<nat>) returns (t': seq<State>, who': seq<nat>)
    requires WellFormed(c) && Run(c, t, who) && |t[|who|].jobs| == |c.pending| > 0
    requires c.pending[0] !in c.preflights && t[|who|].disk.manifest == c.preflights && NobodyRaised(t, who, |who|)
    ensures Run(c, t', who') && NobodyRaised(t', who', |who'|)
    ensures Torn(t'[|who'|]) && t'[|who'|].disk.manifest == c.preflights
    decreases TotalRank(c, t[|who|].jobs)
  {
    var s := t[|who|];
    if Torn(s) {
      t', who' := t, who;
    } else {
      if Finished(s) { FinishedIsNotBare(c, t, who); }
      RunKeepsInv(c, t, who, |who|);
      var j, s' := Progress(c, s, false);
      RunExtends(c, t, who, j, s');
      ManifestStays(c, s, j, s');
      StepLowersRank(c, s, j, s');
      forall i: nat, k | 0 <= k < |who| + 1 ensures !RaisesAt(t + [s'], who + [j], i, k) {
        if k < |who| { assert !RaisesAt(t, who, i, k); }
      }
      t', who' := TearOn(c, t + [s'], who + [j]);
    }
  }

  lemma FinishedIsNotBare(c: Config, t: seq<State>, who: seq<nat>)
    requires WellFormed(c) && Run(c, t, who) && |t[|who|].jobs| == |c.pending| > 0
    requires Finished(t[|who|]) && NobodyRaised(t, who, |who|)
    ensures c.pending[0] in t[|who|].disk.manifest
  {
    FinishedManifest(c, t, who);
    LateRecorded(c, t, who, |who|, 0);
  }

  /** Every benchmark with a pending task has a run in which nothing raises and which, interrupted
      between the two files of a checkpoint, leaves a row whose preflight is lost. */
  lemma TornRun(c: Config) returns (t: seq<State>, who: seq<nat>, j: nat, arm: string)
    requires WellFormed(c) && c.pending != [] && forall id | id in c.pending :: id !in c.preflights
    ensures Run(c, t, who) && NobodyRaised(t, who, |who|) && j < |c.pending| && arm in c.selected
    ensures (c.pending[j], arm) in KeySet(t[|who|].disk.rows) && c.pending[j] !in t[|who|].disk.manifest
  {
    PendingOpen(c, c.pending[0]);
    t, who := TearOn(c, [Start(c)], []);
    var s := t[|who|];
    RunKeepsInv(c, t, who, |who|);
    RunKeepsDisk(c, t, who, |who|);
    j := s.holder.value;
    RunKeepsFull(c, t, who, |who|, j);
    arm :| arm in c.selected && (c.pending[j], arm) in s.mem.completed;
    KeySetOf(s.disk.rows, s.mem.rows);
  }

  /** Where one arm is selected, the task is not pending when the benchmark is resumed, and no
      continuation records its preflight. */
  lemma TornForGood(c: Config, s: State, c': Config, t: seq<State>, who: seq<nat>, id: string, arm: string)
    requires Resumes(c', c, s) && c'.selected == [arm] && Run(c', t, who)
    requires (id, arm) in KeySet(s.disk.rows) && id !in s.disk.manifest
    ensures !Prepared(c', t, who, id)
  {
    PendingMembers(c'.existing, c'.ids, c'.selected);
    forall j | 0 <= j < |c'.pending| ensures c'.pending[j] != id { assert c'.pending[j] in c'.pending; }
  }
}
