/**
 * The persistent job table shared by several processes (src/loopmaster/mcp/job_ops.py) and the
 * detached worker that finishes a job (src/loopmaster/mcp/worker.py).
 *
 * A lock orders the calls of one process only. Across processes a single SQL statement is atomic,
 * so `update_job`, `record_step_result`, `cancel_job` and the startup sweep are each a read and a
 * later write, and the steps of all processes interleave freely.
 */
module Jobs {
  import opened Values

  datatype Status =
    | Ready | Running | InProgress | WaitingInput | Errored
    | Completed | Failed | Cancelled | Interrupted

  predicate Terminal(s: Status) {
    s == Completed || s == Failed || s == Cancelled || s == Interrupted
  }

  /** Settled for good: an interrupted job can still be cancelled. */
  predicate Settled(s: Status) {
    s == Completed || s == Failed || s == Cancelled
  }

  datatype StepRecord = StepRecord(success: bool, output: Value, error: Option<string>)

  datatype Job = Job(
    status: Status, currentStep: nat, totalSteps: int, results: map<string, StepRecord>,
    error: Option<string>, completed: bool, hostPid: Option<int>, updatedAt: int)

  // ---------- What the calls compute from the row they read ----------

  /** The arguments of `update_job`; None leaves the field alone. */
  datatype Update = Update(
    status: Option<Status>, currentStep: Option<nat>, results: Option<map<string, StepRecord>>,
    error: Option<string>, hostPid: Option<Option<int>>, completed: bool)

  function Or<T>(o: Option<T>, otherwise: T): T {
    if o.Some? then o.value else otherwise
  }

  function Updated(j: Job, u: Update, now: int): Job {
    var status := Or(u.status, j.status);
    Job(if u.completed && (u.status.None? || u.status == Some(Completed)) then Completed else status,
        Or(u.currentStep, j.currentStep), j.totalSteps, Or(u.results, j.results),
        if u.error.Some? then u.error else j.error,
        j.completed || u.completed, Or(u.hostPid, j.hostPid), now)
  }

  /** A terminal row is left alone, except that a completed one may be completed again. */
  predicate MayUpdate(j: Job, u: Update) {
    !Terminal(j.status) || (j.status == Completed && u.status == Some(Completed))
  }

  predicate AnyFailed(results: map<string, StepRecord>) {
    exists k :: k in results && !results[k].success
  }

  function Recorded(j: Job, name: string, r: StepRecord, autoComplete: bool, now: int): Job {
    var results := j.results[name := r];
    var full := autoComplete && j.totalSteps > 0 && |results| >= j.totalSteps;
    var error := if r.error.Some? && r.error.value != "" then r.error else j.error;
    var k := j.(results := results, currentStep := |results|, updatedAt := now);
    if AnyFailed(results) then k.(status := if full then Errored else InProgress, error := error)
    else if full then k.(status := Completed, completed := true)
    else k.(status := InProgress)
  }

  // ---------- The table and its processes ----------

  /** A write decided on by a process that has read the table and not written yet. */
  datatype Pending =
    | WriteUpdate(id: string, job: Job)
    | WriteRecord(id: string, job: Job)
    | WriteCancel(id: string, now: int)
    | MarkInterrupted(ids: set<string>)

  datatype System = System(jobs: map<string, Job>, pending: map<nat, Pending>)

  datatype Action =
    | Create(id: string, status: Status, totalSteps: int, hostPid: Option<int>, now: int)
    | ReadUpdate(process: nat, id: string, update: Update, now: int)
    | ReadRecord(process: nat, id: string, name: string, record: StepRecord, autoComplete: bool, now: int)
    | ReadCancel(process: nat, id: string, now: int)
    | Write(process: nat)
    | Touch(id: string, now: int)
    | Delete(id: string)
    | SweepSelect(process: nat, alive: set<int>)
    | SweepMark(process: nat, id: string, now: int)

  function NewJob(a: Action): Job
    requires a.Create?
  {
    Job(a.status, 0, a.totalSteps, map[], None, false, a.hostPid, a.now)
  }

  /** An active row whose host is not alive; a ready row needs a recorded host. */
  predicate Orphan(j: Job, alive: set<int>) {
    match j.status
    case Ready => j.hostPid.Some? && j.hostPid.value !in alive
    case Running => j.hostPid.None? || j.hostPid.value !in alive
    case InProgress => j.hostPid.None? || j.hostPid.value !in alive
    case WaitingInput => j.hostPid.None? || j.hostPid.value !in alive
    case _ => false
  }

  /** The guarded UPDATE statements. */
  function WriteJobs(jobs: map<string, Job>, p: Pending): map<string, Job> {
    match p
    case WriteUpdate(id, job) =>
      if id in jobs && (!Terminal(jobs[id].status) || (jobs[id].status == Completed && job.status == Completed))
      then jobs[id := job] else jobs
    case WriteRecord(id, job) =>
      if id in jobs && !Terminal(jobs[id].status)
      then jobs[id := jobs[id].(status := job.status, currentStep := job.currentStep, results := job.results,
                                error := job.error, completed := job.completed, updatedAt := job.updatedAt)]
      else jobs
    case WriteCancel(id, now) =>
      if id in jobs && !Settled(jobs[id].status)
      then jobs[id := jobs[id].(status := Cancelled, updatedAt := now)] else jobs
    case MarkInterrupted(_) => jobs
  }

  function Pend(s: System, process: nat, p: Pending): System {
    s.(pending := s.pending[process := p])
  }

  function Next(s: System, a: Action): System {
    match a
    case Create(id, _, _, _, _) =>
      if id in s.jobs && !Terminal(s.jobs[id].status) then s else s.(jobs := s.jobs[id := NewJob(a)])
    case ReadUpdate(process, id, u, now) =>
      if id in s.jobs && MayUpdate(s.jobs[id], u)
      then Pend(s, process, WriteUpdate(id, Updated(s.jobs[id], u, now))) else s
    case ReadRecord(process, id, name, r, auto, now) =>
      if id in s.jobs && !Terminal(s.jobs[id].status)
      then Pend(s, process, WriteRecord(id, Recorded(s.jobs[id], name, r, auto, now))) else s
    case ReadCancel(process, id, now) =>
      if id in s.jobs && !Settled(s.jobs[id].status) then Pend(s, process, WriteCancel(id, now)) else s
    case Write(process) =>
      if process in s.pending && !s.pending[process].MarkInterrupted?
      then System(WriteJobs(s.jobs, s.pending[process]), s.pending - {process}) else s
    case Touch(id, now) =>
      if id in s.jobs && (s.jobs[id].status == Ready || s.jobs[id].status == Running || s.jobs[id].status == InProgress)
      then s.(jobs := s.jobs[id := s.jobs[id].(updatedAt := now)]) else s
    case Delete(id) => s.(jobs := s.jobs - {id})
    case SweepSelect(process, alive) =>
      Pend(s, process, MarkInterrupted(set id | id in s.jobs && Orphan(s.jobs[id], alive)))
    case SweepMark(process, id, now) =>
      if Marks(s, process, id)
      then s.(jobs := s.jobs[id := s.jobs[id].(status := Interrupted, updatedAt := now)]) else s
  }

  /** The sweep of this process still has the row on its list; its UPDATE does not look at the status. */
  predicate Marks(s: System, process: nat, id: string) {
    process in s.pending && s.pending[process].MarkInterrupted? && id in s.pending[process].ids && id in s.jobs
  }

  function Run(s: System, actions: seq<Action>): System
    decreases |actions|
  {
    if actions == [] then s else Run(Next(s, actions[0]), actions[1..])
  }

  // ---------- What each call does to a row ----------

  /** A given argument reaches the row, an absent one leaves it alone; completing sets the status it implies. */
  lemma UpdateByField(j: Job, u: Update, now: int)
    ensures var k := Updated(j, u, now);
            && (u.currentStep.Some? ==> k.currentStep == u.currentStep.value)
            && (u.currentStep.None? ==> k.currentStep == j.currentStep)
            && (u.results.Some? ==> k.results == u.results.value) && (u.results.None? ==> k.results == j.results)
            && (u.error.Some? ==> k.error == u.error) && (u.error.None? ==> k.error == j.error)
            && (u.hostPid.Some? ==> k.hostPid == u.hostPid.value) && (u.hostPid.None? ==> k.hostPid == j.hostPid)
            && (u.completed ==> k.completed) && (!u.completed ==> k.completed == j.completed)
            && k.totalSteps == j.totalSteps && k.updatedAt == now
    ensures u.status.Some? ==> Updated(j, u, now).status == u.status.value
    ensures u.status.None? && u.completed ==> Updated(j, u, now).status == Completed
    ensures u.status.None? && !u.completed ==> Updated(j, u, now).status == j.status
  {}

  /** Which rows an update may change: those not terminal, and a completed one by completing it again. */
  lemma UpdateAllowed(j: Job, u: Update)
    ensures j.status in {Ready, Running, InProgress, WaitingInput, Errored} ==> MayUpdate(j, u)
    ensures j.status in {Failed, Cancelled, Interrupted} ==> !MayUpdate(j, u)
    ensures j.status == Completed ==> (MayUpdate(j, u) <==> u.status == Some(Completed))
  {}

  /** Recording a step: its result, the number of results, and the status they call for. */
  lemma RecordByField(j: Job, name: string, r: StepRecord, autoComplete: bool, now: int)
    ensures var k := Recorded(j, name, r, autoComplete, now);
            && name in k.results && k.results[name] == r && k.currentStep == |k.results| && k.updatedAt == now
            && (forall n :: n != name ==> (n in k.results <==> n in j.results))
            && (forall n :: n != name && n in j.results ==> k.results[n] == j.results[n])
            && k.totalSteps == j.totalSteps && k.hostPid == j.hostPid
    ensures var k := Recorded(j, name, r, autoComplete, now);
            var all := autoComplete && 0 < j.totalSteps <= |k.results|;
            var failed := exists n :: n in k.results && !k.results[n].success;
            && (failed && all ==> k.status == Errored) && (!failed && all ==> k.status == Completed && k.completed)
            && (!all ==> k.status == InProgress) && (failed || !all ==> k.completed == j.completed)
            && (failed && r.error.Some? && r.error.value != "" ==> k.error == r.error)
            && (!failed || r.error.None? || r.error.value == "" ==> k.error == j.error)
  {}

  /** What one step of the table's own does to the row of `id`, status by status. */
  lemma TouchedOrReset(s: System, id: string, now: int, status: Status, totalSteps: int, hostPid: Option<int>)
    requires id in s.jobs
    ensures var t := Next(s, Touch(id, now)).jobs;
            && id in t
            && (s.jobs[id].status in {Ready, Running, InProgress} ==> t[id] == s.jobs[id].(updatedAt := now))
            && (s.jobs[id].status !in {Ready, Running, InProgress} ==> t[id] == s.jobs[id])
    ensures var t := Next(s, Create(id, status, totalSteps, hostPid, now)).jobs;
            && id in t
            && (s.jobs[id].status in {Completed, Failed, Cancelled, Interrupted} ==>
                  t[id] == Job(status, 0, totalSteps, map[], None, false, hostPid, now))
            && (s.jobs[id].status in {Ready, Running, InProgress, WaitingInput, Errored} ==> t[id] == s.jobs[id])
    ensures id !in Next(s, Delete(id)).jobs
  {}

  lemma OthersStay(s: System, a: Action, id: string)
    requires a.Create? || a.Touch? || a.Delete? || a.SweepMark?
    requires id != a.id
    ensures id in Next(s, a).jobs <==> id in s.jobs
    ensures id in s.jobs ==> Next(s, a).jobs[id] == s.jobs[id]
  {}

  /** Reads decide on a write, which lands if its guard still holds; cancelling sets the status and the time only. */
  lemma CancelLands(s: System, process: nat, id: string, now: int, t: System)
    requires id in s.jobs && id in t.jobs
    requires process in t.pending && t.pending[process] == WriteCancel(id, now)
    ensures s.jobs[id].status in {Ready, Running, InProgress, WaitingInput, Errored, Interrupted} ==>
              Next(s, ReadCancel(process, id, now)) == s.(pending := s.pending[process := WriteCancel(id, now)])
    ensures s.jobs[id].status in {Completed, Failed, Cancelled} ==> Next(s, ReadCancel(process, id, now)) == s
    ensures var u := Next(t, Write(process));
            && process !in u.pending && id in u.jobs
            && (t.jobs[id].status in {Completed, Failed, Cancelled} ==> u.jobs[id] == t.jobs[id])
            && (t.jobs[id].status in {Ready, Running, InProgress, WaitingInput, Errored, Interrupted} ==>
                  u.jobs[id] == t.jobs[id].(status := Cancelled, updatedAt := now))
  {}

  /** A record or update decided on earlier lands on a row that is not terminal, and otherwise changes nothing. */
  lemma DecidedLands(t: System, process: nat, id: string, job: Job)
    requires id in t.jobs && process in t.pending
    ensures t.pending[process] == WriteUpdate(id, job)
              && t.jobs[id].status !in {Completed, Failed, Cancelled, Interrupted} ==>
              Next(t, Write(process)).jobs == t.jobs[id := job]
    ensures t.pending[process] == WriteUpdate(id, job) && t.jobs[id].status in {Failed, Cancelled, Interrupted} ==>
              Next(t, Write(process)).jobs == t.jobs
    ensures t.pending[process] == WriteUpdate(id, job) && t.jobs[id].status == Completed ==>
              Next(t, Write(process)).jobs == if job.status == Completed then t.jobs[id := job] else t.jobs
    ensures t.pending[process] == WriteRecord(id, job)
              && t.jobs[id].status in {Completed, Failed, Cancelled, Interrupted} ==>
              Next(t, Write(process)).jobs == t.jobs
    ensures t.pending[process] == WriteRecord(id, job)
              && t.jobs[id].status !in {Completed, Failed, Cancelled, Interrupted} ==>
              var k := Next(t, Write(process)).jobs;
              && k.Keys == t.jobs.Keys && (forall n :: n in k && n != id ==> k[n] == t.jobs[n])
              && k[id].results == job.results && k[id].status == job.status && k[id].currentStep == job.currentStep
              && k[id].error == job.error && k[id].completed == job.completed && k[id].updatedAt == job.updatedAt
              && k[id].hostPid == t.jobs[id].hostPid && k[id].totalSteps == t.jobs[id].totalSteps
  {}

  /** What the sweep puts on its list, status by status. */
  lemma SweepSelects(s: System, process: nat, alive: set<int>, id: string)
    requires id in s.jobs
    ensures var t, j := Next(s, SweepSelect(process, alive)), s.jobs[id];
            && t.jobs == s.jobs && process in t.pending && t.pending[process].MarkInterrupted?
            && (j.hostPid.Some? && j.hostPid.value in alive ==> id !in t.pending[process].ids)
            && (j.status in {Running, InProgress, WaitingInput} && (j.hostPid.Some? ==> j.hostPid.value !in alive) ==>
                  id in t.pending[process].ids)
            && (j.status == Ready ==>
                  (id in t.pending[process].ids <==> j.hostPid.Some? && j.hostPid.value !in alive))
            && (j.status in {Errored, Completed, Failed, Cancelled, Interrupted} ==> id !in t.pending[process].ids)
  {}

  // ---------- Terminal statuses absorb ----------

  /** A status may move on, unless terminal; an interrupted job may only be cancelled. */
  predicate Keeps(before: Status, after: Status) {
    Terminal(before) ==> after == before || (before == Interrupted && after == Cancelled)
  }

  /** The action replaces or removes the row. */
  predicate Recreates(a: Action, id: string) {
    (a.Create? || a.Delete?) && a.id == id
  }

  /** The unguarded UPDATE of a sweep lands on a row that was settled after the sweep selected it. */
  predicate Clobbers(s: System, a: Action, id: string) {
    a.SweepMark? && a.id == id && Marks(s, a.process, id) && Settled(s.jobs[id].status)
  }

  /** One step keeps a terminal status if and only if it is not a sweep catching a settled row. */
  lemma StepKeepsExactly(s: System, a: Action, id: string)
    requires id in s.jobs && !Recreates(a, id)
    ensures id in Next(s, a).jobs
    ensures Keeps(s.jobs[id].status, Next(s, a).jobs[id].status) <==> !Clobbers(s, a, id)
  {}

  /** Only a terminal row is reset by `create_job`; any other row keeps its status and results. */
  lemma CreateResetsTerminalOnly(s: System, a: Action, id: string)
    requires a.Create?
    ensures id in s.jobs && (id != a.id || !Terminal(s.jobs[id].status)) ==>
              id in Next(s, a).jobs && Next(s, a).jobs[id] == s.jobs[id]
    ensures a.id in Next(s, a).jobs
    ensures (a.id in s.jobs ==> Terminal(s.jobs[a.id].status)) ==> Next(s, a).jobs[a.id].results == map[]
  {}

  /** No step of the run replaces the row or clobbers it. */
  predicate Undisturbed(s: System, actions: seq<Action>, id: string)
    decreases |actions|
  {
    actions != [] ==>
      !Recreates(actions[0], id) && !Clobbers(s, actions[0], id) && Undisturbed(Next(s, actions[0]), actions[1..], id)
  }

  /** Along any interleaving of any number of processes a terminal status stays. */
  lemma {:induction false} TerminalAbsorbs(s: System, actions: seq<Action>, id: string)
    requires id in s.jobs && Undisturbed(s, actions, id)
    ensures id in Run(s, actions).jobs && Keeps(s.jobs[id].status, Run(s, actions).jobs[id].status)
    decreases |actions|
  {
    if actions != [] {
      StepKeepsExactly(s, actions[0], id);
      TerminalAbsorbs(Next(s, actions[0]), actions[1..], id);
    }
  }

  /** A sweep whose marks follow its select at once. */
  function SweepAtOnce(process: nat, alive: set<int>, ids: seq<string>, now: int): seq<Action> {
    [SweepSelect(process, alive)] + Marking(process, ids, now)
  }

  function Marking(process: nat, ids: seq<string>, now: int): seq<Action> {
    if ids == [] then [] else [SweepMark(process, ids[0], now)] + Marking(process, ids[1..], now)
  }

  lemma {:induction false} MarkingHarmless(s: System, process: nat, ids: seq<string>, now: int, id: string)
    requires process in s.pending && s.pending[process].MarkInterrupted?
    requires forall x :: x in s.pending[process].ids && x in s.jobs ==> !Settled(s.jobs[x].status)
    ensures Undisturbed(s, Marking(process, ids, now), id)
    decreases |ids|
  {
    if ids != [] {
      MarkingHarmless(Next(s, SweepMark(process, ids[0], now)), process, ids[1..], now, id);
    }
  }

  /** As one atomic step the sweep disturbs no settled row. */
  lemma AtomicSweepHarmless(s: System, process: nat, alive: set<int>, ids: seq<string>, now: int, id: string)
    ensures Undisturbed(s, SweepAtOnce(process, alive, ids, now), id)
  {
    MarkingHarmless(Next(s, SweepSelect(process, alive)), process, ids, now, id);
  }

  /** Interleaved with another process, it turns a completed job into an interrupted one. */
  lemma SweepClobbersExample()
    ensures var s0 := System(map["job" := Job(Running, 0, 1, map[], None, false, None, 0)], map[]);
            var s1 := Next(s0, SweepSelect(1, {}));
            var s2 := Next(s1, ReadUpdate(2, "job", Update(Some(Completed), None, None, None, None, true), 1));
            var s3 := Next(s2, Write(2));
            var s4 := Next(s3, SweepMark(1, "job", 2));
            && "job" in s3.jobs && s3.jobs["job"].status == Completed
            && "job" in s4.jobs && s4.jobs["job"].status == Interrupted
  {
    var s0 := System(map["job" := Job(Running, 0, 1, map[], None, false, None, 0)], map[]);
    var s1 := Next(s0, SweepSelect(1, {}));
    assert "job" in s1.pending[1].ids;
  }

  // ---------- The worker ----------

  /** How the engine run inside a detached worker ended. */
  datatype WorkerEnd = Crashed(cancelled: bool) | Returned(success: bool, cancelled: bool)

  /** The status the worker writes when it finishes. */
  function FinalStatus(e: WorkerEnd): Status {
    match e
    case Crashed(cancelled) => if cancelled then Cancelled else Failed
    case Returned(success, cancelled) => if success then Completed else if cancelled then Cancelled else Failed
  }

  /** The final `update_job` call; a cancelled run that returned does not set the completion time. */
  function FinalUpdate(e: WorkerEnd, results: map<string, StepRecord>, error: string, hostPid: Option<int>): Update {
    match e
    case Crashed(cancelled) =>
      Update(Some(FinalStatus(e)), None, None, Some(if cancelled then "Cancelled by user request" else error),
          Some(None), true)
    case Returned(success, cancelled) =>
      Update(Some(FinalStatus(e)), None, Some(results),
             if success then None else Some(if cancelled then "Cancelled by user request" else error),
             Some(hostPid), success || !cancelled)
  }

  /** What a finished worker writes into a row it may update: the verdict, and what goes with it. */
  lemma WorkerVerdict(j: Job, e: WorkerEnd, results: map<string, StepRecord>, error: string, hostPid: Option<int>,
    now: int)
    ensures var k := Updated(j, FinalUpdate(e, results, error, hostPid), now);
            && (e == Crashed(true) ==> k.status == Cancelled && k.error == Some("Cancelled by user request"))
            && (e == Crashed(false) ==> k.status == Failed && k.error == Some(error))
            && (e.Crashed? ==> k.completed && k.results == j.results && k.hostPid == None)
            && (e.Returned? && e.success ==> k.status == Completed && k.completed && k.error == j.error)
            && (e == Returned(false, true) ==>
                  k.status == Cancelled && k.error == Some("Cancelled by user request") && k.completed == j.completed)
            && (e == Returned(false, false) ==> k.status == Failed && k.error == Some(error) && k.completed)
            && (e.Returned? ==> k.results == results && k.hostPid == hostPid)
  {}

  /** The process does nothing else between its read and its write. */
  predicate Idle(actions: seq<Action>, process: nat) {
    forall a :: a in actions ==>
      match a
      case ReadUpdate(p, _, _, _) => p != process
      case ReadRecord(p, _, _, _, _, _) => p != process
      case ReadCancel(p, _, _) => p != process
      case Write(p) => p != process
      case SweepSelect(p, _) => p != process
      case _ => true
  }

  lemma {:induction false} PendingKept(s: System, actions: seq<Action>, process: nat)
    requires Idle(actions, process)
    ensures process in s.pending <==> process in Run(s, actions).pending
    ensures process in s.pending ==> Run(s, actions).pending[process] == s.pending[process]
    decreases |actions|
  {
    if actions != [] {
      var s1 := Next(s, actions[0]);
      assert actions[0] in actions;
      assert process in s.pending <==> process in s1.pending;
      assert process in s.pending ==> s1.pending[process] == s.pending[process];
      assert forall a :: a in actions[1..] ==> a in actions;
      PendingKept(s1, actions[1..], process);
    }
  }

  lemma {:induction false} RunSum(s: System, as1: seq<Action>, as2: seq<Action>)
    ensures Run(s, as1 + as2) == Run(Run(s, as1), as2)
    decreases |as1|
  {
    if as1 == [] {
      assert as1 + as2 == as2;
    } else {
      assert (as1 + as2)[1..] == as1[1..] + as2;
      RunSum(Next(s, as1[0]), as1[1..], as2);
    }
  }

  lemma {:induction false} UndisturbedSum(s: System, as1: seq<Action>, as2: seq<Action>, id: string)
    ensures Undisturbed(s, as1 + as2, id) <==> Undisturbed(s, as1, id) && Undisturbed(Run(s, as1), as2, id)
    decreases |as1|
  {
    if as1 == [] {
      assert as1 + as2 == as2;
    } else {
      assert (as1 + as2)[1..] == as1[1..] + as2;
      UndisturbedSum(Next(s, as1[0]), as1[1..], as2, id);
    }
  }

  /**
   * Every finished worker leaves a terminal row: whatever the other processes do between its final
   * read and write and afterwards, short of recreating the row or clobbering it.
   */
  lemma FinishedWorkerIsTerminal(
      s: System, process: nat, id: string, e: WorkerEnd, results: map<string, StepRecord>, error: string,
      hostPid: Option<int>, now: int, between: seq<Action>, after: seq<Action>)
    requires id in s.jobs && process !in s.pending && Idle(between, process)
    requires var read := ReadUpdate(process, id, FinalUpdate(e, results, error, hostPid), now);
             Undisturbed(s, [read] + (between + ([Write(process)] + after)), id)
    ensures var read := ReadUpdate(process, id, FinalUpdate(e, results, error, hostPid), now);
            var end := Run(s, [read] + (between + ([Write(process)] + after)));
            id in end.jobs && Terminal(end.jobs[id].status)
  {
    var read := ReadUpdate(process, id, FinalUpdate(e, results, error, hostPid), now);
    var write := [Write(process)] + after;
    assert ([read] + (between + write))[1..] == between + write && write[1..] == after;
    var s1 := Next(s, read);
    var s2 := Run(s1, between);
    RunSum(s1, between, write);
    UndisturbedSum(s1, between, write, id);
    PendingKept(s1, between, process);
    TerminalAbsorbs(s1, between, id);
    TerminalAbsorbs(s2, write, id);
    var s3 := Next(s2, Write(process));
    StepKeepsExactly(s2, Write(process), id);
    if !Terminal(s2.jobs[id].status) {
      assert s1.pending[process] == WriteUpdate(id, Updated(s.jobs[id], FinalUpdate(e, results, error, hostPid), now));
      assert s3.jobs[id].status == FinalStatus(e);
    }
    TerminalAbsorbs(s3, after, id);
  }

  // ---------- Recording through one store ----------

  /** One `record_step_result` call with nothing in between. */
  function Record(j: Job, name: string, r: StepRecord, now: int): Job {
    if Terminal(j.status) then j else Recorded(j, name, r, true, now)
  }

  function RecordAll(j: Job, rs: seq<(string, StepRecord)>, now: int): Job {
    if rs == [] then j else Record(RecordAll(j, rs[..|rs| - 1], now), rs[|rs| - 1].0, rs[|rs| - 1].1, now)
  }

  function NamesOf(rs: seq<(string, StepRecord)>): seq<string> {
    seq(|rs|, i requires 0 <= i < |rs| => rs[i].0)
  }

  /** The records by name. */
  function ByName(rs: seq<(string, StepRecord)>): map<string, StepRecord> {
    if rs == [] then map[] else ByName(rs[..|rs| - 1])[rs[|rs| - 1].0 := rs[|rs| - 1].1]
  }

  lemma LastIsNew(rs: seq<(string, StepRecord)>)
    requires rs != [] && Distinct(NamesOf(rs))
    ensures Distinct(NamesOf(rs[..|rs| - 1])) && rs[|rs| - 1].0 !in NamesOf(rs[..|rs| - 1])
    ensures NamesOf(rs) == NamesOf(rs[..|rs| - 1]) + [rs[|rs| - 1].0]
  {
    var last, rest := rs[|rs| - 1], rs[..|rs| - 1];
    assert NamesOf(rs) == NamesOf(rest) + [last.0];
    DistinctParts(NamesOf(rest), [last.0]);
    assert last.0 in Elements([last.0]);
  }

  lemma {:induction false} ByNameHolds(rs: seq<(string, StepRecord)>)
    requires Distinct(NamesOf(rs))
    ensures |ByName(rs)| == |rs|
    ensures forall n :: n in ByName(rs) <==> n in NamesOf(rs)
    ensures forall i :: 0 <= i < |rs| ==> NamesOf(rs)[i] in ByName(rs) && ByName(rs)[NamesOf(rs)[i]] == rs[i].1
  {
    if rs != [] {
      var last, rest := rs[|rs| - 1], rs[..|rs| - 1];
      LastIsNew(rs);
      ByNameHolds(rest);
      forall i | 0 <= i < |rs| ensures NamesOf(rs)[i] in ByName(rs) && ByName(rs)[NamesOf(rs)[i]] == rs[i].1 {
        if i < |rest| { assert NamesOf(rest)[i] in ByName(rest) && NamesOf(rest)[i] != last.0; }
      }
    }
  }

  /** After each of `total` records of distinct steps: the results so far, and the status they call for. */
  lemma {:induction false} RecordProgress(j: Job, rs: seq<(string, StepRecord)>, now: int)
    requires j.results == map[] && !Terminal(j.status) && 0 < |rs| <= j.totalSteps && Distinct(NamesOf(rs))
    ensures var k := RecordAll(j, rs, now);
            && k.results == ByName(rs) && k.currentStep == |rs| && k.totalSteps == j.totalSteps
            && k.status == (if |rs| < j.totalSteps then InProgress
                            else if AnyFailed(ByName(rs)) then Errored else Completed)
  {
    var last, rest := rs[|rs| - 1], rs[..|rs| - 1];
    LastIsNew(rs);
    ByNameHolds(rs);
    if rest != [] { RecordProgress(j, rest, now); }
  }

  /**
   * Recording all steps of a job once each gives the same results, progress and status in any
   * order: in progress until the last record, then completed if every step succeeded and error
   * otherwise.
   */
  lemma RecordingOrderIrrelevant(j: Job, rs: seq<(string, StepRecord)>, rs2: seq<(string, StepRecord)>, now: int)
    requires j.results == map[] && !Terminal(j.status) && 0 < |rs| == j.totalSteps
    requires Distinct(NamesOf(rs)) && Distinct(NamesOf(rs2)) && |rs2| == |rs| && Elements(rs) == Elements(rs2)
    ensures var (a, b) := (RecordAll(j, rs, now), RecordAll(j, rs2, now));
            && a.results == b.results == ByName(rs) && a.status == b.status && a.currentStep == b.currentStep
            && (a.status == Completed <==> forall r :: r in rs ==> r.1.success)
            && (a.status == Completed || a.status == Errored)
  {
    RecordProgress(j, rs, now);
    RecordProgress(j, rs2, now);
    ByNameHolds(rs);
    ByNameHolds(rs2);
    SameByName(rs, rs2);
    SameByName(rs2, rs);
    assert ByName(rs) == ByName(rs2);
    if AnyFailed(ByName(rs)) {
      var n :| n in ByName(rs) && !ByName(rs)[n].success;
      assert n in NamesOf(rs);
      var i :| 0 <= i < |rs| && NamesOf(rs)[i] == n;
      assert rs[i] in rs && !rs[i].1.success;
    } else {
      forall r | r in rs ensures r.1.success {
        var i :| 0 <= i < |rs| && rs[i] == r;
        assert ByName(rs)[NamesOf(rs)[i]] == r.1;
      }
    }
  }

  lemma SameByName(rs: seq<(string, StepRecord)>, rs2: seq<(string, StepRecord)>)
    requires Distinct(NamesOf(rs)) && Distinct(NamesOf(rs2)) && Elements(rs) <= Elements(rs2)
    ensures forall n :: n in ByName(rs) ==> n in ByName(rs2) && ByName(rs)[n] == ByName(rs2)[n]
  {
    ByNameHolds(rs);
    ByNameHolds(rs2);
    forall n | n in ByName(rs) ensures n in ByName(rs2) && ByName(rs)[n] == ByName(rs2)[n] {
      var i :| 0 <= i < |rs| && NamesOf(rs)[i] == n;
      assert rs[i] in Elements(rs2);
      var j :| 0 <= j < |rs2| && rs2[j] == rs[i];
      assert NamesOf(rs2)[j] == n;
    }
  }
}
