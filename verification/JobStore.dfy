/** The store's own methods (src/loopmaster/mcp/job_ops.py), each one process's steps in a row. */
module JobStore {
  import opened Values
  import opened Jobs
  import Messages

  /** A read and the write it leads to, with no other process in between. */
  function Alone(jobs: map<string, Job>, read: Action): map<string, Job>
    requires read.ReadUpdate? || read.ReadRecord? || read.ReadCancel?
  {
    Next(Next(System(jobs, map[]), read), Write(read.process)).jobs
  }

  /** The table after a startup sweep. */
  function Swept(jobs: map<string, Job>, alive: set<int>, now: int): map<string, Job> {
    map id | id in jobs ::
      if Orphan(jobs[id], alive) then jobs[id].(status := Interrupted, updatedAt := now) else jobs[id]
  }

  lemma AloneUpdate(jobs: map<string, Job>, process: nat, id: string, u: Update, now: int)
    ensures Alone(jobs, ReadUpdate(process, id, u, now)) ==
            if id in jobs && MayUpdate(jobs[id], u) then jobs[id := Updated(jobs[id], u, now)] else jobs
  {}

  class Store {
    var jobs: map<string, Job>
    var questions: Messages.Table

    constructor ()
      ensures jobs == map[] && questions == map[]
    {
      jobs, questions := map[], map[];
    }

    /** The row if there is one. */
    method GetJob(id: string) returns (job: Option<Job>)
      ensures job == if id in jobs then Some(jobs[id]) else None
    {
      job := if id in jobs then Some(jobs[id]) else None;
    }

    /** Insert a row, or reset a terminal one; a live row wins. */
    method CreateJob(id: string, status: Status, totalSteps: int, hostPid: Option<int>, now: int) returns (job: Job)
      modifies `jobs
      ensures jobs == Next(System(old(jobs), map[]), Create(id, status, totalSteps, hostPid, now)).jobs
      ensures id in jobs && job == jobs[id]
    {
      if id !in jobs || Terminal(jobs[id].status) {
        jobs := jobs[id := Job(status, 0, totalSteps, map[], None, false, hostPid, now)];
      }
      job := jobs[id];
    }

    /** Change fields of a job that is not terminal; returns the row as it then stands. */
    method UpdateJob(id: string, u: Update, now: int) returns (job: Option<Job>)
      modifies `jobs
      ensures jobs == Alone(old(jobs), ReadUpdate(0, id, u, now))
      ensures job == if id in jobs then Some(jobs[id]) else None
    {
      AloneUpdate(jobs, 0, id, u, now);
      var read := GetJob(id);
      if read.None? { return None; }
      if Terminal(read.value.status) && !(read.value.status == Completed && u.status == Some(Completed)) {
        return read;
      }
      var j := read.value;
      if u.status.Some? { j := j.(status := u.status.value); }
      if u.currentStep.Some? { j := j.(currentStep := u.currentStep.value); }
      if u.results.Some? { j := j.(results := u.results.value); }
      if u.error.Some? { j := j.(error := u.error); }
      if u.hostPid.Some? { j := j.(hostPid := u.hostPid.value); }
      if u.completed {
        if u.status.None? || u.status == Some(Completed) { j := j.(status := Completed); }
        j := j.(completed := true);
      }
      j := j.(updatedAt := now);
      assert j == Updated(read.value, u, now);
      if !Terminal(jobs[id].status) || (jobs[id].status == Completed && j.status == Completed) {
        jobs := jobs[id := j];
      }
      job := GetJob(id);
    }

    /** Record one step's result and derive progress and status from all results so far. */
    method RecordStepResult(id: string, name: string, r: StepRecord, autoComplete: bool, now: int)
      returns (job: Option<Job>)
      modifies `jobs
      ensures jobs == Alone(old(jobs), ReadRecord(0, id, name, r, autoComplete, now))
      ensures job == if id in jobs then Some(jobs[id]) else None
    {
      var read := GetJob(id);
      if read.None? || Terminal(read.value.status) { return read; }
      var j := read.value;
      j := j.(results := j.results[name := r]);
      j := j.(currentStep := |j.results|, updatedAt := now);
      var full := autoComplete && j.totalSteps > 0 && |j.results| >= j.totalSteps;
      var error := if r.error.Some? && r.error.value != "" then r.error else j.error;
      if exists k :: k in j.results && !j.results[k].success {
        j := j.(error := error, status := if full then Errored else InProgress);
      } else if full {
        j := j.(status := Completed, completed := true);
      } else {
        j := j.(status := InProgress);
      }
      jobs := jobs[id := j];
      job := Some(j);
    }

    /** Cancel a job that is not settled, and with it its pending questions. */
    method CancelJob(id: string, now: int) returns (cancelled: bool)
      modifies `jobs, `questions
      ensures jobs == Alone(old(jobs), ReadCancel(0, id, now))
      ensures cancelled <==> id in old(jobs) && !Settled(old(jobs)[id].status)
      ensures questions == if cancelled then Messages.Next(old(questions), Messages.CancelPending(id))
        else old(questions)
    {
      var read := GetJob(id);
      if read.None? || Settled(read.value.status) { return false; }
      jobs := jobs[id := jobs[id].(status := Cancelled, updatedAt := now)];
      questions := map m | m in questions ::
        if questions[m].jobId == id && questions[m].status == Messages.Pending
        then questions[m].(status := Messages.CancelledQuestion) else questions[m];
      cancelled := true;
    }

    /** Refresh the heartbeat of a job that runs. */
    method TouchJob(id: string, now: int) returns (touched: bool)
      modifies `jobs
      ensures jobs == Next(System(old(jobs), map[]), Touch(id, now)).jobs
      ensures touched <==> id in old(jobs) && old(jobs)[id].status in {Ready, Running, InProgress}
    {
      touched := id in jobs
          && (jobs[id].status == Ready || jobs[id].status == Running || jobs[id].status == InProgress);
      if touched { jobs := jobs[id := jobs[id].(updatedAt := now)]; }
    }

    /** Mark the active jobs whose host is gone as interrupted; returns how many. */
    method MarkInterruptedJobsOnStartup(alive: set<int>, now: int) returns (count: nat)
      modifies `jobs
      ensures jobs == Swept(old(jobs), alive, now)
      ensures count == |set id | id in old(jobs) && Orphan(old(jobs)[id], alive)|
      ensures jobs.Keys == old(jobs).Keys
      ensures forall id :: id in old(jobs) && old(jobs)[id].hostPid.Some? && old(jobs)[id].hostPid.value in alive ==>
                jobs[id] == old(jobs)[id]
      ensures forall id :: id in old(jobs) && jobs[id] != old(jobs)[id] ==> jobs[id].status == Interrupted
    {
      var selected := set id | id in jobs && Orphan(jobs[id], alive);
      var rows := selected;
      count := 0;
      while rows != {}
        invariant rows <= selected && count == |selected| - |rows|
        invariant jobs == Swept(old(jobs), alive, now) + map id | id in rows :: old(jobs)[id]
        decreases |rows|
      {
        var id :| id in rows;
        jobs := jobs[id := jobs[id].(status := Interrupted, updatedAt := now)];
        rows := rows - {id};
        count := count + 1;
      }
    }
  }

  /** The sweep changes a row if and only if it is an orphan: active, and without a live host. */
  lemma SweepSpares(jobs: map<string, Job>, alive: set<int>, now: int, id: string)
    requires id in jobs
    ensures Swept(jobs, alive, now)[id] != jobs[id] <==> Orphan(jobs[id], alive)
    ensures Orphan(jobs[id], alive) ==> !Terminal(jobs[id].status) && Swept(jobs, alive, now)[id].status == Interrupted
  {}

  /** What a startup sweep does to a row, by its status and its host. */
  lemma SweptByHost(jobs: map<string, Job>, alive: set<int>, now: int, id: string)
    requires id in jobs
    ensures Swept(jobs, alive, now).Keys == jobs.Keys
    ensures var j, k := jobs[id], Swept(jobs, alive, now)[id];
            var interrupted := j.(status := Interrupted, updatedAt := now);
            && (j.hostPid.Some? && j.hostPid.value in alive ==> k == j)
            && (j.status in {Running, InProgress, WaitingInput} && (j.hostPid.Some? ==> j.hostPid.value !in alive) ==>
                  k == interrupted)
            && (j.status == Ready && j.hostPid.Some? && j.hostPid.value !in alive ==> k == interrupted)
            && (j.status == Ready && j.hostPid.None? ==> k == j)
            && (j.status in {Errored, Completed, Failed, Cancelled, Interrupted} ==> k == j)
  {}

  /** Two running jobs, one with a live host and one with a dead one. */
  lemma SweepExample(now: int)
    ensures var live, dead := Job(InProgress, 0, 1, map[], None, false, Some(42), 0),
              Job(InProgress, 0, 1, map[], None, false, Some(7), 0);
            var swept := Swept(map["live" := live, "dead" := dead], {42}, now);
            && "live" in swept && swept["live"] == live
            && "dead" in swept && swept["dead"].status == Interrupted
  {}

  /** Sweeping in one go is the select of the state machine followed by its marks, in any order. */
  lemma SweptIsSweep(jobs: map<string, Job>, alive: set<int>, now: int, process: nat, ids: seq<string>)
    requires forall id :: id in ids <==> id in jobs && Orphan(jobs[id], alive)
    ensures Run(System(jobs, map[]), SweepAtOnce(process, alive, ids, now)).jobs == Swept(jobs, alive, now)
  {
    var s := Next(System(jobs, map[]), SweepSelect(process, alive));
    MarkingMarks(s, process, ids, now);
    assert SweepAtOnce(process, alive, ids, now)[1..] == Marking(process, ids, now);
  }

  lemma {:induction false} MarkingMarks(s: System, process: nat, ids: seq<string>, now: int)
    requires process in s.pending && s.pending[process].MarkInterrupted?
    requires forall id :: id in ids ==> id in s.jobs && id in s.pending[process].ids
    ensures Run(s, Marking(process, ids, now)).jobs ==
            map id | id in s.jobs ::
              if id in ids then s.jobs[id].(status := Interrupted, updatedAt := now) else s.jobs[id]
    decreases |ids|
  {
    if ids == [] {
      assert s.jobs == map id | id in s.jobs :: s.jobs[id];
    } else {
      var s1 := Next(s, SweepMark(process, ids[0], now));
      assert forall id :: id in ids <==> id == ids[0] || id in ids[1..];
      MarkingMarks(s1, process, ids[1..], now);
      assert Marking(process, ids, now)[1..] == Marking(process, ids[1..], now);
    }
  }
}
