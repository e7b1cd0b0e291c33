/** Recording a run and serving it again, step by step (src/loopmaster/core/replay.py). */
module Replay {
  import opened Values

  /** No output, a step output, a value that is false in a condition, or any other value. */
  datatype LiveOutput = NoOutput | Updates(updates: Ctx) | Falsy | Truthy

  datatype LiveResult = LiveResult(
    stepName: string, success: bool, output: LiveOutput, error: Option<string>, tokens: int, cost: real,
    duration: real, model: Option<string>, inputTokens: int, outputTokens: int)

  /** `model` is what the caller of the recorder says, not what the result does. */
  datatype Record = Record(
    stepName: string, output: Option<Ctx>, error: Option<string>, tokens: int, cost: real, duration: real,
    model: Option<string>)

  /** The record of a result; an output that is neither false nor a step output raises, which is None here. */
  function Recorded(name: string, r: LiveResult, model: Option<string>): Option<Record> {
    if r.output.Truthy? then None
    else
      var updates := if r.output.Updates? then Some(r.output.updates) else None;
      Some(Record(name, updates, r.error, r.tokens, r.cost, r.duration, model))
  }

  /** The result rebuilt from a record: without an error it counts as a success; model and token split are gone. */
  function Replayed(name: string, r: Record): LiveResult {
    var output := if r.output.Some? then Updates(r.output.value) else NoOutput;
    LiveResult(name, r.error.None?, output, r.error, r.tokens, r.cost, r.duration, None, 0, 0)
  }

  /**
   * A result recorded under its own name comes back unchanged exactly when its output is a step
   * output or none at all, its success flag agrees with its error, and it names no model and no
   * input or output tokens.
   */
  lemma ReplayIsFaithful(r: LiveResult, model: Option<string>)
    ensures var record := Recorded(r.stepName, r, model);
            (record.Some? && Replayed(r.stepName, record.value) == r) <==>
              && (r.output.NoOutput? || r.output.Updates?) && (r.success <==> r.error.None?)
              && r.model.None? && r.inputTokens == 0 && r.outputTokens == 0
  {}

  /** What a record keeps of a result. */
  lemma RecordKeeps(name: string, r: LiveResult, model: Option<string>)
    ensures Recorded(name, r, model).None? <==> r.output.Truthy?
    ensures !r.output.Truthy? ==>
              var k := Recorded(name, r, model).value;
              && k.stepName == name && k.error == r.error && k.tokens == r.tokens && k.cost == r.cost
              && k.duration == r.duration && k.model == model
              && (r.output.Updates? ==> k.output == Some(r.output.updates)) && (!r.output.Updates? ==> k.output == None)
  {}

  /** The records of one step, in the order of the log. */
  function Named(log: seq<Record>, name: string): seq<Record> {
    if log == [] then []
    else if log[0].stepName == name then [log[0]] + Named(log[1..], name)
    else Named(log[1..], name)
  }

  lemma {:induction false} NamedOfSum(s: seq<Record>, t: seq<Record>, name: string)
    ensures Named(s + t, name) == Named(s, name) + Named(t, name)
    decreases |s|
  {
    if s == [] {
      assert s + t == t;
    } else {
      assert (s + t)[1..] == s[1..] + t;
      NamedOfSum(s[1..], t, name);
    }
  }

  type Queues = map<string, seq<Record>>

  function Waiting(q: Queues, name: string): seq<Record> {
    if name in q then q[name] else []
  }

  /** No queue is kept empty. */
  predicate NoneEmpty(q: Queues) {
    forall n :: n in q ==> q[n] != []
  }

  /** The queues hold the log, each step's records in order. */
  ghost predicate Holds(q: Queues, log: seq<Record>) {
    NoneEmpty(q) && forall n :: Waiting(q, n) == Named(log, n)
  }

  /** Serve the first record waiting for a step. */
  function Take(q: Queues, name: string): (Option<Record>, Queues) {
    if name !in q || q[name] == [] then (None, q)
    else (Some(q[name][0]), if |q[name]| == 1 then q - {name} else q[name := q[name][1..]])
  }

  class ReplayRunner {
    const log: seq<Record>
    var queues: Queues

    constructor (log: seq<Record>)
      ensures this.log == log && Holds(queues, log)
    {
      this.log := log;
      queues := map[];
      new;
      var i := 0;
      while i < |log|
        invariant 0 <= i <= |log| && this.log == log
        invariant Holds(queues, log[..i])
      {
        assert log[..i + 1] == log[..i] + [log[i]];
        var name := log[i].stepName;
        ghost var before := queues;
        queues := queues[name := Waiting(queues, name) + [log[i]]];
        forall n ensures Waiting(queues, n) == Named(log[..i + 1], n) {
          assert Waiting(before, n) == Named(log[..i], n);
          NamedOfSum(log[..i], [log[i]], n);
        }
        i := i + 1;
      }
      assert log[..|log|] == log;
    }

    method GetMockResult(name: string) returns (r: Option<LiveResult>)
      modifies this
      ensures var (served, rest) := Take(old(queues), name);
              queues == rest && r == (if served.Some? then Some(Replayed(name, served.value)) else None)
      ensures r.Some? <==> Waiting(old(queues), name) != []
    {
      if name !in queues || queues[name] == [] { return None; }
      var waiting := queues[name];
      var record := waiting[0];
      waiting := waiting[1..];
      queues := if waiting == [] then queues - {name} else queues[name := waiting];
      r := Some(Replayed(name, record));
    }

    /** Something is still waiting for the step. */
    predicate HasRecording(name: string)
      requires NoneEmpty(queues)
      reads this
      ensures HasRecording(name) <==> Waiting(queues, name) != []
    {
      name in queues
    }
  }

  // ---------- Whole replays ----------

  /** What a series of requests is served, and the queues it leaves. */
  function Serve(q: Queues, names: seq<string>): seq<Option<Record>> {
    if names == [] then [] else [Take(q, names[0]).0] + Serve(Take(q, names[0]).1, names[1..])
  }

  function Left(q: Queues, names: seq<string>): Queues {
    if names == [] then q else Left(Take(q, names[0]).1, names[1..])
  }

  function Count(names: seq<string>, name: string): nat {
    if names == [] then 0 else (if names[0] == name then 1 else 0) + Count(names[1..], name)
  }

  lemma TakeMoves(q: Queues, name: string, n: string)
    requires NoneEmpty(q)
    ensures NoneEmpty(Take(q, name).1)
    ensures name == n && Waiting(q, n) != [] ==>
              Take(q, name).0 == Some(Waiting(q, n)[0]) && Waiting(Take(q, name).1, n) == Waiting(q, n)[1..]
    ensures Waiting(q, name) == [] ==> Take(q, name) == (None, q)
    ensures name != n ==> Waiting(Take(q, name).1, n) == Waiting(q, n)
  {}

  /** The k-th request for a step is served its k-th waiting record, and nothing beyond the last. */
  lemma {:induction false} KthRequest(q: Queues, names: seq<string>, t: nat)
    requires NoneEmpty(q) && t < |names|
    ensures |Serve(q, names)| == |names|
    ensures var k := Count(names[..t], names[t]);
            Serve(q, names)[t] == if k < |Waiting(q, names[t])| then Some(Waiting(q, names[t])[k]) else None
    decreases |names|
  {
    var rest := Take(q, names[0]).1;
    TakeMoves(q, names[0], names[t]);
    ServeLength(rest, names[1..]);
    if t > 0 {
      KthRequest(rest, names[1..], t - 1);
      assert names[..t][1..] == names[1..][..t - 1];
    }
  }

  lemma {:induction false} ServeLength(q: Queues, names: seq<string>)
    ensures |Serve(q, names)| == |names|
    decreases |names|
  {
    if names != [] { ServeLength(Take(q, names[0]).1, names[1..]); }
  }

  /** The records served for one step, in order. */
  function ServedFor(q: Queues, names: seq<string>, name: string): seq<Record> {
    if names == [] then []
    else
      var served := if names[0] == name then Take(q, name).0 else None;
      (if served.Some? then [served.value] else []) + ServedFor(Take(q, names[0]).1, names[1..], name)
  }

  /** Conservation: for every step, what was served and what still waits is what waited at first, in order. */
  lemma {:induction false} ServedPlusLeft(q: Queues, names: seq<string>, name: string)
    requires NoneEmpty(q)
    ensures NoneEmpty(Left(q, names))
    ensures ServedFor(q, names, name) + Waiting(Left(q, names), name) == Waiting(q, name)
    decreases |names|
  {
    if names != [] {
      TakeMoves(q, names[0], name);
      ServedPlusLeft(Take(q, names[0]).1, names[1..], name);
    }
  }

  function StepNames(log: seq<Record>): seq<string> {
    seq(|log|, i requires 0 <= i < |log| => log[i].stepName)
  }

  function AllOf(log: seq<Record>): seq<Option<Record>> {
    seq(|log|, i requires 0 <= i < |log| => Some(log[i]))
  }

  lemma TakeFirst(q: Queues, log: seq<Record>)
    requires Holds(q, log) && log != []
    ensures Take(q, log[0].stepName).0 == Some(log[0])
    ensures Holds(Take(q, log[0].stepName).1, log[1..])
  {
    forall n ensures Waiting(Take(q, log[0].stepName).1, n) == Named(log[1..], n) {
      TakeMoves(q, log[0].stepName, n);
    }
    TakeMoves(q, log[0].stepName, log[0].stepName);
  }

  /** Asking for the steps in the recorded order returns the whole log and leaves nothing. */
  lemma {:induction false} ReplayReturnsLog(q: Queues, log: seq<Record>)
    requires Holds(q, log)
    ensures Serve(q, StepNames(log)) == AllOf(log)
    ensures Left(q, StepNames(log)) == map[]
    decreases |log|
  {
    if log == [] {
      forall n ensures n !in q { assert Waiting(q, n) == Named(log, n) == []; }
    } else {
      TakeFirst(q, log);
      ReplayReturnsLog(Take(q, log[0].stepName).1, log[1..]);
      assert StepNames(log)[1..] == StepNames(log[1..]);
      assert AllOf(log) == [Some(log[0])] + AllOf(log[1..]);
    }
  }
}
