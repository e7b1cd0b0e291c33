/**
 * What a run leaves behind at each moment (src/loopmaster/core/runner.py and state.py): what a
 * checkpoint holds, what one step does case by case, and what stops a run. All of it is stated
 * field by field, not through the functions that make checkpoints.
 */
module Moments {
  import opened Values
  import opened Blocks
  import opened Engine
  import opened Resume

  // ---------- Later states of a run ----------

  lemma SaveTells(e: Env, m: Run)
    ensures Tells(e.loop, m, MakeCheckpoint(e.loop, m))
  {}

  /** The steps that `r` executed on top of `m`. */
  function Since(m: Run, r: Run): seq<string>
    requires m.executed <= r.executed
  {
    r.executed[|m.executed|..]
  }

  /** The context once the results of the named steps were merged, in order. */
  function ContextAfter(ctx: Ctx, names: seq<string>, results: map<string, StepResult>): Ctx {
    if names == [] then ctx
    else
      var n, before := names[|names| - 1], ContextAfter(ctx, names[..|names| - 1], results);
      if n in results then MergeOutput(n, results[n], before) else before
  }

  /** `q` continues `p` with names that are new and different. */
  predicate NewOnly(p: seq<string>, q: seq<string>) {
    p <= q && Avoids(q[|p|..], Elements(p)) && Distinct(q[|p|..])
  }

  /**
   * `r` is a later state of the run that was at `m`: new steps only, each with a result, the
   * earlier results as they were, and the context with the new results merged.
   */
  ghost predicate Later(m: Run, r: Run) {
    && NewOnly(m.executed, r.executed)
    && r.results.Keys == m.results.Keys + Elements(Since(m, r))
    && ResultsStay(m, r)
    && r.ctx == ContextAfter(m.ctx, Since(m, r), r.results)
  }

  lemma LaterSelf(m: Run)
    ensures Later(m, m)
  {
    assert Since(m, m) == [];
  }

  lemma {:induction false} ContextOfSum(ctx: Ctx, s: seq<string>, t: seq<string>, results: map<string, StepResult>)
    ensures ContextAfter(ctx, s + t, results) == ContextAfter(ContextAfter(ctx, s, results), t, results)
    decreases |t|
  {
    if t == [] {
      assert s + t == s;
    } else {
      assert (s + t)[..|s + t| - 1] == s + t[..|t| - 1];
      ContextOfSum(ctx, s, t[..|t| - 1], results);
    }
  }

  lemma {:induction false} ContextLocal(
      ctx: Ctx, names: seq<string>, a: map<string, StepResult>, b: map<string, StepResult>)
    requires forall n :: n in names ==> (n in a <==> n in b) && (n in a ==> a[n] == b[n])
    ensures ContextAfter(ctx, names, a) == ContextAfter(ctx, names, b)
    decreases |names|
  {
    if names != [] { ContextLocal(ctx, names[..|names| - 1], a, b); }
  }

  lemma NewOnlyTransitive(p: seq<string>, q: seq<string>, r: seq<string>)
    requires NewOnly(p, q) && NewOnly(q, r)
    ensures NewOnly(p, r) && r[|p|..] == q[|p|..] + r[|q|..]
    ensures forall n :: n in q[|p|..] ==> n !in r[|q|..]
  {
    var s, t := q[|p|..], r[|q|..];
    assert q == p + s && r[|p|..] == s + t;
    ElementsOfSum(p, s);
    DistinctParts(s, t);
    assert forall n :: n in s ==> n in Elements(s);
  }

  lemma LaterTransitive(m: Run, k: Run, r: Run)
    requires Later(m, k) && Later(k, r)
    ensures Later(m, r)
  {
    NewOnlyTransitive(m.executed, k.executed, r.executed);
    KeysTransitive(m, k, r);
    ResultsTransitive(m, k, r);
    ContextTransitive(m, k, r);
  }

  lemma KeysTransitive(m: Run, k: Run, r: Run)
    requires m.executed <= k.executed <= r.executed
    requires k.results.Keys == m.results.Keys + Elements(Since(m, k))
    requires r.results.Keys == k.results.Keys + Elements(Since(k, r))
    ensures r.results.Keys == m.results.Keys + Elements(Since(m, r))
  {
    assert Since(m, r) == Since(m, k) + Since(k, r);
    ElementsOfSum(Since(m, k), Since(k, r));
  }

  /** Results of steps that did not run in between are as they were. */
  predicate ResultsStay(m: Run, r: Run)
    requires m.executed <= r.executed
  {
    forall n :: n in m.results && n !in Since(m, r) ==> n in r.results && r.results[n] == m.results[n]
  }

  lemma ResultsTransitive(m: Run, k: Run, r: Run)
    requires m.executed <= k.executed <= r.executed && ResultsStay(m, k) && ResultsStay(k, r)
    ensures ResultsStay(m, r)
  {
    assert Since(m, r) == Since(m, k) + Since(k, r);
    forall n | n in m.results && n !in Since(m, r) ensures n in r.results && r.results[n] == m.results[n] {
      assert n !in Since(m, k) && n !in Since(k, r);
    }
  }

  lemma ContextTransitive(m: Run, k: Run, r: Run)
    requires m.executed <= k.executed <= r.executed && ResultsStay(k, r)
    requires forall n :: n in Since(m, k) ==> n !in Since(k, r)
    requires Elements(Since(m, k)) <= k.results.Keys
    requires k.ctx == ContextAfter(m.ctx, Since(m, k), k.results)
    requires r.ctx == ContextAfter(k.ctx, Since(k, r), r.results)
    ensures r.ctx == ContextAfter(m.ctx, Since(m, r), r.results)
  {
    var s, t := Since(m, k), Since(k, r);
    assert Since(m, r) == s + t;
    forall n | n in s ensures n in k.results && n in r.results && r.results[n] == k.results[n] {
      assert n in Elements(s);
    }
    ContextLocal(m.ctx, s, k.results, r.results);
    ContextOfSum(m.ctx, s, t, r.results);
  }

  // ---------- One step, case by case ----------

  /** Protection is on. */
  predicate On(p: Option<Protection>) {
    p.Some? && p.value.enabled
  }

  /** One checkpoint of the state before, one of the state after, or neither, and nothing else. */
  predicate Adds(loop: LoopId, m: Run, r: Run, before: bool, after: bool) {
    && |r.saved| == |m.saved| + (if before then 1 else 0) + (if after then 1 else 0)
    && r.saved[..|m.saved|] == m.saved
    && (before ==> Tells(loop, m, r.saved[|m.saved|]))
    && (after ==> Tells(loop, r, r.saved[|r.saved| - 1]))
  }

  /** The engine holds on to the newest checkpoint. */
  predicate HoldsNewest(m: Run, r: Run) {
    r.last == if |r.saved| > |m.saved| then Some(r.saved[|r.saved| - 1]) else m.last
  }

  /** No step ran. */
  predicate Still(m: Run, r: Run) {
    r.executed == m.executed && r.results == m.results && r.ctx == m.ctx && r.cost == m.cost && r.tokens == m.tokens
  }

  predicate OutOfSteps(e: Env, m: Run) {
    e.budget.Some? && e.budget.value.maxSteps.Some? && |m.executed| >= e.budget.value.maxSteps.value
  }

  predicate OutOfMoney(e: Env, m: Run) {
    e.budget.Some? && e.budget.value.maxCost.Some? && m.cost >= e.budget.value.maxCost.value
  }

  predicate OutOfTokens(e: Env, m: Run) {
    e.budget.Some? && e.budget.value.maxTokens.Some? && m.tokens >= e.budget.value.maxTokens.value
  }

  /** Why a going run does not start the step, in the order in which the engine looks. */
  function Hindrance(e: Env, name: string, m: Run): Option<Stop> {
    if e.fault(name).Cancelled? then Some(CancelRequested)
    else if e.fault(name).HeartbeatLost? && On(e.protection) then Some(HeartbeatTimeout)
    else if OutOfSteps(e, m) then Some(StepsExceeded)
    else if OutOfMoney(e, m) then Some(CostExceeded)
    else if OutOfTokens(e, m) then Some(TokensExceeded)
    else None
  }

  /**
   * The branch a conditional takes: the one with an executed direct child, a step or a conditional,
   * the then branch first; without one its condition decides, and a literal is its own value.
   */
  lemma BranchRule(w: World, b: Block, executed: seq<string>, ctx: Ctx)
    requires b.Conditional?
    ensures var ranThen, ranElse := ChildRan(b.thenSteps, executed), ChildRan(b.elseSteps, executed);
            && (ranThen ==> TakesThen(w, b, executed, ctx))
            && (!ranThen && ranElse ==> !TakesThen(w, b, executed, ctx))
            && (!ranThen && !ranElse && b.condition.Constant? ==> TakesThen(w, b, executed, ctx) == b.condition.truth)
            && (!ranThen && !ranElse && !b.condition.Constant? ==>
                  TakesThen(w, b, executed, ctx) == w.holds(b.condition, ctx))
  {
    RanDirectly(b.thenSteps, executed);
    RanDirectly(b.elseSteps, executed);
  }

  /** A direct child that has a name, a step or a conditional, is among the executed. */
  predicate ChildRan(bs: seq<Block>, executed: seq<string>) {
    exists i :: 0 <= i < |bs| && !bs[i].Parallel? && bs[i].name in executed
  }

  lemma RanDirectly(bs: seq<Block>, executed: seq<string>)
    ensures AnyIn(DirectNames(bs), executed) <==> ChildRan(bs, executed)
  {
    if AnyIn(DirectNames(bs), executed) {
      var n :| n in DirectNames(bs) && n in executed;
      var b :| b in bs && !b.Parallel? && b.name == n;
      var i :| 0 <= i < |bs| && bs[i] == b;
    }
    if i :| 0 <= i < |bs| && !bs[i].Parallel? && bs[i].name in executed {
      assert bs[i].name in DirectNames(bs);
    }
  }

  /** A run visits the parts of a tree in order: groups one child after the other, of a conditional one branch. */
  lemma RunOrder(e: Env, b: Block, rest: seq<Block>, m: Run)
    ensures RunAll(e, [], m) == m
    ensures RunAll(e, [b] + rest, m) == RunAll(e, rest, RunOne(e, b, m))
    ensures b.Parallel? ==> RunOne(e, b, m) == RunAll(e, b.steps, m)
    ensures b.Conditional? && TakesThen(e.world, b, m.executed, m.ctx) ==> RunOne(e, b, m) == RunAll(e, b.thenSteps, m)
    ensures b.Conditional? && !TakesThen(e.world, b, m.executed, m.ctx) ==> RunOne(e, b, m) == RunAll(e, b.elseSteps, m)
  {
    assert ([b] + rest)[1..] == rest;
  }

  /** A step that was executed, or that a stopped run comes to, changes nothing. */
  lemma StepSkipped(e: Env, b: Block, m: Run)
    requires b.Step? && (m.stop != Going || b.name in m.executed)
    ensures RunStep(e, b, m) == m
  {}

  /** A hindered step does not run; all but a cancellation leave a checkpoint, which the engine does not hold. */
  lemma StepHindered(e: Env, b: Block, m: Run)
    requires b.Step? && m.stop == Going && b.name !in m.executed && Hindrance(e, b.name, m).Some?
    ensures var r := RunStep(e, b, m);
            && r.stop == Hindrance(e, b.name, m).value && Still(m, r) && r.last == m.last
            && Adds(e.loop, m, r, false, r.stop != CancelRequested)
  {
    SaveTells(e, m);
  }

  /**
   * A step that raises does not count as executed. An unexpected exception leaves a checkpoint, an
   * error of the loop's own kind none but the one before the step.
   */
  lemma StepRaising(e: Env, b: Block, m: Run)
    requires b.Step? && m.stop == Going && b.name !in m.executed && Hindrance(e, b.name, m).None?
    requires e.fault(b.name).StepRaises?
    ensures var r := RunStep(e, b, m);
            && r.stop == StepRaised && Still(m, r) && HoldsNewest(m, r)
            && Adds(e.loop, m, r, On(e.protection) && e.protection.value.preStep, !e.fault(b.name).loopError)
  {
    var m1 := if CheckpointBefore(e.protection) then Remember(e, m) else m;
    SaveTells(e, m);
    BrokenOffLeaves(e, e.fault(b.name).loopError, StepRaised, m1);
  }

  lemma BrokenOffLeaves(e: Env, loopError: bool, why: Stop, m: Run)
    ensures var r := BrokenOff(e, loopError, why, m);
            r.stop == why && Still(m, r) && HoldsNewest(m, r) && Adds(e.loop, m, r, false, !loopError)
  {
    SaveTells(e, m);
  }

  /**
   * A step that returns is executed, its result kept and merged. Unless its callback raises, its
   * cost and tokens are added, the run goes on, and a checkpoint follows if protection wants one
   * or is off.
   */
  lemma StepReturning(e: Env, b: Block, m: Run)
    requires b.Step? && m.stop == Going && b.name !in m.executed && Hindrance(e, b.name, m).None?
    requires !e.fault(b.name).StepRaises?
    ensures var r, x, f := RunStep(e, b, m), e.world.result(b, m.ctx), e.fault(b.name);
            && r.executed == m.executed + [b.name] && r.results == m.results[b.name := x]
            && r.ctx == MergeOutput(b.name, x, m.ctx) && HoldsNewest(m, r)
            && r.stop == (if f.CallbackRaises? then CallbackRaised else Going)
            && r.cost == (if f.CallbackRaises? then m.cost else m.cost + x.cost)
            && r.tokens == (if f.CallbackRaises? then m.tokens else m.tokens + x.tokens)
            && Adds(e.loop, m, r, On(e.protection) && e.protection.value.preStep,
                    if f.CallbackRaises? then !f.loopError else !On(e.protection) || e.protection.value.postStep)
  {
    var x := e.world.result(b, m.ctx);
    var m1 := if CheckpointBefore(e.protection) then Remember(e, m) else m;
    SaveTells(e, m);
    AfterReturning(e, b.name, x, m1);
  }

  lemma AfterReturning(e: Env, name: string, x: StepResult, m: Run)
    requires m.stop == Going
    ensures var r, f := AfterResult(e, name, x, m), e.fault(name);
            && r.executed == m.executed + [name] && r.results == m.results[name := x]
            && r.ctx == MergeOutput(name, x, m.ctx) && HoldsNewest(m, r)
            && r.stop == (if f.CallbackRaises? then CallbackRaised else Going)
            && r.cost == (if f.CallbackRaises? then m.cost else m.cost + x.cost)
            && r.tokens == (if f.CallbackRaises? then m.tokens else m.tokens + x.tokens)
            && Adds(e.loop, m, r, false,
                    if f.CallbackRaises? then !f.loopError else !On(e.protection) || e.protection.value.postStep)
  {}

  /** What a result does to the context, key by key. */
  lemma MergeByKey(name: string, r: StepResult, ctx: Ctx, x: string)
    ensures var after := MergeOutput(name, r, ctx);
            && (x in ctx ==> x in after)
            && (!r.success && x == name ==> x in after && after[x] == Null)
            && (r.success && r.output.Updates? && x in r.output.updates ==> after[x] == r.output.updates[x])
            && (r.success && r.output.Mapping? && x in r.output.entries ==> after[x] == r.output.entries[x])
            && (r.success && x == name && r.output.Report? ==> x in after && after[x] == r.output.repr)
            && (r.success && x == name && r.output.Response? ==> x in after && after[x] == r.output.content)
            && (r.success && x == name && r.output.Plain? ==> x in after && after[x] == r.output.value)
            && (!Writes(name, r, x) ==> (x in after <==> x in ctx) && (x in ctx ==> after[x] == ctx[x]))
  {}

  /** The result sets the key. */
  predicate Writes(name: string, r: StepResult, x: string) {
    if !r.success then x == name
    else
      match r.output
      case NoOutput => false
      case Updates(u) => x in u
      case Mapping(u) => x in u
      case _ => x == name
  }

  // ---------- Whole runs ----------

  lemma OneMoreIsLater(name: string, x: StepResult, m: Run, r: Run)
    requires name !in m.executed && r.executed == m.executed + [name] && r.results == m.results[name := x]
    requires r.ctx == MergeOutput(name, x, m.ctx)
    ensures Later(m, r)
  {
    assert Since(m, r) == [name] && [name][..0] == [];
    assert ContextAfter(m.ctx, [name][..0], r.results) == m.ctx;
  }

  lemma StillIsLater(m: Run, r: Run)
    requires Still(m, r)
    ensures Later(m, r)
  {
    assert Since(m, r) == [];
  }

  lemma StepIsLater(e: Env, b: Block, m: Run)
    requires b.Step?
    ensures Later(m, RunStep(e, b, m))
  {
    var r := RunStep(e, b, m);
    if m.stop != Going || b.name in m.executed {
      StepSkipped(e, b, m);
      StillIsLater(m, r);
    } else if Hindrance(e, b.name, m).Some? {
      StepHindered(e, b, m);
      StillIsLater(m, r);
    } else if e.fault(b.name).StepRaises? {
      StepRaising(e, b, m);
      StillIsLater(m, r);
    } else {
      StepReturning(e, b, m);
      OneMoreIsLater(b.name, e.world.result(b, m.ctx), m, r);
    }
  }

  /** Every state of a run is later than where it started. */
  lemma {:induction false} RunIsLater(e: Env, bs: seq<Block>, m: Run)
    ensures Later(m, RunAll(e, bs, m))
    ensures bs != [] ==> Later(m, RunOne(e, bs[0], m))
    decreases bs
  {
    LaterSelf(m);
    if bs != [] {
      RunOneIsLater(e, bs[0], m);
      RunIsLater(e, bs[1..], RunOne(e, bs[0], m));
      LaterTransitive(m, RunOne(e, bs[0], m), RunAll(e, bs, m));
    }
  }

  lemma {:induction false} RunOneIsLater(e: Env, b: Block, m: Run)
    ensures Later(m, RunOne(e, b, m))
    decreases b
  {
    match b
    case Step(_, _, _) => StepIsLater(e, b, m);
    case Parallel(steps) => RunIsLater(e, steps, m);
    case Conditional(_, _, t, o) => RunIsLater(e, t, m); RunIsLater(e, o, m);
  }

  /** The checkpoint tells of some moment of the run between `m` and `r`. */
  ghost predicate TellsOfMoment(loop: LoopId, m: Run, r: Run, c: Checkpoint) {
    exists k: Run :: Later(m, k) && Later(k, r) && Tells(loop, k, c)
  }

  lemma MomentWidened(loop: LoopId, m: Run, m2: Run, r2: Run, r: Run, c: Checkpoint)
    requires Later(m, m2) && Later(r2, r) && TellsOfMoment(loop, m2, r2, c)
    ensures TellsOfMoment(loop, m, r, c)
  {
    var k: Run :| Later(m2, k) && Later(k, r2) && Tells(loop, k, c);
    LaterTransitive(m, m2, k);
    LaterTransitive(k, r2, r);
  }

  ghost predicate AllTell(loop: LoopId, m: Run, r: Run) {
    m.saved <= r.saved && forall i :: |m.saved| <= i < |r.saved| ==> TellsOfMoment(loop, m, r, r.saved[i])
  }

  lemma TellsOf(loop: LoopId, m: Run, r: Run, k: Run, c: Checkpoint)
    requires Later(m, k) && Later(k, r) && Tells(loop, k, c)
    ensures TellsOfMoment(loop, m, r, c)
  {}

  lemma AddedTell(loop: LoopId, m: Run, r: Run, before: bool, after: bool)
    requires Later(m, r) && Adds(loop, m, r, before, after)
    ensures AllTell(loop, m, r)
  {
    LaterSelf(m);
    LaterSelf(r);
    forall i | |m.saved| <= i < |r.saved| ensures TellsOfMoment(loop, m, r, r.saved[i]) {
      var c := r.saved[i];
      if Tells(loop, m, c) { TellsOf(loop, m, r, m, c); } else { TellsOf(loop, m, r, r, c); }
    }
  }

  lemma StepSavesTell(e: Env, b: Block, m: Run)
    requires b.Step?
    ensures AllTell(e.loop, m, RunStep(e, b, m))
  {
    var r := RunStep(e, b, m);
    StepIsLater(e, b, m);
    var before := On(e.protection) && e.protection.value.preStep;
    if m.stop != Going || b.name in m.executed {
      StepSkipped(e, b, m);
      AddedTell(e.loop, m, r, false, false);
    } else if Hindrance(e, b.name, m).Some? {
      StepHindered(e, b, m);
      AddedTell(e.loop, m, r, false, r.stop != CancelRequested);
    } else if e.fault(b.name).StepRaises? {
      StepRaising(e, b, m);
      AddedTell(e.loop, m, r, before, !e.fault(b.name).loopError);
    } else {
      StepReturning(e, b, m);
      AddedTell(e.loop, m, r, before, if e.fault(b.name).CallbackRaises? then !e.fault(b.name).loopError
                                      else !On(e.protection) || e.protection.value.postStep);
    }
  }

  lemma TellJoin(loop: LoopId, m: Run, k: Run, r: Run)
    requires Later(m, k) && Later(k, r) && AllTell(loop, m, k) && AllTell(loop, k, r)
    ensures AllTell(loop, m, r)
  {
    LaterSelf(m);
    LaterSelf(r);
    forall i | |m.saved| <= i < |r.saved| ensures TellsOfMoment(loop, m, r, r.saved[i]) {
      if i < |k.saved| {
        assert r.saved[i] == k.saved[i];
        MomentWidened(loop, m, m, k, r, r.saved[i]);
      } else {
        MomentWidened(loop, m, k, r, r, r.saved[i]);
      }
    }
  }

  /**
   * Every checkpoint a run saves bears the loop's own name, version and hash, and holds exactly
   * the executed names, their number, the context and the results of one of its moments.
   */
  lemma {:induction false} SavedTell(e: Env, bs: seq<Block>, m: Run)
    ensures AllTell(e.loop, m, RunAll(e, bs, m))
    decreases bs
  {
    LaterSelf(m);
    if bs != [] {
      var k := RunOne(e, bs[0], m);
      SavedTellOne(e, bs[0], m);
      SavedTell(e, bs[1..], k);
      RunIsLater(e, bs, m);
      RunIsLater(e, bs[1..], k);
      TellJoin(e.loop, m, k, RunAll(e, bs, m));
    }
  }

  lemma {:induction false} SavedTellOne(e: Env, b: Block, m: Run)
    ensures AllTell(e.loop, m, RunOne(e, b, m))
    decreases b
  {
    match b
    case Step(_, _, _) => StepSavesTell(e, b, m);
    case Parallel(steps) => SavedTell(e, steps, m);
    case Conditional(_, _, t, o) => SavedTell(e, t, m); SavedTell(e, o, m);
  }

  // ---------- What stops a run ----------

  /** The step is in the way of a run that reaches it. */
  predicate Troubled(e: Env, name: string) {
    match e.fault(name)
    case NoFault => false
    case HeartbeatLost => On(e.protection)
    case _ => true
  }

  /** Why the run stopped at one of the named steps, or that it met no trouble on the way. */
  ghost predicate StoppedFor(e: Env, names: set<string>, m: Run, r: Run)
    requires m.executed <= r.executed
  {
    match r.stop
    case Going => forall n :: n in Since(m, r) ==> !Troubled(e, n)
    case CancelRequested => exists n :: n in names && n !in r.executed && e.fault(n).Cancelled?
    case HeartbeatTimeout =>
      && On(e.protection) && LeavesTrace(e, m, r)
      && exists n :: n in names && n !in r.executed && e.fault(n).HeartbeatLost?
    case StepsExceeded => OutOfSteps(e, r) && LeavesTrace(e, m, r)
    case CostExceeded => OutOfMoney(e, r) && !OutOfSteps(e, r) && LeavesTrace(e, m, r)
    case TokensExceeded => OutOfTokens(e, r) && !OutOfSteps(e, r) && !OutOfMoney(e, r) && LeavesTrace(e, m, r)
    case StepRaised =>
      exists n :: n in names && n !in r.executed && e.fault(n).StepRaises? && KeptFor(e, m, r, e.fault(n).loopError)
    case CallbackRaised =>
      && |m.executed| < |r.executed|
      && var n := r.executed[|r.executed| - 1];
         n in names && e.fault(n).CallbackRaises? && KeptFor(e, m, r, e.fault(n).loopError)
  }

  /** After an unexpected exception the engine holds a checkpoint of the end of the run. */
  predicate KeptFor(e: Env, m: Run, r: Run, loopError: bool) {
    !loopError ==> LeavesTrace(e, m, r) && r.last == Some(r.saved[|r.saved| - 1])
  }

  /** The last checkpoint of the run tells of its end. */
  predicate LeavesTrace(e: Env, m: Run, r: Run) {
    |r.saved| > |m.saved| && Tells(e.loop, r, r.saved[|r.saved| - 1])
  }

  lemma StepStops(e: Env, b: Block, m: Run)
    requires b.Step? && m.stop == Going
    ensures m.executed <= RunStep(e, b, m).executed && StoppedFor(e, {b.name}, m, RunStep(e, b, m))
  {
    var r := RunStep(e, b, m);
    if b.name in m.executed {
      StepSkipped(e, b, m);
      assert Since(m, r) == [];
    } else if Hindrance(e, b.name, m).Some? {
      StepHindered(e, b, m);
      assert b.name in {b.name} && b.name !in r.executed;
    } else if e.fault(b.name).StepRaises? {
      StepRaising(e, b, m);
      assert b.name in {b.name} && b.name !in r.executed;
    } else {
      StepReturning(e, b, m);
      assert Since(m, r) == [b.name];
    }
  }

  lemma StopsWidened(e: Env, names: set<string>, more: set<string>, m: Run, r: Run)
    requires m.executed <= r.executed && StoppedFor(e, names, m, r) && names <= more
    ensures StoppedFor(e, more, m, r)
  {}

  lemma StopsJoin(e: Env, names: set<string>, m: Run, k: Run, r: Run)
    requires m.executed <= k.executed <= r.executed && m.saved <= k.saved <= r.saved && k.stop == Going
    requires StoppedFor(e, names, m, k) && StoppedFor(e, names, k, r)
    ensures StoppedFor(e, names, m, r)
  {
    assert Since(m, r) == Since(m, k) + Since(k, r);
  }

  /**
   * What stops a run, and what it leaves: a cancellation, a lost heartbeat or an exception belongs
   * to a step the run came to, a limit to the totals; a run that was not stopped met none of them.
   */
  lemma {:induction false} StopsFor(e: Env, bs: seq<Block>, m: Run)
    requires m.stop == Going
    ensures m.executed <= RunAll(e, bs, m).executed && StoppedFor(e, NameSet(bs), m, RunAll(e, bs, m))
    decreases bs
  {
    RunGrows(e, bs, m);
    if bs == [] {
      assert Since(m, m) == [];
    } else {
      var k, r := RunOne(e, bs[0], m), RunAll(e, bs, m);
      StopsForOne(e, bs[0], m);
      ElementsOfSum(NamesOf(bs[0]), Names(bs[1..]));
      StopsWidened(e, Elements(NamesOf(bs[0])), NameSet(bs), m, k);
      if k.stop != Going {
        StoppedStays(e, bs[1..], k);
      } else {
        RunGrows(e, bs[1..], k);
        StopsFor(e, bs[1..], k);
        StopsWidened(e, NameSet(bs[1..]), NameSet(bs), k, r);
        StopsJoin(e, NameSet(bs), m, k, r);
      }
    }
  }

  lemma {:induction false} StopsForOne(e: Env, b: Block, m: Run)
    requires m.stop == Going
    ensures m.executed <= RunOne(e, b, m).executed && StoppedFor(e, Elements(NamesOf(b)), m, RunOne(e, b, m))
    decreases b
  {
    match b
    case Step(_, _, _) =>
      StepStops(e, b, m);
      assert Elements([b.name]) == {b.name};
    case Parallel(steps) => StopsFor(e, steps, m);
    case Conditional(_, _, t, o) =>
      ElementsOfSum(Names(t), Names(o));
      var taken := if TakesThen(e.world, b, m.executed, m.ctx) then t else o;
      StopsFor(e, taken, m);
      StopsWidened(e, NameSet(taken), Elements(NamesOf(b)), m, RunAll(e, taken, m));
  }
}
