/**
 * The run engine: one pass over a loop tree that executes steps, checkpoints and enforces the
 * budget (src/loopmaster/core/runner.py, state.py and engine.py).
 *
 * `RunAll` is the specification on values; `BlockExecContext` is the engine itself, which
 * updates its state in place and stops early where the source raises an exception.
 */
module Engine {
  import opened Values
  import opened Blocks

  // ---------- Step results and checkpoints ----------

  /** The shapes of step output that are merged into the context differently. */
  datatype Output =
    | NoOutput
    | Updates(updates: Ctx)
    | Mapping(entries: Ctx)
    | Report(repr: Value)
    | Response(content: Value)
    | Plain(value: Value)

  datatype StepResult = StepResult(
    stepName: string, success: bool, output: Output, error: Option<string>, tokens: int, cost: real)

  /** A checkpoint keeps a StepOutput as its dictionary of updates. */
  function Stored(r: StepResult): StepResult {
    if r.output.Updates? then r.(output := Mapping(r.output.updates)) else r
  }

  function StoredAll(results: map<string, StepResult>): map<string, StepResult> {
    map k | k in results :: Stored(results[k])
  }

  lemma StoredAllUpdate(results: map<string, StepResult>, name: string, r: StepResult)
    ensures StoredAll(results[name := r]) == StoredAll(results)[name := Stored(r)]
  {}

  datatype Checkpoint = Checkpoint(
    loopName: string, loopVersion: string, sourceHash: string, stepIndex: int,
    context: Ctx, results: map<string, StepResult>, executed: seq<string>)

  datatype LoopId = LoopId(name: string, version: string, hash: string)

  // ---------- The world a run meets ----------

  /** What steps return and how conditions evaluate. */
  datatype World = World(result: (Block, Ctx) -> StepResult, holds: (Condition, Ctx) -> bool)

  /** What may go wrong when the engine reaches a step. */
  datatype Fault =
    | NoFault
    | Cancelled
    | HeartbeatLost
    | StepRaises(loopError: bool)
    | CallbackRaises(loopError: bool)

  datatype Budget = Budget(maxCost: Option<real>, maxTokens: Option<int>, maxSteps: Option<int>)

  datatype Protection = Protection(enabled: bool, preStep: bool, postStep: bool)

  datatype Env = Env(
    loop: LoopId, world: World, fault: string -> Fault, budget: Option<Budget>, protection: Option<Protection>)

  // ---------- The run on values ----------

  datatype Stop =
    | Going
    | CancelRequested
    | HeartbeatTimeout
    | StepsExceeded
    | CostExceeded
    | TokensExceeded
    | StepRaised
    | CallbackRaised

  /** `saved` are the checkpoints made, oldest first; `last` is the one the engine holds on to. */
  datatype Run = Run(
    executed: seq<string>, results: map<string, StepResult>, ctx: Ctx, cost: real, tokens: int,
    saved: seq<Checkpoint>, last: Option<Checkpoint>, stop: Stop)

  function Start(initial: Ctx): Run {
    Run([], map[], initial, 0.0, 0, [], None, Going)
  }

  /** Totals restart at zero on every run, resumed or not. */
  function Restore(c: Checkpoint): Run {
    Run(c.executed, c.results, c.context, 0.0, 0, [], None, Going)
  }

  function MakeCheckpoint(loop: LoopId, m: Run): Checkpoint {
    Checkpoint(loop.name, loop.version, loop.hash, |m.executed|, m.ctx,
               StoredAll(m.results), m.executed)
  }

  /** The stored form of a live result: a step output is stored as its dictionary of updates. */
  predicate KeepsResult(kept: StepResult, live: StepResult) {
    && kept.stepName == live.stepName && kept.success == live.success && kept.error == live.error
    && kept.tokens == live.tokens && kept.cost == live.cost
    && (live.output.Updates? ==> kept.output == Mapping(live.output.updates))
    && (!live.output.Updates? ==> kept.output == live.output)
  }

  /** The checkpoint tells of the state `k` of a run of the loop. */
  predicate Tells(loop: LoopId, k: Run, c: Checkpoint) {
    && c.loopName == loop.name && c.loopVersion == loop.version && c.sourceHash == loop.hash
    && c.stepIndex == |k.executed| && c.executed == k.executed && c.context == k.ctx
    && c.results.Keys == k.results.Keys
    && forall n :: n in k.results ==> KeepsResult(c.results[n], k.results[n])
  }

  /** Persist a checkpoint without keeping it as the engine's latest. */
  function Save(e: Env, m: Run): Run {
    m.(saved := m.saved + [MakeCheckpoint(e.loop, m)])
  }

  function Remember(e: Env, m: Run): Run {
    Save(e, m).(last := Some(MakeCheckpoint(e.loop, m)))
  }

  function MergeOutput(name: string, r: StepResult, ctx: Ctx): Ctx {
    if !r.success then ctx[name := Null]
    else
      match r.output
      case NoOutput => ctx
      case Updates(u) => ctx + u
      case Mapping(u) => ctx + u
      case Report(v) => ctx[name := v]
      case Response(v) => ctx[name := v]
      case Plain(v) => ctx[name := v]
  }

  function Apply(name: string, r: StepResult, m: Run): Run {
    m.(executed := m.executed + [name], results := m.results[name := r], ctx := MergeOutput(name, r, m.ctx))
  }

  predicate Protected(p: Option<Protection>) {
    p.Some? && p.value.enabled
  }

  function LimitHit(e: Env, heartbeatLost: bool, executed: nat, cost: real, tokens: int): Stop {
    if Protected(e.protection) && heartbeatLost then HeartbeatTimeout
    else if e.budget.None? then Going
    else
      var b := e.budget.value;
      if b.maxSteps.Some? && executed >= b.maxSteps.value then StepsExceeded
      else if b.maxCost.Some? && cost >= b.maxCost.value then CostExceeded
      else if b.maxTokens.Some? && tokens >= b.maxTokens.value then TokensExceeded
      else Going
  }

  predicate CheckpointBefore(p: Option<Protection>) { Protected(p) && p.value.preStep }

  predicate CheckpointAfter(p: Option<Protection>) { Protected(p) ==> p.value.postStep }

  function ExecuteStep(e: Env, b: Block, m: Run): Run
    requires b.Step?
  {
    var m1 := if CheckpointBefore(e.protection) then Remember(e, m) else m;
    if e.fault(b.name).StepRaises? then BrokenOff(e, e.fault(b.name).loopError, StepRaised, m1)
    else AfterResult(e, b.name, e.world.result(b, m1.ctx), m1)
  }

  /** The step has run: what its result and the checkpoint after it make of the run. */
  function AfterResult(e: Env, name: string, r: StepResult, m: Run): Run {
    var m2 := Apply(name, r, m);
    if e.fault(name).CallbackRaises? then BrokenOff(e, e.fault(name).loopError, CallbackRaised, m2)
    else Counted(e, r, m2)
  }

  /** An exception that is not the loop's own leaves a checkpoint. */
  function BrokenOff(e: Env, loopError: bool, why: Stop, m: Run): Run {
    (if loopError then m else Remember(e, m)).(stop := why)
  }

  function Counted(e: Env, r: StepResult, m: Run): Run {
    var m3 := m.(cost := m.cost + r.cost, tokens := m.tokens + r.tokens);
    if CheckpointAfter(e.protection) then Remember(e, m3) else m3
  }

  function RunStep(e: Env, b: Block, m: Run): Run
    requires b.Step?
  {
    if m.stop != Going || b.name in m.executed then m
    else if e.fault(b.name).Cancelled? then m.(stop := CancelRequested)
    else
      var why := LimitHit(e, e.fault(b.name).HeartbeatLost?, |m.executed|, m.cost, m.tokens);
      if why != Going then Save(e, m).(stop := why) else ExecuteStep(e, b, m)
  }

  /** One step appends at most its own name. */
  lemma StepExecutes(e: Env, b: Block, m: Run)
    requires b.Step?
    ensures RunStep(e, b, m).executed == m.executed || RunStep(e, b, m).executed == m.executed + [b.name]
  {}

  predicate AnyIn(names: set<string>, executed: seq<string>) {
    exists n :: n in names && n in executed
  }

  /** A boolean condition is itself; anything else is evaluated against the context. */
  predicate Evaluate(w: World, c: Condition, ctx: Ctx) {
    match c
    case Constant(truth) => truth
    case _ => w.holds(c, ctx)
  }

  /** Stick to the branch that already ran a direct child, otherwise evaluate. */
  predicate TakesThen(w: World, b: Block, executed: seq<string>, ctx: Ctx)
    requires b.Conditional?
  {
    if AnyIn(DirectNames(b.thenSteps), executed) then true
    else if AnyIn(DirectNames(b.elseSteps), executed) then false
    else Evaluate(w, b.condition, ctx)
  }

  function RunOne(e: Env, b: Block, m: Run): Run {
    match b
    case Step(_, _, _) => RunStep(e, b, m)
    case Parallel(steps) => RunAll(e, steps, m)
    case Conditional(_, _, t, f) =>
      if TakesThen(e.world, b, m.executed, m.ctx) then RunAll(e, t, m) else RunAll(e, f, m)
  }

  function RunAll(e: Env, bs: seq<Block>, m: Run): Run {
    if bs == [] then m else RunAll(e, bs[1..], RunOne(e, bs[0], m))
  }

  /** Once stopped, the rest of the tree changes nothing. */
  lemma {:induction false} StoppedStays(e: Env, bs: seq<Block>, m: Run)
    requires m.stop != Going
    ensures RunAll(e, bs, m) == m
    ensures bs != [] ==> RunOne(e, bs[0], m) == m
  {
    if bs != [] {
      var b := bs[0];
      match b {
        case Step(_, _, _) =>
        case Parallel(steps) => StoppedStays(e, steps, m);
        case Conditional(_, _, t, f) => StoppedStays(e, t, m); StoppedStays(e, f, m);
      }
      StoppedStays(e, bs[1..], m);
    }
  }

  // ---------- The engine, updating its state in place ----------

  /** The live context: a dictionary shared with whoever handed it in. */
  class Context {
    var data: Ctx

    constructor (data: Ctx)
      ensures this.data == data
    {
      this.data := data;
    }
  }

  class BlockExecContext {
    const env: Env
    const ctx: Context
    var executed: seq<string>
    var results: map<string, StepResult>
    var cost: real
    var tokens: int
    var saved: seq<Checkpoint>
    var last: Option<Checkpoint>

    ghost function State(stop: Stop): Run
      reads this, ctx
    {
      Run(executed, results, ctx.data, cost, tokens, saved, last, stop)
    }

    /** Start a run; a resumed run works on the checkpoint's own context dictionary. */
    constructor (env: Env, ctx: Context, resume: Option<Checkpoint>)
      requires resume.Some? ==> resume.value.context == ctx.data
      ensures this.env == env && this.ctx == ctx
      ensures State(Going) == if resume.Some? then Restore(resume.value) else Start(ctx.data)
      ensures executed == (if resume.Some? then resume.value.executed else [])
      ensures results == (if resume.Some? then resume.value.results else map[])
      ensures cost == 0.0 && tokens == 0 && saved == [] && last == None
    {
      this.env := env;
      this.ctx := ctx;
      executed := if resume.Some? then resume.value.executed else [];
      results := if resume.Some? then resume.value.results else map[];
      cost, tokens := 0.0, 0;
      saved, last := [], None;
    }

    method TakeCheckpoint(keep: bool)
      modifies this
      ensures ctx.data == old(ctx.data)
      ensures forall stop ::
        State(stop) == (if keep then Remember(env, old(State(stop))) else Save(env, old(State(stop))))
      ensures |saved| == |old(saved)| + 1 && saved[..|old(saved)|] == old(saved)
      ensures Tells(env.loop, old(State(Going)), saved[|old(saved)|])
      ensures last == if keep then Some(saved[|old(saved)|]) else old(last)
    {
      var c := Checkpoint(env.loop.name, env.loop.version, env.loop.hash, |executed|, ctx.data,
                          StoredAll(results), executed);
      saved := saved + [c];
      if keep { last := Some(c); }
    }

    /** Append the name, record the result, merge the output. */
    method ApplyStepResult(name: string, r: StepResult)
      modifies this, ctx
      ensures forall stop :: State(stop) == Apply(name, r, old(State(stop)))
    {
      executed := executed + [name];
      results := results[name := r];
      ctx.data := MergeOutput(name, r, ctx.data);
    }

    method ExecuteSingleStep(b: Block) returns (stop: Stop)
      requires b.Step?
      modifies this, ctx
      ensures State(stop) == ExecuteStep(env, b, old(State(Going)))
    {
      var fault := env.fault(b.name);
      if CheckpointBefore(env.protection) { TakeCheckpoint(true); }
      if fault.StepRaises? {
        if !fault.loopError { TakeCheckpoint(true); }
        return StepRaised;
      }
      var r := env.world.result(b, ctx.data);
      ApplyStepResult(b.name, r);
      if fault.CallbackRaises? {
        if !fault.loopError { TakeCheckpoint(true); }
        return CallbackRaised;
      }
      cost, tokens := cost + r.cost, tokens + r.tokens;
      if CheckpointAfter(env.protection) { TakeCheckpoint(true); }
      return Going;
    }

    method RunStepBlock(b: Block) returns (stop: Stop)
      modifies this, ctx
      ensures State(stop) == RunOne(env, b, old(State(Going)))
      decreases b
    {
      match b
      case Step(name, _, _) =>
        if name in executed { return Going; }
        if env.fault(name).Cancelled? { return CancelRequested; }
        stop := LimitHit(env, env.fault(name).HeartbeatLost?, |executed|, cost, tokens);
        if stop != Going {
          TakeCheckpoint(false);
        } else {
          stop := ExecuteSingleStep(b);
        }
      case Parallel(steps) =>
        stop := RunBlocks(steps);
      case Conditional(_, _, thenSteps, elseSteps) =>
        stop := RunConditionalBlock(b);
    }

    method RunConditionalBlock(b: Block) returns (stop: Stop)
      requires b.Conditional?
      modifies this, ctx
      ensures State(stop) == RunOne(env, b, old(State(Going)))
      decreases b, 0
    {
      var branchThen: bool;
      if exists n :: n in DirectNames(b.thenSteps) && n in executed {
        branchThen := true;
      } else if exists n :: n in DirectNames(b.elseSteps) && n in executed {
        branchThen := false;
      } else {
        branchThen := Evaluate(env.world, b.condition, ctx.data);
      }
      if branchThen {
        stop := RunBlocks(b.thenSteps);
      } else {
        stop := RunBlocks(b.elseSteps);
      }
    }

    /** The loops over a group's children, a branch, and the whole tree. */
    method RunBlocks(bs: seq<Block>) returns (stop: Stop)
      modifies this, ctx
      ensures State(stop) == RunAll(env, bs, old(State(Going)))
      decreases bs
    {
      stop := Going;
      var i := 0;
      while i < |bs|
        invariant 0 <= i <= |bs|
        invariant stop == Going
        invariant RunAll(env, bs[i..], State(Going)) == RunAll(env, bs, old(State(Going)))
      {
        ghost var before := State(Going);
        stop := RunStepBlock(bs[i]);
        assert bs[i..][0] == bs[i] && bs[i..][1..] == bs[i + 1..];
        if stop != Going {
          StoppedStays(env, bs[i + 1..], State(stop));
          return;
        }
        i := i + 1;
      }
    }
  }

  /**
   * A checkpoint object in memory. Its context is a live dictionary: a run resumed from the object
   * works on that dictionary itself, while names and results are copied.
   */
  class LiveCheckpoint {
    const made: Checkpoint
    const context: Context

    constructor (c: Checkpoint)
      ensures Value() == c && fresh(context)
    {
      made := c;
      context := new Context(c.context);
    }

    /** What resuming from the object now starts from. */
    function Value(): Checkpoint
      reads context
    {
      made.(context := context.data)
    }
  }

  /**
   * Run a loop, from an initial dictionary or from a checkpoint object. The dictionary it works on is
   * the caller's own and ends with the final context; only an empty initial one is replaced.
   * (A checkpoint that `Migration.CheckAndMigrate` migrates first is a copy, and not this one.)
   */
  method RunLoop(env: Env, initial: Context, resume: Option<LiveCheckpoint>, bs: seq<Block>)
    returns (bctx: BlockExecContext, stop: Stop)
    modifies if resume.Some? then resume.value.context else initial
    ensures bctx.env == env
    ensures bctx.State(stop) ==
            RunAll(env, bs, if resume.Some? then old(Restore(resume.value.Value())) else Start(old(initial.data)))
    ensures resume.Some? ==> resume.value.Value() == old(resume.value.Value()).(context := bctx.State(stop).ctx)
    ensures resume.None? ==> initial.data == if old(initial.data) == map[] then map[] else bctx.State(stop).ctx
  {
    var dictionary := if resume.Some? then resume.value.context else initial;
    if resume.None? && initial.data == map[] { dictionary := new Context(map[]); }
    bctx := new BlockExecContext(env, dictionary, if resume.Some? then Some(resume.value.Value()) else None);
    stop := bctx.RunBlocks(bs);
  }
}
