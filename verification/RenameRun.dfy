/**
 * Renaming a step in a checkpoint and in the loop (src/loopmaster/checkpoint/migration.py) changes
 * nothing about the run but the name: resuming the renamed checkpoint on the renamed loop ends as
 * resuming the old one on the old loop, with the name exchanged.
 */
module RenameRun {
  import opened Values
  import opened Blocks
  import opened Engine
  import opened Resume
  import opened Safety
  import opened Literals
  import opened Migration

  /** Two names to exchange. */
  datatype Names2 = Names2(a: string, b: string)

  function Swap(p: Names2, x: string): string {
    if x == p.a then p.b else if x == p.b then p.a else x
  }

  function SwapSeq(p: Names2, s: seq<string>): seq<string> {
    seq(|s|, i requires 0 <= i < |s| => Swap(p, s[i]))
  }

  function SwapKeys<T>(p: Names2, m: map<string, T>): map<string, T> {
    map x: string | x in SwapSet(p, m.Keys) && Swap(p, x) in m :: m[Swap(p, x)]
  }

  function SwapSet(p: Names2, s: set<string>): set<string> {
    set k: string | k in s :: Swap(p, k)
  }

  function SwapResult(p: Names2, r: StepResult): StepResult {
    r.(stepName := Swap(p, r.stepName), output := SwapOutput(p, r.output))
  }

  function SwapOutput(p: Names2, o: Output): Output {
    match o
    case Updates(u) => Updates(SwapKeys(p, u))
    case Mapping(u) => Mapping(SwapKeys(p, u))
    case _ => o
  }

  function SwapValues(p: Names2, m: map<string, StepResult>): map<string, StepResult> {
    map k | k in m :: SwapResult(p, m[k])
  }

  function SwapResults(p: Names2, m: map<string, StepResult>): map<string, StepResult> {
    SwapKeys(p, SwapValues(p, m))
  }

  function SwapBlock(p: Names2, b: Block): Block {
    match b
    case Step(name, action, custom) => Step(Swap(p, name), action, custom)
    case Parallel(steps) => Parallel(SwapBlocks(p, steps))
    case Conditional(name, c, t, e) => Conditional(Swap(p, name), c, SwapBlocks(p, t), SwapBlocks(p, e))
  }

  function SwapBlocks(p: Names2, bs: seq<Block>): seq<Block> {
    if bs == [] then [] else [SwapBlock(p, bs[0])] + SwapBlocks(p, bs[1..])
  }

  function SwapCheckpoint(p: Names2, c: Checkpoint): Checkpoint {
    c.(executed := SwapSeq(p, c.executed), results := SwapResults(p, c.results), context := SwapKeys(p, c.context))
  }

  function SwapSaved(p: Names2, s: seq<Checkpoint>): seq<Checkpoint> {
    seq(|s|, i requires 0 <= i < |s| => SwapCheckpoint(p, s[i]))
  }

  function SwapRun(p: Names2, m: Run): Run {
    m.(executed := SwapSeq(p, m.executed), results := SwapResults(p, m.results), ctx := SwapKeys(p, m.ctx),
       saved := SwapSaved(p, m.saved),
       last := if m.last.Some? then Some(SwapCheckpoint(p, m.last.value)) else None)
  }

  /** The environment of the renamed loop: what the old steps return, under the new names. */
  function SwapEnv(p: Names2, e: Env): Env {
    e.(world := World(
         (b: Block, ctx: Ctx) => SwapResult(p, e.world.result(SwapBlock(p, b), SwapKeys(p, ctx))),
         (c: Condition, ctx: Ctx) => e.world.holds(c, SwapKeys(p, ctx))),
       fault := n => e.fault(Swap(p, n)))
  }

  // ---------- Exchanging twice, and in parts ----------

  lemma SwapTwice(p: Names2, x: string)
    ensures Swap(p, Swap(p, x)) == x
  {
  }

  /** Two maps say the same about a key. */
  predicate Agree<T(==)>(m: map<string, T>, n: map<string, T>, x: string) {
    if x in m then x in n && m[x] == n[x] else x !in n
  }

  lemma AgreeingMaps<T>(m: map<string, T>, n: map<string, T>)
    requires forall x: string :: Agree(m, n, x)
    ensures m == n
  {
    forall x: string ensures x in m <==> x in n ensures x in m ==> m[x] == n[x] {
      assert Agree(m, n, x);
    }
  }

  lemma SwapKeysHas<T>(p: Names2, m: map<string, T>, x: string)
    ensures x in SwapKeys(p, m) <==> Swap(p, x) in m
    ensures x in SwapKeys(p, m) ==> SwapKeys(p, m)[x] == m[Swap(p, x)]
  {
    SwapTwice(p, x);
  }

  lemma SwapKeysTwice<T>(p: Names2, m: map<string, T>)
    ensures SwapKeys(p, SwapKeys(p, m)) == m
  {
    var n := SwapKeys(p, m);
    forall x: string ensures Agree(SwapKeys(p, n), m, x) {
      SwapKeysHas(p, n, x);
      SwapKeysHas(p, m, Swap(p, x));
      SwapTwice(p, x);
    }
    AgreeingMaps(SwapKeys(p, n), m);
  }

  lemma SwapKeysSet<T>(p: Names2, m: map<string, T>, k: string, v: T)
    ensures SwapKeys(p, m[k := v]) == SwapKeys(p, m)[Swap(p, k) := v]
  {
    var n, o := SwapKeys(p, m[k := v]), SwapKeys(p, m)[Swap(p, k) := v];
    forall x: string ensures Agree(n, o, x) {
      SwapKeysHas(p, m[k := v], x);
      SwapKeysHas(p, m, x);
      SwapTwice(p, x);
      SwapTwice(p, k);
    }
    AgreeingMaps(n, o);
  }

  lemma SwapKeysPlus<T>(p: Names2, m: map<string, T>, u: map<string, T>)
    ensures SwapKeys(p, m + u) == SwapKeys(p, m) + SwapKeys(p, u)
  {
    var n, o := SwapKeys(p, m + u), SwapKeys(p, m) + SwapKeys(p, u);
    forall x: string ensures Agree(n, o, x) {
      SwapKeysHas(p, m + u, x);
      SwapKeysHas(p, m, x);
      SwapKeysHas(p, u, x);
    }
    AgreeingMaps(n, o);
  }

  lemma {:induction false} SwapBlocksTwice(p: Names2, bs: seq<Block>)
    ensures SwapBlocks(p, SwapBlocks(p, bs)) == bs
    ensures bs != [] ==> SwapBlock(p, SwapBlock(p, bs[0])) == bs[0]
  {
    if bs != [] {
      match bs[0] {
        case Step(_, _, _) =>
        case Parallel(steps) => SwapBlocksTwice(p, steps);
        case Conditional(_, _, t, e) => SwapBlocksTwice(p, t); SwapBlocksTwice(p, e);
      }
      SwapBlocksTwice(p, bs[1..]);
      assert SwapBlocks(p, bs)[1..] == SwapBlocks(p, bs[1..]);
    }
  }

  lemma SwapMember(p: Names2, s: seq<string>, x: string)
    ensures Swap(p, x) in SwapSeq(p, s) <==> x in s
  {
    if x in s {
      var i :| 0 <= i < |s| && s[i] == x;
      assert SwapSeq(p, s)[i] == Swap(p, x);
    }
    if Swap(p, x) in SwapSeq(p, s) {
      var i :| 0 <= i < |s| && SwapSeq(p, s)[i] == Swap(p, x);
      assert Swap(p, Swap(p, s[i])) == s[i];
    }
  }

  lemma SwapStored(p: Names2, results: map<string, StepResult>)
    ensures StoredAll(SwapResults(p, results)) == SwapResults(p, StoredAll(results))
  {
    var m, n := StoredAll(SwapResults(p, results)), SwapResults(p, StoredAll(results));
    forall x: string ensures Agree(m, n, x) {
      SwapKeysHas(p, SwapValues(p, results), x);
      SwapKeysHas(p, SwapValues(p, StoredAll(results)), x);
    }
    AgreeingMaps(m, n);
  }

  lemma SwapResultsSet(p: Names2, results: map<string, StepResult>, name: string, r: StepResult)
    ensures SwapResults(p, results[name := r]) == SwapResults(p, results)[Swap(p, name) := SwapResult(p, r)]
  {
    assert SwapValues(p, results[name := r]) == SwapValues(p, results)[name := SwapResult(p, r)];
    SwapKeysSet(p, SwapValues(p, results), name, SwapResult(p, r));
  }

  // ---------- Runs ----------

  lemma SwapRemember(p: Names2, e: Env, m: Run)
    ensures SwapRun(p, Remember(e, m)) == Remember(SwapEnv(p, e), SwapRun(p, m))
    ensures SwapRun(p, Save(e, m)) == Save(SwapEnv(p, e), SwapRun(p, m))
  {
    SwapStored(p, m.results);
    assert SwapCheckpoint(p, MakeCheckpoint(e.loop, m)) == MakeCheckpoint(e.loop, SwapRun(p, m));
    assert SwapRun(p, Save(e, m)).saved == Save(SwapEnv(p, e), SwapRun(p, m)).saved;
  }

  /** What a result adds to the context. */
  function Added(name: string, r: StepResult): Ctx {
    if !r.success then map[name := Null]
    else
      match r.output
      case NoOutput => map[]
      case Updates(u) => u
      case Mapping(u) => u
      case Report(v) => map[name := v]
      case Response(v) => map[name := v]
      case Plain(v) => map[name := v]
  }

  lemma MergeAdds(name: string, r: StepResult, ctx: Ctx)
    ensures MergeOutput(name, r, ctx) == ctx + Added(name, r)
  {}

  lemma SwapOne(p: Names2, name: string, v: Value)
    ensures SwapKeys(p, map[name := v]) == map[Swap(p, name) := v]
  {
    SwapKeysSet(p, map[], name, v);
  }

  lemma SwapAdded(p: Names2, name: string, r: StepResult)
    ensures SwapKeys(p, Added(name, r)) == Added(Swap(p, name), SwapResult(p, r))
  {
    if !r.success || r.output.Report? || r.output.Response? || r.output.Plain? {
      SwapOne(p, name, Added(name, r)[name]);
    }
  }

  lemma SwapMerge(p: Names2, name: string, r: StepResult, ctx: Ctx)
    ensures SwapKeys(p, MergeOutput(name, r, ctx)) == MergeOutput(Swap(p, name), SwapResult(p, r), SwapKeys(p, ctx))
  {
    MergeAdds(name, r, ctx);
    MergeAdds(Swap(p, name), SwapResult(p, r), SwapKeys(p, ctx));
    SwapKeysPlus(p, ctx, Added(name, r));
    SwapAdded(p, name, r);
  }

  lemma SwapApply(p: Names2, name: string, r: StepResult, m: Run)
    ensures SwapRun(p, Apply(name, r, m)) == Apply(Swap(p, name), SwapResult(p, r), SwapRun(p, m))
  {
    SwapMerge(p, name, r, m.ctx);
    SwapResultsSet(p, m.results, name, r);
    assert SwapSeq(p, m.executed + [name]) == SwapSeq(p, m.executed) + [Swap(p, name)];
  }

  lemma SwapOracle(p: Names2, e: Env, b: Block, ctx: Ctx)
    ensures SwapEnv(p, e).world.result(SwapBlock(p, b), SwapKeys(p, ctx)) == SwapResult(p, e.world.result(b, ctx))
  {
    SwapBlocksTwice(p, [b]);
    SwapKeysTwice(p, ctx);
  }

  lemma SwapTotals(p: Names2, m: Run, cost: real, tokens: int, stop: Stop)
    ensures SwapRun(p, m.(cost := cost, tokens := tokens)) == SwapRun(p, m).(cost := cost, tokens := tokens)
    ensures SwapRun(p, m.(stop := stop)) == SwapRun(p, m).(stop := stop)
  {
  }

  lemma SwapBrokenOff(p: Names2, e: Env, loopError: bool, why: Stop, m: Run)
    ensures BrokenOff(SwapEnv(p, e), loopError, why, SwapRun(p, m)) == SwapRun(p, BrokenOff(e, loopError, why, m))
  {
    SwapRemember(p, e, m);
    SwapTotals(p, if loopError then m else Remember(e, m), 0.0, 0, why);
  }

  lemma SwapCounted(p: Names2, e: Env, r: StepResult, m: Run)
    ensures Counted(SwapEnv(p, e), SwapResult(p, r), SwapRun(p, m)) == SwapRun(p, Counted(e, r, m))
  {
    var cost, tokens := m.cost + r.cost, m.tokens + r.tokens;
    SwapTotals(p, m, cost, tokens, Going);
    if CheckpointAfter(e.protection) { SwapRemember(p, e, m.(cost := cost, tokens := tokens)); }
  }

  lemma SwapAfter(p: Names2, e: Env, name: string, r: StepResult, m: Run)
    ensures AfterResult(SwapEnv(p, e), Swap(p, name), SwapResult(p, r), SwapRun(p, m)) ==
              SwapRun(p, AfterResult(e, name, r, m))
  {
    SwapFault(p, e, name);
    SwapApply(p, name, r, m);
    if e.fault(name).CallbackRaises? {
      SwapBrokenOff(p, e, e.fault(name).loopError, CallbackRaised, Apply(name, r, m));
    }
    SwapCounted(p, e, r, Apply(name, r, m));
  }

  lemma SwapFault(p: Names2, e: Env, name: string)
    ensures SwapEnv(p, e).fault(Swap(p, name)) == e.fault(name)
  {
    SwapTwice(p, name);
  }

  lemma SwapExecute(p: Names2, e: Env, b: Block, m: Run)
    requires b.Step?
    ensures ExecuteStep(SwapEnv(p, e), SwapBlock(p, b), SwapRun(p, m)) == SwapRun(p, ExecuteStep(e, b, m))
  {
    SwapTwice(p, b.name);
    var m1 := if CheckpointBefore(e.protection) then Remember(e, m) else m;
    SwapRemember(p, e, m);
    if e.fault(b.name).StepRaises? {
      SwapBrokenOff(p, e, e.fault(b.name).loopError, StepRaised, m1);
    } else {
      var r := e.world.result(b, m1.ctx);
      SwapOracle(p, e, b, m1.ctx);
      SwapAfter(p, e, b.name, r, m1);
    }
  }

  lemma SwapSave(p: Names2, e: Env, m: Run, why: Stop)
    ensures Save(SwapEnv(p, e), SwapRun(p, m)).(stop := why) == SwapRun(p, Save(e, m).(stop := why))
  {
    SwapRemember(p, e, m);
    SwapTotals(p, Save(e, m), 0.0, 0, why);
  }

  lemma SwapStep(p: Names2, e: Env, b: Block, m: Run)
    requires b.Step?
    ensures RunStep(SwapEnv(p, e), SwapBlock(p, b), SwapRun(p, m)) == SwapRun(p, RunStep(e, b, m))
  {
    var f, c, n := SwapEnv(p, e), SwapBlock(p, b), SwapRun(p, m);
    SwapMember(p, m.executed, b.name);
    SwapFault(p, e, b.name);
    if m.stop != Going || b.name in m.executed {
      assert RunStep(f, c, n) == n;
    } else if e.fault(b.name).Cancelled? {
      SwapTotals(p, m, 0.0, 0, CancelRequested);
      assert RunStep(f, c, n) == n.(stop := CancelRequested);
    } else {
      var why := LimitHit(e, e.fault(b.name).HeartbeatLost?, |m.executed|, m.cost, m.tokens);
      assert RunStep(f, c, n) == if why != Going then Save(f, n).(stop := why) else ExecuteStep(f, c, n);
      if why != Going { SwapSave(p, e, m, why); } else { SwapExecute(p, e, b, m); }
    }
  }

  lemma SwapDirect(p: Names2, bs: seq<Block>, executed: seq<string>)
    ensures AnyIn(DirectNames(SwapBlocks(p, bs)), SwapSeq(p, executed)) == AnyIn(DirectNames(bs), executed)
    decreases |bs|
  {
    if bs != [] {
      assert SwapBlocks(p, bs)[1..] == SwapBlocks(p, bs[1..]);
      DirectSplit(bs);
      DirectSplit(SwapBlocks(p, bs));
      if !bs[0].Parallel? { SwapMember(p, executed, bs[0].name); }
      SwapDirect(p, bs[1..], executed);
    }
  }

  lemma SwapTaken(p: Names2, e: Env, b: Block, m: Run)
    requires b.Conditional?
    ensures TakesThen(SwapEnv(p, e).world, SwapBlock(p, b), SwapRun(p, m).executed, SwapRun(p, m).ctx)
         == TakesThen(e.world, b, m.executed, m.ctx)
  {
    SwapDirect(p, b.thenSteps, m.executed);
    SwapDirect(p, b.elseSteps, m.executed);
    SwapKeysTwice(p, m.ctx);
  }

  /** A run of the renamed tree is the renamed run. */
  lemma {:induction false} SwapRunsAll(p: Names2, e: Env, bs: seq<Block>, m: Run)
    ensures RunAll(SwapEnv(p, e), SwapBlocks(p, bs), SwapRun(p, m)) == SwapRun(p, RunAll(e, bs, m))
    decreases bs
  {
    if bs != [] {
      assert SwapBlocks(p, bs)[0] == SwapBlock(p, bs[0]) && SwapBlocks(p, bs)[1..] == SwapBlocks(p, bs[1..]);
      SwapRunsOne(p, e, bs[0], m);
      SwapRunsAll(p, e, bs[1..], RunOne(e, bs[0], m));
    }
  }

  lemma {:induction false} SwapRunsOne(p: Names2, e: Env, b: Block, m: Run)
    ensures RunOne(SwapEnv(p, e), SwapBlock(p, b), SwapRun(p, m)) == SwapRun(p, RunOne(e, b, m))
    decreases b
  {
    match b
    case Step(_, _, _) => SwapStep(p, e, b, m);
    case Parallel(steps) => SwapRunsAll(p, e, steps, m);
    case Conditional(_, _, t, o) =>
      SwapTaken(p, e, b, m);
      SwapRunsAll(p, e, t, m);
      SwapRunsAll(p, e, o, m);
  }

  // ---------- The migration ----------

  /** The new name is free in the context, or means the same as the old one. */
  predicate ContextFree(c: Checkpoint, a: string, b: string) {
    b in c.context ==> a in c.context && c.context[a] == c.context[b]
  }

  /** No stored output tells the two names apart; a rename leaves outputs alone. */
  predicate OutputsFree(c: Checkpoint, a: string, b: string) {
    forall k :: k in c.results ==> SwapOutput(Names2(a, b), c.results[k].output) == c.results[k].output
  }

  /** When the rename to a name not yet executed exchanges the two names throughout. */
  lemma RenameIsSwap(c: Checkpoint, a: string, b: string)
    requires WellKept(c) && a != b && b !in c.executed
    ensures Renamed(c, a, b) == SwapCheckpoint(Names2(a, b), c) <==> ContextFree(c, a, b) && OutputsFree(c, a, b)
  {
    var p, r := Names2(a, b), Renamed(c, a, b);
    assert r.executed == SwapSeq(p, c.executed) by {
      forall i | 0 <= i < |c.executed| ensures r.executed[i] == Swap(p, c.executed[i]) {
        assert c.executed[i] in c.executed;
      }
    }
    RenameResults(c, a, b);
    RenameContext(c, a, b);
  }

  lemma RenameResults(c: Checkpoint, a: string, b: string)
    requires WellKept(c) && a != b && b !in c.executed
    ensures Renamed(c, a, b).results == SwapResults(Names2(a, b), c.results) <==> OutputsFree(c, a, b)
  {
    var p := Names2(a, b);
    var m, n := Renamed(c, a, b).results, SwapResults(p, c.results);
    if OutputsFree(c, a, b) {
      forall x: string ensures Agree(m, n, x) { RenamedAt(c, a, b, x); }
      AgreeingMaps(m, n);
    }
    if m == n {
      forall k | k in c.results ensures SwapOutput(p, c.results[k].output) == c.results[k].output {
        SwapTwice(p, k);
        RenamedAt(c, a, b, Swap(p, k));
      }
    }
  }

  /** At each key the renamed and the exchanged results differ in the output at most. */
  lemma RenamedAt(c: Checkpoint, a: string, b: string, x: string)
    requires WellKept(c) && a != b && b !in c.executed
    ensures var p := Names2(a, b);
            var m, n := Renamed(c, a, b).results, SwapResults(p, c.results);
            && (x in m <==> x in n) && (x in n <==> Swap(p, x) in c.results)
            && (x in n ==>
                  && m[x].output == c.results[Swap(p, x)].output
                  && n[x] == m[x].(output := SwapOutput(p, m[x].output)))
  {
    SwapKeysHas(Names2(a, b), SwapValues(Names2(a, b), c.results), x);
  }

  lemma RenameContext(c: Checkpoint, a: string, b: string)
    requires a != b
    ensures Renamed(c, a, b).context == SwapKeys(Names2(a, b), c.context) <==> ContextFree(c, a, b)
  {
    var p := Names2(a, b);
    var m, n := Renamed(c, a, b).context, SwapKeys(p, c.context);
    SwapKeysHas(p, c.context, a);
    if ContextFree(c, a, b) {
      forall x: string ensures Agree(m, n, x) { SwapKeysHas(p, c.context, x); }
      AgreeingMaps(m, n);
    }
  }

  /**
   * A rename migration commutes with resuming. In every environment the renamed checkpoint on the
   * renamed loop, whose steps return what the old ones do under the new name, runs as the old one
   * on the old loop. (Resuming reads the names, the results and the context of a checkpoint, so
   * the version and hash that a migration sets play no part.)
   */
  lemma RenameCommutes(e: Env, bs: seq<Block>, c: Checkpoint, a: string, b: string)
    requires WellKept(c) && a != b && b !in c.executed && ContextFree(c, a, b) && OutputsFree(c, a, b)
    ensures var p := Names2(a, b);
            RunAll(SwapEnv(p, e), SwapBlocks(p, bs), Restore(Renamed(c, a, b))) == SwapRun(p, RunAll(e, bs, Restore(c)))
  {
    var p := Names2(a, b);
    RenameIsSwap(c, a, b);
    assert Restore(Renamed(c, a, b)) == SwapRun(p, Restore(c));
    SwapRunsAll(p, e, bs, Restore(c));
  }

  // ---------- What the engine leaves in a checkpoint ----------

  /** Every result bears the name of its step. */
  ghost predicate Signed(w: World) {
    forall b: Block, ctx: Ctx :: b.Step? ==> w.result(b, ctx).stepName == b.name
  }

  /** `WellKept`, of what a walk keeps. */
  ghost predicate KeptWell(c: Core) {
    && Distinct(c.executed) && StoredAll(c.results) == c.results
    && forall k :: k in c.results ==> k in c.executed && c.results[k].stepName == k
  }

  lemma {:induction false} WalkKeepsWell(w: World, bs: seq<Block>, s: Walk, limit: int)
    requires Signed(w) && KeptWell(s.core)
    ensures KeptWell(WalkAll(w, bs, s, limit).core)
    ensures bs != [] ==> KeptWell(WalkOne(w, bs[0], s, limit).core)
  {
    if bs != [] {
      match bs[0] {
        case Step(name, _, _) =>
          var r := w.result(bs[0], s.core.ctx);
          StoredAllUpdate(s.core.results, name, Stored(r));
        case Parallel(steps) => WalkKeepsWell(w, steps, s, limit);
        case Conditional(_, _, t, e) => WalkKeepsWell(w, t, s, limit); WalkKeepsWell(w, e, s, limit);
      }
      WalkKeepsWell(w, bs[1..], WalkOne(w, bs[0], s, limit), limit);
    }
  }

  ghost predicate Indexed(saved: seq<Checkpoint>) {
    forall c :: c in saved ==> c.stepIndex == |c.executed|
  }

  lemma {:induction false} RunIndexes(e: Env, bs: seq<Block>, m: Run)
    requires Indexed(m.saved)
    ensures Indexed(RunAll(e, bs, m).saved)
    ensures bs != [] ==> Indexed(RunOne(e, bs[0], m).saved)
  {
    if bs != [] {
      match bs[0] {
        case Step(_, _, _) =>
        case Parallel(steps) => RunIndexes(e, steps, m);
        case Conditional(_, _, t, o) => RunIndexes(e, t, m); RunIndexes(e, o, m);
      }
      RunIndexes(e, bs[1..], RunOne(e, bs[0], m));
    }
  }

  /** Every checkpoint of every history is well kept. */
  lemma SavedWellKept(w: World, bs: seq<Block>, initial: Ctx, ss: seq<Session>, i: nat, c: Checkpoint)
    requires History(bs, initial, ss) && i < |ss| && Signed(w) && forall s :: s in ss ==> s.env.world == w
    requires c in Outcome(bs, initial, ss[i]).saved
    ensures WellKept(c)
  {
    forall c: Core, limit: int | KeptWell(c) ensures KeptWell(WalkAll(w, bs, Walk(c, false), limit).core) {
      WalkKeepsWell(w, bs, Walk(c, false), limit);
    }
    WorldKeeps(w, bs, initial, ss, i, c => KeptWell(c));
    assert KeptWell(Kept(c));
    var s := ss[i];
    RunIndexes(s.env, bs, if s.from.Some? then Restore(s.from.value) else Start(initial));
  }

  // ---------- Crash, migrate, resume ----------

  lemma SwapCore(p: Names2, m: Run, n: Run)
    requires CoreOf(m) == CoreOf(n)
    ensures CoreOf(SwapRun(p, m)) == CoreOf(SwapRun(p, n))
  {
    SwapStored(p, m.results);
    SwapStored(p, n.results);
  }

  lemma SwapFreeKeys<T>(p: Names2, m: map<string, T>)
    requires p.a !in m && p.b !in m
    ensures SwapKeys(p, m) == m
  {
    var n := SwapKeys(p, m);
    forall x: string ensures Agree(n, m, x) { SwapKeysHas(p, m, x); }
    AgreeingMaps(n, m);
  }

  lemma SwapNothing(p: Names2)
    ensures SwapResults(p, map[]) == map[] && SwapSeq(p, []) == [] && SwapSaved(p, []) == []
  {
    assert SwapValues(p, map[]) == map[];
    SwapFreeKeys(p, SwapValues(p, map[]));
  }

  lemma SwapStart(p: Names2, initial: Ctx)
    ensures SwapRun(p, Start(initial)) == Start(SwapKeys(p, initial))
  {
    SwapNothing(p);
  }

  /**
   * Crash, migrate, resume. A checkpoint of any history of a tree resumable when pruned, renamed and resumed on
   * the renamed tree, completes to the end of one uninterrupted run of the renamed tree. On a tree
   * that does not know the new name, the renamed tree is the same with the one name replaced.
   */
  lemma MigratedResumeEquivalence(
      e: Env, bs: seq<Block>, initial: Ctx, ss: seq<Session>, i: nat, c: Checkpoint, a: string, b: string)
    requires WellNamed(bs) && Resumable(Prune(bs), false) && History(bs, initial, ss) && i < |ss|
    requires Signed(e.world) && forall s :: s in ss ==> s.env.world == e.world
    requires c in Outcome(bs, initial, ss[i]).saved
    requires a != b && b !in c.executed && ContextFree(c, a, b) && OutputsFree(c, a, b)
    ensures var p := Names2(a, b);
            var r := RunAll(SwapEnv(p, e), SwapBlocks(p, bs), Restore(Renamed(c, a, b)));
            var calm := SwapEnv(p, Calm(e.loop, e.world));
            r.stop == Going ==> CoreOf(r) == CoreOf(RunAll(calm, SwapBlocks(p, bs), Start(SwapKeys(p, initial))))
    ensures b !in Names(bs) && a !in GroupNames(bs) && b !in GroupNames(bs) ==>
              Names(SwapBlocks(Names2(a, b), bs)) == RenamedNames(Names(bs), a, b)
    ensures a !in initial && b !in initial ==> SwapKeys(Names2(a, b), initial) == initial
  {
    var p, calm := Names2(a, b), Calm(e.loop, e.world);
    var more := ss + [Session(e, Some(c))];
    assert History(bs, initial, more) by { HistoryExtends(bs, initial, ss, i, e, c); }
    PrunedResumeEquivalence(e.loop, e.world, bs, initial, more, |ss|);
    assert more[|ss|] == Session(e, Some(c));
    SavedWellKept(e.world, bs, initial, ss, i, c);
    RenameCommutes(e, bs, c, a, b);
    SwapRunsAll(p, calm, bs, Start(initial));
    SwapStart(p, initial);
    var r, u := RunAll(e, bs, Restore(c)), RunAll(calm, bs, Start(initial));
    if r.stop == Going { SwapCore(p, r, u); }
    if b !in Names(bs) && a !in GroupNames(bs) && b !in GroupNames(bs) { SwapRenames(p, bs); }
    if a !in initial && b !in initial { SwapFreeKeys(p, initial); }
  }

  lemma HistoryExtends(bs: seq<Block>, initial: Ctx, ss: seq<Session>, i: nat, e: Env, c: Checkpoint)
    requires History(bs, initial, ss) && i < |ss| && c in Outcome(bs, initial, ss[i]).saved
    ensures History(bs, initial, ss + [Session(e, Some(c))])
  {
    var more := ss + [Session(e, Some(c))];
    forall k | 0 <= k < |more| && more[k].from.Some?
      ensures exists j :: 0 <= j < k && more[k].from.value in Outcome(bs, initial, more[j]).saved
    {
      if k < |ss| {
        var j :| 0 <= j < k && ss[k].from.value in Outcome(bs, initial, ss[j]).saved;
        assert more[j] == ss[j];
      } else {
        assert more[i] == ss[i];
      }
    }
  }

  /** What the exchange makes of a loop that does not know the new name. */
  lemma {:induction false} SwapRenames(p: Names2, bs: seq<Block>)
    requires p.b !in Names(bs) && p.a !in GroupNames(bs) && p.b !in GroupNames(bs)
    ensures Names(SwapBlocks(p, bs)) == RenamedNames(Names(bs), p.a, p.b)
              && GroupNames(SwapBlocks(p, bs)) == GroupNames(bs)
    decreases bs
  {
    if bs != [] {
      assert SwapBlocks(p, bs)[0] == SwapBlock(p, bs[0]) && SwapBlocks(p, bs)[1..] == SwapBlocks(p, bs[1..]);
      SwapRenamesOne(p, bs[0]);
      SwapRenames(p, bs[1..]);
    }
  }

  lemma {:induction false} SwapRenamesOne(p: Names2, b: Block)
    requires p.b !in NamesOf(b) && p.a !in GroupNamesOf(b) && p.b !in GroupNamesOf(b)
    ensures NamesOf(SwapBlock(p, b)) == RenamedNames(NamesOf(b), p.a, p.b)
              && GroupNamesOf(SwapBlock(p, b)) == GroupNamesOf(b)
    decreases b
  {
    match b
    case Step(_, _, _) =>
    case Parallel(steps) => SwapRenames(p, steps);
    case Conditional(_, _, t, e) => SwapRenames(p, t); SwapRenames(p, e);
  }
}
