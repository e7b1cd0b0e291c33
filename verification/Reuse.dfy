/**
 * Resuming twice from one checkpoint object (src/loopmaster/core/state.py, `init_run_state`). The
 * first run leaves its final context in the object, the executed names stay. This module says
 * exactly from which objects a second run ends as the first did: in every world from those, and
 * only those, from which no run can execute a step. So the guard of `Sharing` cannot be weakened.
 */
module Reuse {
  import opened Values
  import opened Blocks
  import opened Engine
  import opened Resume
  import opened ResumeExact
  import opened Literals
  import opened Safety
  import opened Sharing

  /** The checkpoint was saved by some session of some history in the world `w`. */
  ghost predicate MadeIn(w: World, bs: seq<Block>, initial: Ctx, c: Checkpoint) {
    exists ss: seq<Session>, i: nat :: MadeBy(w, bs, initial, ss, i, c)
  }

  ghost predicate MadeBy(w: World, bs: seq<Block>, initial: Ctx, ss: seq<Session>, i: nat, c: Checkpoint) {
    && History(bs, initial, ss) && i < |ss| && (forall s :: s in ss ==> s.env.world == w)
    && c in Outcome(bs, initial, ss[i]).saved
  }

  /** The object once the run of `e` was resumed from it. */
  function Used(e: Env, bs: seq<Block>, c: Checkpoint): Checkpoint {
    c.(context := RunAll(e, bs, Restore(c)).ctx)
  }

  /**
   * A second, undisturbed run from an object whose executed names are `ex` ends as the first would
   * have, whatever the world, the history that saved it, and the first run.
   */
  ghost predicate SecondAsFirst(loop: LoopId, bs: seq<Block>, ex: seq<string>) {
    forall w: World, initial: Ctx, c: Checkpoint, e: Env ::
      MadeIn(w, bs, initial, c) && c.executed == ex && e.world == w ==>
        CoreOf(RunAll(Calm(loop, w), bs, Restore(Used(e, bs, c)))) == CoreOf(RunAll(Calm(loop, w), bs, Restore(c)))
  }

  /** Some run from a checkpoint with these executed names executes a step. */
  ghost predicate CanMove(bs: seq<Block>, ex: seq<string>) {
    exists w: World, initial: Ctx, c: Checkpoint, e: Env :: Moves(w, bs, initial, c, e) && c.executed == ex
  }

  ghost predicate Moves(w: World, bs: seq<Block>, initial: Ctx, c: Checkpoint, e: Env) {
    MadeIn(w, bs, initial, c) && e.world == w && RunAll(e, bs, Restore(c)).executed != c.executed
  }

  // ---------- A world that remembers ----------

  /** A context that holds another one and the names of the steps that ran. */
  function Pack(ctx: Ctx, ran: Ctx): Ctx {
    map["" := Array([Object(ctx), Object(ran)])]
  }

  predicate Packed(ctx: Ctx) {
    && "" in ctx && ctx[""].Array? && |ctx[""].items| == 2
    && ctx[""].items[0].Object? && ctx[""].items[1].Object?
  }

  function Inner(ctx: Ctx): Ctx { if Packed(ctx) then ctx[""].items[0].fields else map[] }

  function Ran(ctx: Ctx): Ctx { if Packed(ctx) then ctx[""].items[1].fields else map[] }

  /** The result of a step, wrapped so that it notes the step, and complains if it was noted before. */
  function Noted(name: string, r: StepResult, ctx: Ctx): StepResult {
    StepResult(r.stepName, true, Updates(Pack(MergeOutput(name, r, Inner(ctx)), Ran(ctx)[name := Null])),
               if name in Ran(ctx) then Some("again") else None, r.tokens, r.cost)
  }

  /** The world `w` on the inner context, noting every step. */
  function Noting(w: World): World {
    World((b: Block, ctx: Ctx) =>
            if b.Step? then Noted(b.name, w.result(b, Inner(ctx)), ctx) else w.result(b, Inner(ctx)),
          (c: Condition, ctx: Ctx) => w.holds(c, Inner(ctx)))
  }

  function NotingEnv(e: Env): Env {
    e.(world := Noting(e.world))
  }

  lemma NotedMerge(name: string, r: StepResult, ctx: Ctx)
    requires ctx == Pack(Inner(ctx), Ran(ctx))
    ensures MergeOutput(name, Noted(name, r, ctx), ctx) ==
            Pack(MergeOutput(name, r, Inner(ctx)), Ran(ctx)[name := Null])
  {}

  /** `ctx` holds `inner`. */
  predicate Holds(ctx: Ctx, inner: Ctx) {
    ctx == Pack(inner, Ran(ctx))
  }

  /** The two runs executed the same steps at the same price, the second on packed contexts. */
  predicate Mirrors(m: Run, n: Run) {
    && n.executed == m.executed && Holds(n.ctx, m.ctx)
    && n.cost == m.cost && n.tokens == m.tokens && n.stop == m.stop
    && |n.saved| == |m.saved| && forall i :: 0 <= i < |m.saved| ==> MirrorsSaved(m.saved[i], n.saved[i])
  }

  predicate MirrorsSaved(c: Checkpoint, d: Checkpoint) {
    d.executed == c.executed && Holds(d.context, c.context)
  }

  lemma MirrorRemember(e: Env, m: Run, n: Run)
    requires Mirrors(m, n)
    ensures Mirrors(Remember(e, m), Remember(NotingEnv(e), n)) && Mirrors(Save(e, m), Save(NotingEnv(e), n))
  {}

  lemma MirrorApply(name: string, r: StepResult, m: Run, n: Run)
    requires Mirrors(m, n)
    ensures Mirrors(Apply(name, r, m), Apply(name, Noted(name, r, n.ctx), n))
  {
    NotedMerge(name, r, n.ctx);
  }

  lemma MirrorAfter(e: Env, name: string, r: StepResult, m: Run, n: Run)
    requires Mirrors(m, n)
    ensures Mirrors(AfterResult(e, name, r, m), AfterResult(NotingEnv(e), name, Noted(name, r, n.ctx), n))
  {
    var m2, n2 := Apply(name, r, m), Apply(name, Noted(name, r, n.ctx), n);
    MirrorApply(name, r, m, n);
    if e.fault(name).CallbackRaises? {
      MirrorBrokenOff(e, e.fault(name).loopError, CallbackRaised, m2, n2);
    } else {
      MirrorCounted(e, r, Noted(name, r, n.ctx), m2, n2);
    }
  }

  lemma MirrorBrokenOff(e: Env, loopError: bool, why: Stop, m: Run, n: Run)
    requires Mirrors(m, n)
    ensures Mirrors(BrokenOff(e, loopError, why, m), BrokenOff(NotingEnv(e), loopError, why, n))
  {
    MirrorRemember(e, m, n);
  }

  lemma MirrorCounted(e: Env, r: StepResult, q: StepResult, m: Run, n: Run)
    requires Mirrors(m, n) && q.cost == r.cost && q.tokens == r.tokens
    ensures Mirrors(Counted(e, r, m), Counted(NotingEnv(e), q, n))
  {
    var cost, tokens := m.cost + r.cost, m.tokens + r.tokens;
    MirrorRemember(e, m.(cost := cost, tokens := tokens), n.(cost := cost, tokens := tokens));
  }

  lemma MirrorExecute(e: Env, b: Block, m: Run, n: Run)
    requires b.Step? && Mirrors(m, n)
    ensures Mirrors(ExecuteStep(e, b, m), ExecuteStep(NotingEnv(e), b, n))
  {
    var f := NotingEnv(e);
    var m1 := if CheckpointBefore(e.protection) then Remember(e, m) else m;
    var n1 := if CheckpointBefore(e.protection) then Remember(f, n) else n;
    assert Mirrors(m1, n1) by { MirrorRemember(e, m, n); }
    if e.fault(b.name).StepRaises? {
      MirrorBrokenOff(e, e.fault(b.name).loopError, StepRaised, m1, n1);
    } else {
      MirrorAfter(e, b.name, e.world.result(b, m1.ctx), m1, n1);
    }
  }

  lemma MirrorStep(e: Env, b: Block, m: Run, n: Run)
    requires b.Step? && Mirrors(m, n)
    ensures Mirrors(RunStep(e, b, m), RunStep(NotingEnv(e), b, n))
  {
    var f := NotingEnv(e);
    if m.stop == Going && b.name !in m.executed && !e.fault(b.name).Cancelled? {
      var why := LimitHit(e, e.fault(b.name).HeartbeatLost?, |m.executed|, m.cost, m.tokens);
      assert why == LimitHit(f, f.fault(b.name).HeartbeatLost?, |n.executed|, n.cost, n.tokens);
      if why != Going { MirrorRemember(e, m, n); } else { MirrorExecute(e, b, m, n); }
    }
  }

  lemma MirrorTaken(e: Env, b: Block, m: Run, n: Run)
    requires b.Conditional? && Mirrors(m, n)
    ensures TakesThen(NotingEnv(e).world, b, n.executed, n.ctx) == TakesThen(e.world, b, m.executed, m.ctx)
  {
    assert Inner(n.ctx) == m.ctx;
  }

  /** In the noting world a run takes the same turns. */
  lemma {:induction false} MirrorAll(e: Env, bs: seq<Block>, m: Run, n: Run)
    requires Mirrors(m, n)
    ensures Mirrors(RunAll(e, bs, m), RunAll(NotingEnv(e), bs, n))
    decreases bs
  {
    if bs != [] {
      MirrorOne(e, bs[0], m, n);
      MirrorAll(e, bs[1..], RunOne(e, bs[0], m), RunOne(NotingEnv(e), bs[0], n));
    }
  }

  lemma {:induction false} MirrorOne(e: Env, b: Block, m: Run, n: Run)
    requires Mirrors(m, n)
    ensures Mirrors(RunOne(e, b, m), RunOne(NotingEnv(e), b, n))
    decreases b
  {
    match b
    case Step(_, _, _) => MirrorStep(e, b, m, n);
    case Parallel(steps) => MirrorAll(e, steps, m, n);
    case Conditional(_, _, t, o) =>
      MirrorTaken(e, b, m, n);
      MirrorAll(e, t, m, n);
      MirrorAll(e, o, m, n);
  }

  /** A history in the world `w` and its copy in the noting world. */
  ghost predicate Copies(w: World, bs: seq<Block>, initial: Ctx, ss: seq<Session>, ts: seq<Session>) {
    && History(bs, Pack(initial, map[]), ts) && |ts| == |ss| && (forall t :: t in ts ==> t.env.world == Noting(w))
    && forall i :: 0 <= i < |ss| ==> Mirrors(Outcome(bs, initial, ss[i]), Outcome(bs, Pack(initial, map[]), ts[i]))
  }

  lemma {:induction false} CopyHistory(w: World, bs: seq<Block>, initial: Ctx, ss: seq<Session>)
    returns (ts: seq<Session>)
    requires History(bs, initial, ss) && forall s :: s in ss ==> s.env.world == w
    ensures Copies(w, bs, initial, ss, ts)
    decreases |ss|
  {
    ts := [];
    if ss != [] {
      var n := |ss| - 1;
      var before, s := ss[..n], ss[n];
      assert forall i :: 0 <= i < n ==> before[i] == ss[i];
      assert s in ss;
      var us := CopyHistory(w, bs, initial, before);
      var t := CopySession(w, bs, initial, before, us, s);
      ts := us + [t];
      CopiesSnoc(w, bs, initial, ss, us, t);
    }
  }

  lemma CopiesSnoc(w: World, bs: seq<Block>, initial: Ctx, ss: seq<Session>, us: seq<Session>, t: Session)
    requires ss != [] && Copies(w, bs, initial, ss[..|ss| - 1], us) && t.env.world == Noting(w)
    requires t.from.Some? ==>
               exists j :: 0 <= j < |us| && t.from.value in Outcome(bs, Pack(initial, map[]), us[j]).saved
    requires Mirrors(Outcome(bs, initial, ss[|ss| - 1]), Outcome(bs, Pack(initial, map[]), t))
    ensures Copies(w, bs, initial, ss, us + [t])
  {
    var n, ts := |ss| - 1, us + [t];
    forall i | 0 <= i < |ts| && ts[i].from.Some?
      ensures exists j :: 0 <= j < i && ts[i].from.value in Outcome(bs, Pack(initial, map[]), ts[j]).saved
    {
      var j :| 0 <= j < i && j < |us| && ts[i].from.value in Outcome(bs, Pack(initial, map[]), us[j]).saved;
      assert ts[j] == us[j];
    }
    forall i | 0 <= i < |ss| ensures Mirrors(Outcome(bs, initial, ss[i]), Outcome(bs, Pack(initial, map[]), ts[i])) {
      if i < n { assert ss[..n][i] == ss[i] && ts[i] == us[i]; }
    }
  }

  lemma CopyOf(r: Run, q: Run, c: Checkpoint) returns (d: Checkpoint)
    requires Mirrors(r, q) && c in r.saved
    ensures d in q.saved && MirrorsSaved(c, d) && Mirrors(Restore(c), Restore(d))
  {
    var k :| 0 <= k < |r.saved| && r.saved[k] == c;
    d := q.saved[k];
  }

  lemma CopySession(w: World, bs: seq<Block>, initial: Ctx, ss: seq<Session>, ts: seq<Session>, s: Session)
    returns (t: Session)
    requires Copies(w, bs, initial, ss, ts) && s.env.world == w
    requires s.from.Some? ==> exists j :: 0 <= j < |ss| && s.from.value in Outcome(bs, initial, ss[j]).saved
    ensures t.env == NotingEnv(s.env) && Mirrors(Outcome(bs, initial, s), Outcome(bs, Pack(initial, map[]), t))
    ensures t.from.Some? ==>
              exists j :: 0 <= j < |ts| && t.from.value in Outcome(bs, Pack(initial, map[]), ts[j]).saved
  {
    if s.from.Some? {
      var j :| 0 <= j < |ss| && s.from.value in Outcome(bs, initial, ss[j]).saved;
      var d := CopyOf(Outcome(bs, initial, ss[j]), Outcome(bs, Pack(initial, map[]), ts[j]), s.from.value);
      t := Session(NotingEnv(s.env), Some(d));
      MirrorAll(s.env, bs, Restore(s.from.value), Restore(d));
    } else {
      t := Session(NotingEnv(s.env), None);
      MirrorAll(s.env, bs, Start(initial), Start(Pack(initial, map[])));
    }
  }

  // ---------- Complaints ----------

  /** Exactly the executed steps are noted, and none of them complained. */
  ghost predicate Clean(c: Core) {
    && Holds(c.ctx, Inner(c.ctx)) && Ran(c.ctx).Keys == Elements(c.executed) && Distinct(c.executed)
    && StoredAll(c.results) == c.results && forall n :: n in c.results ==> c.results[n].error == None
  }

  lemma {:induction false} CleanWalk(w: World, bs: seq<Block>, s: Walk, limit: int)
    requires Clean(s.core)
    ensures Clean(WalkAll(Noting(w), bs, s, limit).core)
    ensures bs != [] ==> Clean(WalkOne(Noting(w), bs[0], s, limit).core)
  {
    if bs != [] {
      match bs[0] {
        case Step(_, _, _) =>
          if bs[0].name !in s.core.executed { CleanStep(w, bs[0], s.core); }
        case Parallel(steps) => CleanWalk(w, steps, s, limit);
        case Conditional(_, _, t, e) => CleanWalk(w, t, s, limit); CleanWalk(w, e, s, limit);
      }
      CleanWalk(w, bs[1..], WalkOne(Noting(w), bs[0], s, limit), limit);
    }
  }

  lemma CleanStep(w: World, b: Block, c: Core)
    requires b.Step? && Clean(c) && b.name !in c.executed
    ensures Clean(Advance(Noting(w), b, c))
  {
    var r := w.result(b, Inner(c.ctx));
    NotedMerge(b.name, r, c.ctx);
    ElementsOfSum(c.executed, [b.name]);
    StoredAllUpdate(c.results, b.name, Stored(Noted(b.name, r, c.ctx)));
  }

  /** The step `x` is noted, and if it has run, it complained. */
  predicate Complains(c: Core, x: string) {
    && Holds(c.ctx, Inner(c.ctx)) && x in Ran(c.ctx)
    && (x in c.executed ==> x in c.results && c.results[x].error == Some("again"))
  }

  lemma {:induction false} ComplaintStays(w: World, bs: seq<Block>, s: Walk, limit: int, x: string)
    requires Complains(s.core, x)
    ensures Complains(WalkAll(Noting(w), bs, s, limit).core, x)
    ensures bs != [] ==> Complains(WalkOne(Noting(w), bs[0], s, limit).core, x)
  {
    if bs != [] {
      match bs[0] {
        case Step(_, _, _) =>
          NotedMerge(bs[0].name, w.result(bs[0], Inner(s.core.ctx)), s.core.ctx);
        case Parallel(steps) => ComplaintStays(w, steps, s, limit, x);
        case Conditional(_, _, t, e) => ComplaintStays(w, t, s, limit, x); ComplaintStays(w, e, s, limit, x);
      }
      ComplaintStays(w, bs[1..], WalkOne(Noting(w), bs[0], s, limit), limit, x);
    }
  }

  // ---------- The exact condition ----------

  /** If any run from `m` executes a step, the undisturbed one does. */
  lemma MovesCalmly(loop: LoopId, e: Env, bs: seq<Block>, m: Run)
    requires m.stop == Going && RunAll(e, bs, m).executed != m.executed
    ensures RunAll(Calm(loop, e.world), bs, m).executed != m.executed
  {
    var calm := Calm(loop, e.world);
    var r, q := RunAll(e, bs, m), RunAll(calm, bs, m);
    var s := Walk(CoreOf(m), false);
    RunIsWalk(e, bs, m);
    RunIsWalk(calm, bs, m);
    CalmGoes(loop, e.world, bs, m);
    assert r.executed == CoreOf(r).executed && q.executed == CoreOf(q).executed;
    WalkExtends(e.world, bs, s, |r.executed|);
    if |q.executed| <= |r.executed| { LimitRaised(e.world, bs, s, |q.executed|, |r.executed|); }
  }

  lemma MadeClean(w: World, bs: seq<Block>, initial: Ctx, c: Checkpoint)
    requires MadeIn(Noting(w), bs, Pack(initial, map[]), c)
    ensures Clean(Kept(c))
  {
    var ss: seq<Session>, i: nat :| MadeBy(Noting(w), bs, Pack(initial, map[]), ss, i, c);
    forall c: Core, limit: int | Clean(c) ensures Clean(WalkAll(Noting(w), bs, Walk(c, false), limit).core) {
      CleanWalk(w, bs, Walk(c, false), limit);
    }
    WorldKeeps(Noting(w), bs, Pack(initial, map[]), ss, i, c => Clean(c));
  }

  /** A calm run of the noting world from a clean checkpoint is clean. */
  lemma FirstRunClean(loop: LoopId, w: World, bs: seq<Block>, c: Checkpoint)
    requires Clean(Kept(c))
    ensures Clean(CoreOf(RunAll(Calm(loop, Noting(w)), bs, Restore(c))))
    ensures c.executed <= RunAll(Calm(loop, Noting(w)), bs, Restore(c)).executed
  {
    var calm := Calm(loop, Noting(w));
    CalmGoes(loop, Noting(w), bs, Restore(c));
    UnstoppedRun(calm, bs, Restore(c));
    assert CoreOf(Restore(c)) == Kept(c);
    CleanWalk(w, bs, Walk(Kept(c), false), |c.executed| + Longest(bs));
    RunGrows(calm, bs, Restore(c));
  }

  lemma SecondRunComplains(loop: LoopId, w: World, bs: seq<Block>, c: Checkpoint, x: string)
    requires Complains(Kept(c), x) && StoredAll(c.results) == c.results
    ensures Complains(CoreOf(RunAll(Calm(loop, Noting(w)), bs, Restore(c))), x)
  {
    var calm := Calm(loop, Noting(w));
    CalmGoes(loop, Noting(w), bs, Restore(c));
    UnstoppedRun(calm, bs, Restore(c));
    assert CoreOf(Restore(c)) == Kept(c);
    ComplaintStays(w, bs, Walk(Kept(c), false), |c.executed| + Longest(bs), x);
  }

  /** In the noting world a second run either executes other steps or one of them complains. */
  lemma SecondComplains(loop: LoopId, w: World, bs: seq<Block>, c: Checkpoint)
    requires Clean(Kept(c)) && RunAll(Calm(loop, Noting(w)), bs, Restore(c)).executed != c.executed
    ensures var calm := Calm(loop, Noting(w));
            CoreOf(RunAll(calm, bs, Restore(Used(calm, bs, c)))) != CoreOf(RunAll(calm, bs, Restore(c)))
  {
    var calm := Calm(loop, Noting(w));
    var used, r := Used(calm, bs, c), RunAll(calm, bs, Restore(c));
    FirstRunClean(loop, w, bs, c);
    var x := r.executed[|c.executed|];
    assert x in Elements(CoreOf(r).executed) && x in Ran(used.context);
    SecondRunComplains(loop, w, bs, used, x);
  }

  /**
   * Which objects may be resumed twice. A second run ends as the first did, in every world, exactly
   * when no run from such a checkpoint can execute a step.
   */
  lemma ReuseExactly(loop: LoopId, bs: seq<Block>, ex: seq<string>)
    ensures SecondAsFirst(loop, bs, ex) <==> !CanMove(bs, ex)
  {
    if CanMove(bs, ex) {
      MovingDiverges(loop, bs, ex);
    } else {
      forall w: World, initial: Ctx, c: Checkpoint, e: Env
        | MadeIn(w, bs, initial, c) && c.executed == ex && e.world == w
        ensures Used(e, bs, c) == c
      {
        assert !Moves(w, bs, initial, c, e);
        UnmovedContext(e, bs, Restore(c));
      }
    }
  }

  lemma MovingDiverges(loop: LoopId, bs: seq<Block>, ex: seq<string>)
    requires CanMove(bs, ex)
    ensures !SecondAsFirst(loop, bs, ex)
  {
    var w: World, initial: Ctx, c: Checkpoint, e: Env :| Moves(w, bs, initial, c, e) && c.executed == ex;
    var d := CopyMade(w, bs, initial, c);
    var calm := Calm(loop, w);
    MovesCalmly(loop, e, bs, Restore(c));
    MirrorAll(calm, bs, Restore(c), Restore(d));
    assert NotingEnv(calm) == Calm(loop, Noting(w));
    MadeClean(w, bs, initial, d);
    SecondComplains(loop, w, bs, d);
  }

  /** What was saved in the world `w` was saved in the noting world as well. */
  lemma CopyMade(w: World, bs: seq<Block>, initial: Ctx, c: Checkpoint) returns (d: Checkpoint)
    requires MadeIn(w, bs, initial, c)
    ensures MadeIn(Noting(w), bs, Pack(initial, map[]), d) && MirrorsSaved(c, d)
  {
    var ss: seq<Session>, i: nat :| MadeBy(w, bs, initial, ss, i, c);
    var ts := CopyHistory(w, bs, initial, ss);
    var r, q := Outcome(bs, initial, ss[i]), Outcome(bs, Pack(initial, map[]), ts[i]);
    assert Mirrors(r, q);
    d := CopyOf(r, q, c);
    assert MadeBy(Noting(w), bs, Pack(initial, map[]), ts, i, d);
  }

  // ---------- Against the uninterrupted run ----------

  /** A second run from an object with these executed names ends as one uninterrupted run does. */
  ghost predicate FaithfulFrom(loop: LoopId, bs: seq<Block>, ex: seq<string>) {
    forall w: World, initial: Ctx, c: Checkpoint, e: Env ::
      MadeIn(w, bs, initial, c) && c.executed == ex && e.world == w ==>
        CoreOf(RunAll(Calm(loop, w), bs, Restore(Used(e, bs, c)))) == CoreOf(RunAll(Calm(loop, w), bs, Start(initial)))
  }

  lemma FirstIsFaithful(loop: LoopId, w: World, bs: seq<Block>, initial: Ctx, c: Checkpoint)
    requires WellNamed(bs) && Resumable(Prune(bs), false) && MadeIn(w, bs, initial, c)
    ensures CoreOf(RunAll(Calm(loop, w), bs, Restore(c))) == CoreOf(RunAll(Calm(loop, w), bs, Start(initial)))
  {
    var ss: seq<Session>, i: nat :| MadeBy(w, bs, initial, ss, i, c);
    PrunedResumeEquivalence(loop, w, bs, initial, ss, i);
  }

  /** On a resumable tree a second run is faithful exactly when nothing can run from the checkpoint. */
  lemma FaithfulFromExactly(loop: LoopId, bs: seq<Block>, ex: seq<string>)
    requires WellNamed(bs) && Resumable(Prune(bs), false)
    ensures FaithfulFrom(loop, bs, ex) <==> !CanMove(bs, ex)
  {
    ReuseExactly(loop, bs, ex);
    forall w: World, initial: Ctx, c: Checkpoint | MadeIn(w, bs, initial, c) {
      FirstIsFaithful(loop, w, bs, initial, c);
    }
  }

  // ---------- Read off the tree ----------

  /** Along some choice of branches steps are left after `ex`. */
  ghost predicate Ahead(bs: seq<Block>, ex: seq<string>) {
    exists h: Choice :: ex < Path(h, Prune(bs))
  }

  /** The choices made while the context is `ctx`. */
  function Now(w: World, ctx: Ctx): Choice {
    c => w.holds(c, ctx)
  }

  /** If the path chosen at the start is empty, nothing ever runs. */
  lemma {:induction false} IdleWalk(w: World, bs: seq<Block>, initial: Ctx, limit: int)
    requires Path(Now(w, initial), Prune(bs)) == []
    ensures WalkAll(w, bs, Walk(Begin(initial), false), limit) == Walk(Begin(initial), false)
    decreases bs
  {
    if bs != [] {
      PruneSplit(bs);
      IdleWalkOne(w, bs[0], initial, limit);
      IdleWalk(w, bs[1..], initial, limit);
    }
  }

  lemma {:induction false} IdleWalkOne(w: World, b: Block, initial: Ctx, limit: int)
    requires PathOf(Now(w, initial), PruneOf(b)) == []
    ensures WalkOne(w, b, Walk(Begin(initial), false), limit) == Walk(Begin(initial), false)
    decreases b
  {
    match b
    case Step(_, _, _) =>
    case Parallel(steps) => IdleWalk(w, steps, initial, limit);
    case Conditional(_, _, t, e) =>
      if TakesThen(w, b, [], initial) { IdleWalk(w, t, initial, limit); } else { IdleWalk(w, e, initial, limit); }
  }

  lemma MoveStartsPath(w: World, bs: seq<Block>, initial: Ctx, c: Checkpoint, e: Env)
    requires Moves(w, bs, initial, c, e)
    ensures Path(Now(w, initial), Prune(bs)) != []
  {
    if Path(Now(w, initial), Prune(bs)) == [] {
      var ss: seq<Session>, i: nat :| MadeBy(w, bs, initial, ss, i, c);
      forall k: Core, limit: int | k == Begin(initial)
        ensures WalkAll(w, bs, Walk(k, false), limit).core == Begin(initial)
      {
        IdleWalk(w, bs, initial, limit);
      }
      WorldKeeps(w, bs, initial, ss, i, k => k == Begin(initial));
      assert CoreOf(Restore(c)) == Begin(initial);
      RunIsWalk(e, bs, Restore(c));
      IdleWalk(w, bs, initial, |RunAll(e, bs, Restore(c)).executed|);
    }
  }

  /** Conditions go by `h`, whatever happens. */
  function Steady(loop: LoopId, h: Choice): Env {
    var w := World((b: Block, ctx: Ctx) => StepResult("", true, NoOutput, None, 0, 0.0),
                   (c: Condition, ctx: Ctx) => h(c));
    Env(loop, w, _ => NoFault, None, Some(Protection(true, true, true)))
  }

  /** A protected run saves a checkpoint before its first step. */
  lemma {:induction false} SavesFirst(loop: LoopId, h: Choice, bs: seq<Block>)
    requires Path(h, Prune(bs)) != []
    ensures var r := RunAll(Steady(loop, h), bs, Start(map[]));
            r.saved != [] && r.saved[0] == MakeCheckpoint(loop, Start(map[])) && r.executed != []
    decreases bs
  {
    var e := Steady(loop, h);
    PruneSplit(bs);
    if PathOf(h, PruneOf(bs[0])) == [] {
      IdleOne(loop, h, bs[0]);
      SavesFirst(loop, h, bs[1..]);
    } else {
      SavesFirstOne(loop, h, bs[0]);
      RunGrows(e, bs[1..], RunOne(e, bs[0], Start(map[])));
    }
  }

  lemma {:induction false} SavesFirstOne(loop: LoopId, h: Choice, b: Block)
    requires PathOf(h, PruneOf(b)) != []
    ensures var r := RunOne(Steady(loop, h), b, Start(map[]));
            r.saved != [] && r.saved[0] == MakeCheckpoint(loop, Start(map[])) && r.executed != []
    decreases b
  {
    match b
    case Step(_, _, _) =>
    case Parallel(steps) => SavesFirst(loop, h, steps);
    case Conditional(_, _, t, e) =>
      if TakesThen(Steady(loop, h).world, b, [], map[]) { SavesFirst(loop, h, t); } else { SavesFirst(loop, h, e); }
  }

  lemma {:induction false} IdleAll(loop: LoopId, h: Choice, bs: seq<Block>)
    requires Path(h, Prune(bs)) == []
    ensures RunAll(Steady(loop, h), bs, Start(map[])) == Start(map[])
    decreases bs
  {
    if bs != [] {
      PruneSplit(bs);
      IdleOne(loop, h, bs[0]);
      IdleAll(loop, h, bs[1..]);
    }
  }

  lemma {:induction false} IdleOne(loop: LoopId, h: Choice, b: Block)
    requires PathOf(h, PruneOf(b)) == []
    ensures RunOne(Steady(loop, h), b, Start(map[])) == Start(map[])
    decreases b
  {
    match b
    case Step(_, _, _) =>
    case Parallel(steps) => IdleAll(loop, h, steps);
    case Conditional(_, _, t, e) =>
      if TakesThen(Steady(loop, h).world, b, [], map[]) { IdleAll(loop, h, t); } else { IdleAll(loop, h, e); }
  }

  /** From the checkpoint before the first step a run moves if any path has a step. */
  lemma StartMoves(loop: LoopId, bs: seq<Block>, h: Choice)
    requires Path(h, Prune(bs)) != []
    ensures CanMove(bs, [])
  {
    var e := Steady(loop, h);
    var w, c := e.world, MakeCheckpoint(loop, Start(map[]));
    SavesFirst(loop, h, bs);
    var ss := [Session(e, None)];
    assert Outcome(bs, map[], ss[0]).saved[0] == c;
    assert MadeBy(w, bs, map[], ss, 0, c);
    assert Restore(c) == Start(map[]);
    assert Moves(w, bs, map[], c, e);
  }

  /** If some run from some checkpoint moves, some path has a step. */
  lemma MoveIsAhead(bs: seq<Block>, ex: seq<string>)
    requires CanMove(bs, ex)
    ensures Ahead(bs, [])
  {
    var w: World, initial: Ctx, c: Checkpoint, e: Env :| Moves(w, bs, initial, c, e) && c.executed == ex;
    MoveStartsPath(w, bs, initial, c, e);
    assert [] < Path(Now(w, initial), Prune(bs));
  }

  /** Over all objects: a second run is always faithful exactly when no choice of branches has a step. */
  lemma AlwaysFaithfulExactly(loop: LoopId, bs: seq<Block>)
    requires WellNamed(bs) && Resumable(Prune(bs), false)
    ensures (forall ex: seq<string> :: FaithfulFrom(loop, bs, ex)) <==> !Ahead(bs, [])
    ensures Distinct(Conditions(Prune(bs))) ==> (Ahead(bs, []) <==> Longest(Prune(bs)) > 0)
  {
    if Ahead(bs, []) {
      var h: Choice :| [] < Path(h, Prune(bs));
      StartMoves(loop, bs, h);
      FaithfulFromExactly(loop, bs, []);
      PathInside(h, Prune(bs));
    } else {
      forall ex: seq<string> ensures FaithfulFrom(loop, bs, ex) {
        if CanMove(bs, ex) { MoveIsAhead(bs, ex); }
        FaithfulFromExactly(loop, bs, ex);
      }
    }
    if Distinct(Conditions(Prune(bs))) && Longest(Prune(bs)) > 0 {
      var h := Widest(Prune(bs));
      assert [] < Path(h, Prune(bs));
    }
  }

  /** A walk follows the path of the choices it makes. */
  lemma {:induction false} WalkFollows(w: World, bs: seq<Block>, s: Core, limit: int) returns (h: Choice)
    requires WellNamed(bs) && Independent(bs) && Avoids(s.executed, Labels(bs)) && limit >= |s.executed| + Longest(bs)
    ensures var r := WalkAll(w, bs, Walk(s, false), limit);
            !r.halted && r.core.executed == s.executed + Path(h, bs)
    decreases bs
  {
    h := _ => true;
    if bs != [] {
      var b, rest := bs[0], bs[1..];
      WellNamedParts(bs);
      Parts(bs);
      LabelsSplit(bs);
      var h1 := WalkFollowsOne(w, b, s, limit);
      var mid := WalkOne(w, b, Walk(s, false), limit).core;
      PathInside(h1, [b]);
      assert Path(h1, [b]) == PathOf(h1, b) && Names([b]) == NamesOf(b) && Longest([b]) == LongestOf(b);
      forall n | n in mid.executed ensures n !in Labels(rest) {
        if n !in s.executed { assert n in Elements(PathOf(h1, b)); }
      }
      var h2 := WalkFollows(w, rest, mid, limit);
      h := Mix(h1, ConditionsOf(b), h2);
      HeadAndTail(h, bs);
      ChoiceLocal(h, h1, [b], {});
      ChoiceLocal(h, h2, rest, {});
      SumAssociates(s.executed, PathOf(h1, b), Path(h2, rest));
    }
  }

  lemma {:induction false} WalkFollowsOne(w: World, b: Block, s: Core, limit: int) returns (h: Choice)
    requires WellNamed([b]) && Independent([b]) && Avoids(s.executed, LabelsOf(b))
               && limit >= |s.executed| + LongestOf(b)
    ensures var r := WalkOne(w, b, Walk(s, false), limit);
            !r.halted && r.core.executed == s.executed + PathOf(h, b)
    decreases b
  {
    h := _ => true;
    match b
    case Step(_, _, _) =>
    case Parallel(steps) =>
      WellNamedGroup(b);
      assert Conditions([b]) == Conditions(steps);
      h := WalkFollows(w, steps, s, limit);
    case Conditional(_, c, t, e) =>
      WellNamedBranches(b);
      LabelsOfBranches(b);
      IndependentBranches(b);
      FreshChoice(w, b, s);
      assert Conditions([b]) == [c] + (Conditions(t) + Conditions(e));
      assert c in Conditions([b]);
      var ht := WalkFollows(w, t, s, limit);
      var he := WalkFollows(w, e, s, limit);
      h := BothBranches(c, t, e, TakesThen(w, b, s.executed, s.ctx), ht, he);
  }

  /**
   * Read off the tree, when no condition is written twice outside never-taken branches: a run can
   * execute a step after `ex` exactly when along some choice of branches steps are left after it.
   */
  lemma CanMoveExactly(loop: LoopId, bs: seq<Block>, ex: seq<string>)
    requires WellNamed(bs) && Resumable(Prune(bs), false) && Distinct(Conditions(Prune(bs)))
    ensures CanMove(bs, ex) <==> Ahead(bs, ex)
  {
    PruneWellNamed(bs);
    PruneNoLiterals(bs);
    if CanMove(bs, ex) { MoveIsOnPath(loop, bs, ex); }
    if Ahead(bs, ex) {
      var h: Choice :| ex < Path(h, Prune(bs));
      if ex == [] { StartMoves(loop, bs, h); } else { PathMoves(loop, bs, h, ex); }
    }
  }

  lemma MoveIsOnPath(loop: LoopId, bs: seq<Block>, ex: seq<string>)
    requires WellNamed(bs) && Resumable(Prune(bs), false) && Distinct(Conditions(Prune(bs))) && CanMove(bs, ex)
    ensures Ahead(bs, ex)
  {
    var w: World, initial: Ctx, c: Checkpoint, e: Env :| Moves(w, bs, initial, c, e) && c.executed == ex;
    var calm := Calm(loop, w);
    assert ex < RunAll(calm, bs, Restore(c)).executed by {
      MovesCalmly(loop, e, bs, Restore(c));
      RunGrows(calm, bs, Restore(c));
    }
    FirstIsFaithful(loop, w, bs, initial, c);
    var h := UninterruptedFollows(loop, w, bs, initial);
    assert CoreOf(RunAll(calm, bs, Restore(c))).executed == Path(h, Prune(bs));
  }

  lemma UninterruptedFollows(loop: LoopId, w: World, bs: seq<Block>, initial: Ctx) returns (h: Choice)
    requires WellNamed(bs) && Distinct(Conditions(Prune(bs)))
    ensures CoreOf(RunAll(Calm(loop, w), bs, Start(initial))).executed == Path(h, Prune(bs))
  {
    var calm, m, qs := Calm(loop, w), Start(initial), Prune(bs);
    PruneWellNamed(bs);
    PruneNoLiterals(bs);
    PruneFaithful(loop, bs, w, initial, MakeCheckpoint(loop, m));
    CalmGoes(loop, w, qs, m);
    UnstoppedRun(calm, qs, m);
    assert CoreOf(m) == Begin(initial);
    h := WalkFollows(w, qs, Begin(initial), Longest(qs));
  }

  lemma PathMoves(loop: LoopId, bs: seq<Block>, h: Choice, ex: seq<string>)
    requires WellNamed(bs) && Resumable(Prune(bs), false) && [] < ex < Path(h, Prune(bs))
    ensures CanMove(bs, ex)
  {
    var w, qs, p := FlipWorld(h, Constant(true), ""), Prune(bs), Path(h, Prune(bs));
    var calm := Calm(loop, w);
    PruneWellNamed(bs);
    SteadyWalk(h, qs, Longest(qs)) by { PruneNoLiterals(bs); }
    SteadyWalk(h, qs, |ex|) by { PruneNoLiterals(bs); }
    PathInside(h, qs);
    var c := CutIsSaved(loop, w, qs, map[], |ex|);
    assert c.executed == Kept(c).executed == ex;
    PruneFaithful(loop, bs, w, map[], c);
    assert MadeIn(w, bs, map[], c) by {
      var ss := [Session(calm, None)];
      assert Outcome(bs, map[], ss[0]) == RunAll(calm, bs, Start(map[]));
      assert MadeBy(w, bs, map[], ss, 0, c);
    }
    FirstIsFaithful(loop, w, bs, map[], c);
    assert CoreOf(RunAll(calm, bs, Restore(c))).executed == p;
    assert Moves(w, bs, map[], c, calm);
  }

  /** With choices that never change, a walk goes along the path. */
  lemma SteadyWalk(h: Choice, bs: seq<Block>, limit: nat)
    requires WellNamed(bs) && NoLiterals(Conditions(bs))
    ensures WalkAll(FlipWorld(h, Constant(true), ""), bs, Walk(Begin(map[]), false), limit).core.executed
         == UpTo(Path(h, bs), limit)
  {
    NotAfterElsewhere(bs, Constant(true), "");
    assert [] + Path(h, bs) == Path(h, bs);
    FirstWalk(FlipWorld(h, Constant(true), ""), h, Constant(true), "", bs, Begin(map[]), limit);
  }

  // ---------- The guard is exact ----------

  /**
   * As soon as a guarded launch from an object executes a step, there is a world in which the next
   * run from such an object, after such a launch, ends differently.
   */
  lemma GuardExact(loop: LoopId, w: World, bs: seq<Block>, initial: Ctx, ls: seq<Launch>, j: nat)
    requires Possible(bs, initial, ls) && Guarded(bs, initial, ls) && forall l :: l in ls ==> l.env.world == w
    requires j < |ls| && ls[j].source.FromObject? && Moved(bs, initial, ls, j)
    ensures CanMove(bs, StartOf(bs, initial, ls, j).executed)
              && !SecondAsFirst(loop, bs, StartOf(bs, initial, ls, j).executed)
  {
    var c := MadeByLaunch(w, bs, initial, ls, j);
    assert Moves(w, bs, initial, c, ls[j].env);
    ReuseExactly(loop, bs, c.executed);
  }

  /** What a guarded launch from an object starts from was made in the launches' world. */
  lemma MadeByLaunch(w: World, bs: seq<Block>, initial: Ctx, ls: seq<Launch>, j: nat) returns (c: Checkpoint)
    requires Possible(bs, initial, ls) && Guarded(bs, initial, ls) && forall l :: l in ls ==> l.env.world == w
    requires j < |ls| && ls[j].source.FromObject?
    ensures MadeIn(w, bs, initial, c) && StartOf(bs, initial, ls, j).executed == c.executed
    ensures EndOf(bs, initial, ls, j) == RunAll(ls[j].env, bs, Restore(c))
  {
    var ss := Sessions(bs, initial, ls);
    assert History(bs, initial, ss) by { GuardedIsHistory(bs, initial, ls); }
    GuardedStart(bs, initial, ls, j);
    ObjectNames(bs, initial, ls[..j], ls[j].source.k);
    assert ss[j] == SessionOf(bs, initial, ls, j);
    c := ss[j].from.value;
    var i :| 0 <= i < j && c in Outcome(bs, initial, ss[i]).saved;
    forall s | s in ss ensures s.env.world == w {
      var k :| 0 <= k < |ss| && ss[k] == s;
      assert ls[k] in ls;
    }
    assert MadeBy(w, bs, initial, ss, i, c);
  }

  /** Whatever is launched from it, an object keeps its executed names. */
  lemma {:induction false} ObjectNames(bs: seq<Block>, initial: Ctx, ls: seq<Launch>, k: nat)
    ensures var mem := After(bs, initial, ls);
            |mem.objects| == |mem.stored| && (k < |mem.objects| ==> mem.objects[k].executed == mem.stored[k].executed)
    decreases |ls|
  {
    if ls != [] { ObjectNames(bs, initial, ls[..|ls| - 1], k); }
  }

  // ---------- Concrete divergences ----------

  /** A checkpoint saved before the only step of a loop. */
  lemma OneStepDiverges(loop: LoopId, x: string, a: Action)
    ensures !FaithfulFrom(loop, [Step(x, a, false)], [])
  {
    var bs := [Step(x, a, false)];
    SingleStep(x, a);
    var h: Choice := _ => true;
    assert Prune(bs) == [PruneOf(bs[0])] + Prune(bs[1..]) == bs;
    assert Path(h, bs) == [x] + Path(h, bs[1..]);
    FaithfulFromExactly(loop, bs, []);
    StartMoves(loop, bs, h);
  }

  /** A checkpoint saved between two steps. */
  lemma TwoStepsDiverge(loop: LoopId, x: string, y: string, a: Action)
    requires x != y
    ensures !FaithfulFrom(loop, [Step(x, a, false), Step(y, a, false)], [x])
  {
    var bs := [Step(x, a, false), Step(y, a, false)];
    var h: Choice := _ => true;
    PairSplit(bs[0], bs[1]);
    assert Conditions(bs) == ConditionsOf(bs[0]) + Conditions(bs[1..]) && Conditions(bs[1..]) == [] + [];
    SingleStep(y, a);
    assert bs[1..] == [bs[1]];
    assert Path(h, bs[1..]) == [y] + [] && Path(h, bs) == [x] + Path(h, bs[1..]);
    assert [x] < Path(h, Prune(bs));
    CanMoveExactly(loop, bs, [x]);
    FaithfulFromExactly(loop, bs, [x]);
  }
}
