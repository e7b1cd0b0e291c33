/**
 * Crash/resume equivalence. `WalkAll` is the run reduced to what a checkpoint keeps, with a
 * limit on the number of executed steps in place of everything that can stop a run: a run that
 * stops anywhere leaves, and checkpoints, such limited walks. For a resumable tree, continuing
 * from a limited walk is the same as never having stopped.
 */
module Resume {
  import opened Values
  import opened Blocks
  import opened Engine

  datatype Core = Core(executed: seq<string>, results: map<string, StepResult>, ctx: Ctx)

  datatype Walk = Walk(core: Core, halted: bool)

  function Begin(initial: Ctx): Core {
    Core([], map[], initial)
  }

  /** Execute one step: what a checkpoint taken right after it holds. */
  function Advance(w: World, b: Block, c: Core): Core
    requires b.Step?
  {
    var r := w.result(b, c.ctx);
    Core(c.executed + [b.name], c.results[b.name := Stored(r)], MergeOutput(b.name, r, c.ctx))
  }

  function WalkOne(w: World, b: Block, s: Walk, limit: int): Walk {
    match b
    case Step(name, _, _) =>
      if s.halted || name in s.core.executed then s
      else if |s.core.executed| >= limit then s.(halted := true)
      else Walk(Advance(w, b, s.core), false)
    case Parallel(steps) => WalkAll(w, steps, s, limit)
    case Conditional(_, _, t, e) =>
      if TakesThen(w, b, s.core.executed, s.core.ctx) then WalkAll(w, t, s, limit) else WalkAll(w, e, s, limit)
  }

  /** Walk the blocks in order, halting at the step that would exceed the limit. */
  function WalkAll(w: World, bs: seq<Block>, s: Walk, limit: int): Walk {
    if bs == [] then s else WalkAll(w, bs[1..], WalkOne(w, bs[0], s, limit), limit)
  }

  /** The uninterrupted run. */
  function Complete(w: World, bs: seq<Block>, c: Core): Core {
    WalkAll(w, bs, Walk(c, false), |c.executed| + Longest(bs)).core
  }

  // ---------- General facts about walks ----------

  lemma {:induction false} HaltedStays(w: World, bs: seq<Block>, s: Walk, limit: int)
    requires s.halted
    ensures WalkAll(w, bs, s, limit) == s
    ensures bs != [] ==> WalkOne(w, bs[0], s, limit) == s
  {
    if bs != [] {
      match bs[0] {
        case Step(_, _, _) =>
        case Parallel(steps) => HaltedStays(w, steps, s, limit);
        case Conditional(_, _, t, e) => HaltedStays(w, t, s, limit); HaltedStays(w, e, s, limit);
      }
      HaltedStays(w, bs[1..], s, limit);
    }
  }

  /** `c2` continues `c1` by executing further steps, all from `names`. */
  ghost predicate Extends(c1: Core, c2: Core, names: set<string>) {
    && c1.executed <= c2.executed
    && (forall n :: n in c2.executed && n !in c1.executed ==> n in names)
    && (|c1.executed| == |c2.executed| ==> c1 == c2)
  }

  lemma WalkExtends(w: World, bs: seq<Block>, s: Walk, limit: int)
    ensures Extends(s.core, WalkAll(w, bs, s, limit).core, NameSet(bs))
    ensures bs != [] ==> Extends(s.core, WalkOne(w, bs[0], s, limit).core, Elements(NamesOf(bs[0])))
    ensures |WalkAll(w, bs, s, limit).core.executed| <= |s.core.executed| + Longest(bs)
    ensures bs != [] ==> |WalkOne(w, bs[0], s, limit).core.executed| <= |s.core.executed| + LongestOf(bs[0])
    ensures !s.halted && WalkAll(w, bs, s, limit).halted ==>
              limit <= |WalkAll(w, bs, s, limit).core.executed| < |s.core.executed| + Longest(bs)
    ensures bs != [] && !s.halted && WalkOne(w, bs[0], s, limit).halted ==>
              limit <= |WalkOne(w, bs[0], s, limit).core.executed| < |s.core.executed| + LongestOf(bs[0])
  {
    WalkGrows(w, bs, s, limit);
    WalkBounded(w, bs, s, limit);
  }

  lemma {:induction false} WalkGrows(w: World, bs: seq<Block>, s: Walk, limit: int)
    ensures Extends(s.core, WalkAll(w, bs, s, limit).core, NameSet(bs))
    ensures bs != [] ==> Extends(s.core, WalkOne(w, bs[0], s, limit).core, Elements(NamesOf(bs[0])))
  {
    if bs != [] {
      match bs[0] {
        case Step(_, _, _) =>
        case Parallel(steps) => WalkGrows(w, steps, s, limit);
        case Conditional(_, _, t, e) =>
          WalkGrows(w, t, s, limit);
          WalkGrows(w, e, s, limit);
          ElementsOfSum(Names(t), Names(e));
      }
      WalkGrows(w, bs[1..], WalkOne(w, bs[0], s, limit), limit);
      ElementsOfSum(NamesOf(bs[0]), Names(bs[1..]));
    }
  }

  lemma {:induction false} WalkBounded(w: World, bs: seq<Block>, s: Walk, limit: int)
    ensures |WalkAll(w, bs, s, limit).core.executed| <= |s.core.executed| + Longest(bs)
    ensures bs != [] ==> |WalkOne(w, bs[0], s, limit).core.executed| <= |s.core.executed| + LongestOf(bs[0])
    ensures !s.halted && WalkAll(w, bs, s, limit).halted ==>
              limit <= |WalkAll(w, bs, s, limit).core.executed| < |s.core.executed| + Longest(bs)
    ensures bs != [] && !s.halted && WalkOne(w, bs[0], s, limit).halted ==>
              limit <= |WalkOne(w, bs[0], s, limit).core.executed| < |s.core.executed| + LongestOf(bs[0])
  {
    if bs != [] {
      match bs[0] {
        case Step(_, _, _) =>
        case Parallel(steps) => WalkBounded(w, steps, s, limit);
        case Conditional(_, _, t, e) => WalkBounded(w, t, s, limit); WalkBounded(w, e, s, limit);
      }
      var mid := WalkOne(w, bs[0], s, limit);
      WalkBounded(w, bs[1..], mid, limit);
      if mid.halted { HaltedStays(w, bs[1..], mid, limit); }
    }
  }

  // ---------- Branch choice ----------

  function Labels(bs: seq<Block>): set<string> {
    NameSet(bs) + GroupNames(bs)
  }

  function LabelsOf(b: Block): set<string> {
    Elements(NamesOf(b)) + GroupNamesOf(b)
  }

  lemma LabelsSplit(bs: seq<Block>)
    requires bs != []
    ensures Labels(bs) == LabelsOf(bs[0]) + Labels(bs[1..])
  {
    ElementsOfSum(NamesOf(bs[0]), Names(bs[1..]));
  }

  lemma LabelsOfBranches(b: Block)
    requires b.Conditional?
    ensures LabelsOf(b) == {b.name} + Labels(b.thenSteps) + Labels(b.elseSteps)
  {
    ElementsOfSum(Names(b.thenSteps), Names(b.elseSteps));
  }

  /** Two sets of executed names that agree on `labels`. */
  ghost predicate SameOn(ex: set<string>, ex2: set<string>, labels: set<string>) {
    forall n :: n in labels ==> (n in ex <==> n in ex2)
  }

  lemma MeetsExecuted(names: set<string>, executed: seq<string>)
    ensures AnyIn(names, executed) <==> names * Elements(executed) != {}
  {
    if AnyIn(names, executed) {
      var n :| n in names && n in executed;
      assert n in names * Elements(executed);
    }
    if names * Elements(executed) != {} {
      var n :| n in names * Elements(executed);
    }
  }

  /** While no direct child ran, the condition decides. */
  lemma FreshChoice(w: World, b: Block, c: Core)
    requires b.Conditional? && Avoids(c.executed, LabelsOf(b))
    ensures TakesThen(w, b, c.executed, c.ctx) == Evaluate(w, b.condition, c.ctx)
  {
    LabelsOfBranches(b);
    DirectNamesInside(b.thenSteps);
    DirectNamesInside(b.elseSteps);
  }

  /** Walking steps-free blocks changes nothing. */
  lemma {:induction false} EmptyIdle(w: World, bs: seq<Block>, s: Walk, limit: int)
    requires Names(bs) == []
    ensures WalkAll(w, bs, s, limit) == s
    ensures bs != [] ==> WalkOne(w, bs[0], s, limit) == s
  {
    if bs != [] {
      match bs[0] {
        case Parallel(steps) => EmptyIdle(w, steps, s, limit);
        case Conditional(_, _, t, e) => EmptyIdle(w, t, s, limit); EmptyIdle(w, e, s, limit);
      }
      EmptyIdle(w, bs[1..], s, limit);
    }
  }

  /** An anchored branch that executed anything, or completed, executed one of its direct steps. */
  lemma {:induction false} AnchorRuns(w: World, bs: seq<Block>, c: Core, limit: int)
    requires Anchored(bs)
    ensures var r := WalkAll(w, bs, Walk(c, false), limit);
            (r.core == c && r.halted) || AnyIn(DirectNames(bs), r.core.executed)
  {
    var s := Walk(c, false);
    var r := WalkAll(w, bs, s, limit);
    if NamesOf(bs[0]) != [] {
      var mid := WalkOne(w, bs[0], s, limit);
      if mid.halted {
        HaltedStays(w, bs[1..], mid, limit);
      } else {
        WalkExtends(w, bs[1..], mid, limit);
        assert bs[0].name in DirectNames(bs) && bs[0].name in mid.core.executed;
      }
    } else {
      assert Names([bs[0]]) == [];
      EmptyIdle(w, [bs[0]], s, limit);
      AnchorRuns(w, bs[1..], c, limit);
      assert DirectNames(bs[1..]) <= DirectNames(bs);
    }
  }

  /** Once a direct step of one branch ran, and no label of the other, the branch is kept. */
  lemma StuckChoice(w: World, b: Block, c: Core)
    requires b.Conditional?
    ensures AnyIn(DirectNames(b.thenSteps), c.executed) ==> TakesThen(w, b, c.executed, c.ctx)
    ensures AnyIn(DirectNames(b.elseSteps), c.executed) && Avoids(c.executed, Labels(b.thenSteps)) ==>
              !TakesThen(w, b, c.executed, c.ctx)
  {
    DirectNamesInside(b.thenSteps);
  }

  // ---------- What is done stays done ----------

  /** `c2` is `c1`, or `c1` after steps that carry none of `labels`; the latter only if `followed`. */
  ghost predicate Later(c1: Core, c2: Core, labels: set<string>, followed: bool) {
    && c1.executed <= c2.executed
    && (forall n :: n in c2.executed && n !in c1.executed ==> n !in labels)
    && (|c1.executed| == |c2.executed| ==> c1 == c2)
    && (c1 != c2 ==> followed)
  }

  /** Blocks completed from a state where none of them ran are skipped whole by any later walk. */
  lemma {:induction false} DoneAll(w: World, bs: seq<Block>, c: Core, limit: int, c2: Core, limit2: int, followed: bool)
    requires WellNamed(bs) && Resumable(bs, followed) && Avoids(c.executed, Labels(bs))
    requires !WalkAll(w, bs, Walk(c, false), limit).halted
    requires Later(WalkAll(w, bs, Walk(c, false), limit).core, c2, Labels(bs), followed)
    ensures WalkAll(w, bs, Walk(c2, false), limit2) == Walk(c2, false)
    decreases bs
  {
    if bs != [] {
      var mid := WalkOne(w, bs[0], Walk(c, false), limit);
      if mid.halted { HaltedStays(w, bs[1..], mid, limit); }
      WellNamedParts(bs);
      LabelsSplit(bs);
      WalkExtends(w, bs, Walk(c, false), limit);
      WalkExtends(w, bs[1..], mid, limit);
      if Names(bs[1..]) == [] { EmptyIdle(w, bs[1..], mid, limit); }
      DoneOne(w, bs[0], c, limit, c2, limit2, followed || Names(bs[1..]) != []);
      DoneAll(w, bs[1..], mid.core, limit, c2, limit2, followed);
    }
  }

  lemma {:induction false} DoneOne(w: World, b: Block, c: Core, limit: int, c2: Core, limit2: int, followed: bool)
    requires WellNamed([b]) && ResumableOf(b, followed) && Avoids(c.executed, LabelsOf(b))
    requires !WalkOne(w, b, Walk(c, false), limit).halted
    requires Later(WalkOne(w, b, Walk(c, false), limit).core, c2, LabelsOf(b), followed)
    ensures WalkOne(w, b, Walk(c2, false), limit2) == Walk(c2, false)
    decreases b
  {
    match b
    case Step(name, _, _) =>
      assert name in WalkOne(w, b, Walk(c, false), limit).core.executed;
    case Parallel(steps) =>
      WellNamedGroup(b);
      DoneAll(w, steps, c, limit, c2, limit2, followed);
    case Conditional(_, _, t, e) =>
      WellNamedBranches(b);
      LabelsOfBranches(b);
      FreshChoice(w, b, c);
      var (taken, other) := if Evaluate(w, b.condition, c.ctx) then (t, e) else (e, t);
      WalkExtends(w, taken, Walk(c, false), limit);
      EmptyBranchesIdle(w, b, Walk(c2, false), limit2);
      EmptyBranchesIdle(w, b, Walk(c, false), limit);
      if Names(taken) != [] {
        DoneAll(w, taken, c, limit, c2, limit2, followed);
        if Names(other) != [] {
          AnchorRuns(w, taken, c, limit);
          StuckChoice(w, b, c2);
        }
      }
  }

  lemma EmptyBranchesIdle(w: World, b: Block, s: Walk, limit: int)
    requires b.Conditional?
    ensures Names(b.thenSteps) == [] ==> WalkAll(w, b.thenSteps, s, limit) == s
    ensures Names(b.elseSteps) == [] ==> WalkAll(w, b.elseSteps, s, limit) == s
  {
    if Names(b.thenSteps) == [] { EmptyIdle(w, b.thenSteps, s, limit); }
    if Names(b.elseSteps) == [] { EmptyIdle(w, b.elseSteps, s, limit); }
  }

  // ---------- Continuing is the same as not having stopped ----------

  /** A walk that completed under a limit completes the same way under a larger one. */
  lemma {:induction false} LimitRaised(w: World, bs: seq<Block>, s: Walk, limit: int, limit2: int)
    requires limit <= limit2
    ensures !WalkAll(w, bs, s, limit).halted ==> WalkAll(w, bs, s, limit2) == WalkAll(w, bs, s, limit)
    ensures bs != [] && !WalkOne(w, bs[0], s, limit).halted ==>
              WalkOne(w, bs[0], s, limit2) == WalkOne(w, bs[0], s, limit)
  {
    if bs != [] {
      match bs[0] {
        case Step(_, _, _) =>
        case Parallel(steps) => LimitRaised(w, steps, s, limit, limit2);
        case Conditional(_, _, t, e) =>
          LimitRaised(w, t, s, limit, limit2);
          LimitRaised(w, e, s, limit, limit2);
      }
      var mid := WalkOne(w, bs[0], s, limit);
      if mid.halted {
        HaltedStays(w, bs[1..], mid, limit);
      } else {
        LimitRaised(w, bs[1..], mid, limit, limit2);
      }
    }
  }

  /** With the limit used up nothing more is executed. */
  lemma {:induction false} NothingLeft(w: World, bs: seq<Block>, s: Walk, limit: int)
    requires limit <= |s.core.executed|
    ensures WalkAll(w, bs, s, limit).core == s.core
    ensures bs != [] ==> WalkOne(w, bs[0], s, limit).core == s.core
  {
    if bs != [] {
      match bs[0] {
        case Step(_, _, _) =>
        case Parallel(steps) => NothingLeft(w, steps, s, limit);
        case Conditional(_, _, t, e) => NothingLeft(w, t, s, limit); NothingLeft(w, e, s, limit);
      }
      NothingLeft(w, bs[1..], WalkOne(w, bs[0], s, limit), limit);
    }
  }

  /** Continuing a halted walk gives what an unhalted walk would have given. */
  lemma {:induction false} ContinueAll(w: World, bs: seq<Block>, c: Core, limit: int, limit2: int, followed: bool)
    requires WellNamed(bs) && Resumable(bs, followed) && Avoids(c.executed, Labels(bs)) && limit <= limit2
    requires WalkAll(w, bs, Walk(c, false), limit).halted
    ensures WalkAll(w, bs, Walk(WalkAll(w, bs, Walk(c, false), limit).core, false), limit2)
         == WalkAll(w, bs, Walk(c, false), limit2)
    decreases bs
  {
    var s := Walk(c, false);
    var mid := WalkOne(w, bs[0], s, limit);
    var end := WalkAll(w, bs, s, limit);
    var after := followed || Names(bs[1..]) != [];
    WellNamedParts(bs);
    LabelsSplit(bs);
    if mid.halted {
      HaltedStays(w, bs[1..], mid, limit);
      ContinueOne(w, bs[0], c, limit, limit2, after);
    } else {
      WalkExtends(w, bs, s, limit);
      WalkExtends(w, bs[1..], mid, limit);
      if Names(bs[1..]) == [] { EmptyIdle(w, bs[1..], mid, limit); }
      DoneOne(w, bs[0], c, limit, end.core, limit2, after);
      LimitRaised(w, bs, s, limit, limit2);
      ContinueAll(w, bs[1..], mid.core, limit, limit2, followed);
    }
  }

  lemma {:induction false} ContinueOne(w: World, b: Block, c: Core, limit: int, limit2: int, followed: bool)
    requires WellNamed([b]) && ResumableOf(b, followed) && Avoids(c.executed, LabelsOf(b)) && limit <= limit2
    requires WalkOne(w, b, Walk(c, false), limit).halted
    ensures WalkOne(w, b, Walk(WalkOne(w, b, Walk(c, false), limit).core, false), limit2)
         == WalkOne(w, b, Walk(c, false), limit2)
    decreases b
  {
    match b
    case Step(_, _, _) =>
    case Parallel(steps) =>
      WellNamedGroup(b);
      ContinueAll(w, steps, c, limit, limit2, followed);
    case Conditional(_, _, t, e) =>
      WellNamedBranches(b);
      LabelsOfBranches(b);
      FreshChoice(w, b, c);
      var (taken, other) := if Evaluate(w, b.condition, c.ctx) then (t, e) else (e, t);
      var end := WalkAll(w, taken, Walk(c, false), limit);
      WalkExtends(w, taken, Walk(c, false), limit);
      EmptyBranchesIdle(w, b, Walk(c, false), limit);
      ContinueAll(w, taken, c, limit, limit2, followed);
      if end.core != c {
        AnchorRunsIf(w, taken, c, limit);
        StuckChoice(w, b, end.core);
      }
  }

  lemma AnchorRunsIf(w: World, bs: seq<Block>, c: Core, limit: int)
    ensures Anchored(bs) && WalkAll(w, bs, Walk(c, false), limit).core != c ==>
              AnyIn(DirectNames(bs), WalkAll(w, bs, Walk(c, false), limit).core.executed)
  {
    if Anchored(bs) { AnchorRuns(w, bs, c, limit); }
  }

  /** `c` is where a run of `bs` from `c0` may have been stopped. */
  ghost predicate OnTrace(w: World, bs: seq<Block>, c0: Core, c: Core) {
    exists limit :: WalkAll(w, bs, Walk(c0, false), limit).core == c
  }

  /** Stopping and walking on any number of times never leaves the trace, nor changes its end. */
  lemma TraceClosed(w: World, bs: seq<Block>, c0: Core, limit: int, limit2: int)
    requires WellNamed(bs) && Resumable(bs, false) && Avoids(c0.executed, Labels(bs))
    ensures var c := WalkAll(w, bs, Walk(c0, false), limit).core;
            OnTrace(w, bs, c0, WalkAll(w, bs, Walk(c, false), limit2).core) && Complete(w, bs, c) == Complete(w, bs, c0)
  {
    var s := Walk(c0, false);
    var r := WalkAll(w, bs, s, limit);
    var c := r.core;
    var top := |c0.executed| + Longest(bs);
    WalkExtends(w, bs, s, limit);
    WalkExtends(w, bs, s, top);
    assert OnTrace(w, bs, c0, c);
    if !r.halted {
      DoneAll(w, bs, c0, limit, c, limit2, false);
      DoneAll(w, bs, c0, limit, c, |c.executed| + Longest(bs), false);
      LimitRaised(w, bs, s, limit, if limit < top then top else limit);
      LimitRaised(w, bs, s, top, if limit < top then top else limit);
    } else {
      ContinueAll(w, bs, c0, limit, |c.executed| + Longest(bs), false);
      LimitRaised(w, bs, s, top, |c.executed| + Longest(bs));
      if limit <= limit2 {
        ContinueAll(w, bs, c0, limit, limit2, false);
      } else {
        NothingLeft(w, bs, Walk(c, false), limit2);
      }
    }
  }

  // ---------- Runs are limited walks ----------

  function CoreOf(m: Run): Core {
    Core(m.executed, StoredAll(m.results), m.ctx)
  }

  function Kept(c: Checkpoint): Core {
    Core(c.executed, c.results, c.context)
  }

  /** Checkpoints made by a run on top of `m.saved` are walks limited to their own step count. */
  ghost predicate SavesWalks(w: World, bs: seq<Block>, m: Run, r: Run) {
    && m.saved <= r.saved
    && forall i :: |m.saved| <= i < |r.saved| ==>
         WalkAll(w, bs, Walk(CoreOf(m), false), |r.saved[i].executed|).core == Kept(r.saved[i])
  }

  lemma {:induction false} RunIsWalk(e: Env, bs: seq<Block>, m: Run)
    requires m.stop == Going
    ensures var r := RunAll(e, bs, m);
            var k := WalkAll(e.world, bs, Walk(CoreOf(m), false), |r.executed|);
            && k.core == CoreOf(r)
            && (r.stop == Going ==> !k.halted)
            && SavesWalks(e.world, bs, m, r)
    decreases bs
  {
    var r := RunAll(e, bs, m);
    if bs != [] {
      var mid := RunOne(e, bs[0], m);
      var s := Walk(CoreOf(m), false);
      RunOneIsWalk(e, bs[0], m);
      PrefixWalks(e.world, bs, CoreOf(m), |mid.executed|);
      forall i | |m.saved| <= i < |mid.saved|
        ensures WalkAll(e.world, bs, s, |mid.saved[i].executed|).core == Kept(mid.saved[i])
      {
        PrefixWalks(e.world, bs, CoreOf(m), |mid.saved[i].executed|);
      }
      if mid.stop != Going {
        StoppedStays(e, bs[1..], mid);
      } else {
        RunIsWalk(e, bs[1..], mid);
        RunGrows(e, bs[1..], mid);
        LimitRaised(e.world, bs, s, |mid.executed|, |r.executed|);
        forall i | |mid.saved| <= i < |r.saved|
          ensures WalkAll(e.world, bs, s, |r.saved[i].executed|).core == Kept(r.saved[i])
        {
          LimitRaised(e.world, bs, s, |mid.executed|, |r.saved[i].executed|);
        }
      }
    }
  }

  lemma {:induction false} RunOneIsWalk(e: Env, b: Block, m: Run)
    requires m.stop == Going
    ensures var r := RunOne(e, b, m);
            var k := WalkOne(e.world, b, Walk(CoreOf(m), false), |r.executed|);
            && k.core == CoreOf(r)
            && (r.stop == Going ==> !k.halted)
            && m.saved <= r.saved
            && forall i :: |m.saved| <= i < |r.saved| ==>
                 WalkOne(e.world, b, Walk(CoreOf(m), false), |r.saved[i].executed|).core == Kept(r.saved[i])
    decreases b
  {
    match b
    case Step(_, _, _) => RunStepIsWalk(e, b, m);
    case Parallel(steps) => RunIsWalk(e, steps, m);
    case Conditional(_, _, t, f) => RunIsWalk(e, t, m); RunIsWalk(e, f, m);
  }

  /** Checkpoints added on top of `m.saved` are `before` or `after`. */
  ghost predicate SavesOnly(m: Run, r: Run, before: Core, after: Core) {
    && m.saved <= r.saved
    && forall i :: |m.saved| <= i < |r.saved| ==> Kept(r.saved[i]) == before || Kept(r.saved[i]) == after
  }

  lemma RememberKeeps(e: Env, m: Run)
    ensures CoreOf(Remember(e, m)) == CoreOf(m)
    ensures Remember(e, m).saved == m.saved + [MakeCheckpoint(e.loop, m)]
    ensures Kept(MakeCheckpoint(e.loop, m)) == CoreOf(m)
  {}

  /** A step either leaves the core alone or advances it by that step. */
  lemma StepOutcome(e: Env, b: Block, m: Run)
    requires m.stop == Going && b.Step?
    ensures var r := RunStep(e, b, m);
            || (CoreOf(r) == CoreOf(m) && SavesOnly(m, r, CoreOf(m), CoreOf(m))
               && (r.stop == Going ==> b.name in m.executed))
            || (CoreOf(r) == Advance(e.world, b, CoreOf(m)) && SavesOnly(m, r, CoreOf(m), CoreOf(r))
               && b.name !in m.executed)
  {
    var why := LimitHit(e, e.fault(b.name).HeartbeatLost?, |m.executed|, m.cost, m.tokens);
    if b.name !in m.executed && !e.fault(b.name).Cancelled? && why == Going {
      ExecuteOutcome(e, b, m);
    }
  }

  lemma ExecuteOutcome(e: Env, b: Block, m: Run)
    requires m.stop == Going && b.Step?
    ensures var r := ExecuteStep(e, b, m);
            || (CoreOf(r) == CoreOf(m) && SavesOnly(m, r, CoreOf(m), CoreOf(m)) && r.stop != Going)
            || (CoreOf(r) == Advance(e.world, b, CoreOf(m)) && SavesOnly(m, r, CoreOf(m), CoreOf(r)))
  {
    var m1 := if CheckpointBefore(e.protection) then Remember(e, m) else m;
    RememberKeeps(e, m);
    RememberKeeps(e, m1);
    assert SavesOnly(m, m1, CoreOf(m), CoreOf(m));
    if !e.fault(b.name).StepRaises? {
      var res := e.world.result(b, m1.ctx);
      StoredAllUpdate(m1.results, b.name, res);
      var m2 := Apply(b.name, res, m1);
      var m3 := m2.(cost := m2.cost + res.cost, tokens := m2.tokens + res.tokens);
      RememberKeeps(e, m2);
      RememberKeeps(e, m3);
    }
  }

  lemma RunStepIsWalk(e: Env, b: Block, m: Run)
    requires m.stop == Going && b.Step?
    ensures var r := RunOne(e, b, m);
            var k := WalkOne(e.world, b, Walk(CoreOf(m), false), |r.executed|);
            && k.core == CoreOf(r)
            && (r.stop == Going ==> !k.halted)
            && m.saved <= r.saved
            && forall i :: |m.saved| <= i < |r.saved| ==>
                 WalkOne(e.world, b, Walk(CoreOf(m), false), |r.saved[i].executed|).core == Kept(r.saved[i])
  {
    StepOutcome(e, b, m);
    var r := RunStep(e, b, m);
    forall i | |m.saved| <= i < |r.saved|
      ensures WalkOne(e.world, b, Walk(CoreOf(m), false), |r.saved[i].executed|).core == Kept(r.saved[i])
    {
      assert |r.saved[i].executed| == |Kept(r.saved[i]).executed|;
    }
  }

  lemma PrefixWalks(w: World, bs: seq<Block>, c: Core, limit: int)
    requires bs != [] && limit <= |WalkOne(w, bs[0], Walk(c, false), limit).core.executed|
    ensures WalkAll(w, bs, Walk(c, false), limit).core == WalkOne(w, bs[0], Walk(c, false), limit).core
  {
    NothingLeft(w, bs[1..], WalkOne(w, bs[0], Walk(c, false), limit), limit);
  }

  lemma {:induction false} RunGrows(e: Env, bs: seq<Block>, m: Run)
    ensures var r := RunAll(e, bs, m);
            && m.executed <= r.executed && m.saved <= r.saved
            && forall i :: |m.saved| <= i < |r.saved| ==> m.executed <= r.saved[i].executed
    ensures bs != [] ==>
              var r := RunOne(e, bs[0], m);
              && m.executed <= r.executed && m.saved <= r.saved
              && forall i :: |m.saved| <= i < |r.saved| ==> m.executed <= r.saved[i].executed
  {
    if bs != [] {
      match bs[0] {
        case Step(_, _, _) =>
          if m.stop == Going {
            StepOutcome(e, bs[0], m);
            assert forall i :: |m.saved| <= i < |RunOne(e, bs[0], m).saved| ==>
              RunOne(e, bs[0], m).saved[i].executed == Kept(RunOne(e, bs[0], m).saved[i]).executed;
            assert CoreOf(RunOne(e, bs[0], m)).executed == RunOne(e, bs[0], m).executed;
          }
        case Parallel(steps) => RunGrows(e, steps, m);
        case Conditional(_, _, t, f) => RunGrows(e, t, m); RunGrows(e, f, m);
      }
      RunGrows(e, bs[1..], RunOne(e, bs[0], m));
    }
  }

  // ---------- Whole histories of interrupted runs ----------

  /** Nothing interferes: no fault, no budget, checkpoint after every step. */
  function Calm(loop: LoopId, w: World): Env {
    Env(loop, w, _ => NoFault, None, None)
  }

  lemma {:induction false} CalmGoes(loop: LoopId, w: World, bs: seq<Block>, m: Run)
    requires m.stop == Going
    ensures RunAll(Calm(loop, w), bs, m).stop == Going
    ensures bs != [] ==> RunOne(Calm(loop, w), bs[0], m).stop == Going
  {
    if bs != [] {
      match bs[0] {
        case Step(_, _, _) =>
        case Parallel(steps) => CalmGoes(loop, w, steps, m);
        case Conditional(_, _, t, e) => CalmGoes(loop, w, t, m); CalmGoes(loop, w, e, m);
      }
      CalmGoes(loop, w, bs[1..], RunOne(Calm(loop, w), bs[0], m));
    }
  }

  /** A run that was not stopped ends where the unlimited walk ends. */
  lemma UnstoppedRun(e: Env, bs: seq<Block>, m: Run)
    requires m.stop == Going && RunAll(e, bs, m).stop == Going
    ensures CoreOf(RunAll(e, bs, m)) == Complete(e.world, bs, CoreOf(m))
  {
    var r := RunAll(e, bs, m);
    var top := |m.executed| + Longest(bs);
    var s := Walk(CoreOf(m), false);
    RunIsWalk(e, bs, m);
    WalkExtends(e.world, bs, s, |r.executed|);
    WalkExtends(e.world, bs, s, top);
    assert |CoreOf(r).executed| == |r.executed| && |CoreOf(m).executed| == |m.executed|;
    LimitRaised(e.world, bs, s, |r.executed|, top);
  }

  lemma {:induction false} WalkStores(w: World, bs: seq<Block>, s: Walk, limit: int)
    requires StoredAll(s.core.results) == s.core.results
    ensures StoredAll(WalkAll(w, bs, s, limit).core.results) == WalkAll(w, bs, s, limit).core.results
    ensures bs != [] ==>
              StoredAll(WalkOne(w, bs[0], s, limit).core.results) == WalkOne(w, bs[0], s, limit).core.results
  {
    if bs != [] {
      match bs[0] {
        case Step(name, _, _) =>
          var r := w.result(bs[0], s.core.ctx);
          StoredAllUpdate(s.core.results, name, Stored(r));
        case Parallel(steps) => WalkStores(w, steps, s, limit);
        case Conditional(_, _, t, e) => WalkStores(w, t, s, limit); WalkStores(w, e, s, limit);
      }
      WalkStores(w, bs[1..], WalkOne(w, bs[0], s, limit), limit);
    }
  }

  /** One run of the loop: from the initial context, or from a checkpoint. */
  datatype Session = Session(env: Env, from: Option<Checkpoint>)

  function Outcome(bs: seq<Block>, initial: Ctx, s: Session): Run {
    RunAll(s.env, bs, if s.from.Some? then Restore(s.from.value) else Start(initial))
  }

  /** Every resumed session starts from a checkpoint that some earlier session made. */
  ghost predicate History(bs: seq<Block>, initial: Ctx, ss: seq<Session>) {
    forall i :: 0 <= i < |ss| && ss[i].from.Some? ==>
      exists j :: 0 <= j < i && ss[i].from.value in Outcome(bs, initial, ss[j]).saved
  }

  /** Every checkpoint the session left can be completed to the uninterrupted end. */
  ghost predicate Faithful(w: World, bs: seq<Block>, initial: Ctx, r: Run) {
    && (r.stop == Going ==> CoreOf(r) == Complete(w, bs, Begin(initial)))
    && forall c :: c in r.saved ==> OnTrace(w, bs, Begin(initial), Kept(c))
  }

  lemma {:induction false} FaithfulHistory(w: World, bs: seq<Block>, initial: Ctx, ss: seq<Session>, i: nat)
    requires WellNamed(bs) && Resumable(bs, false) && History(bs, initial, ss) && i < |ss|
    requires forall s :: s in ss ==> s.env.world == w
    ensures Faithful(w, bs, initial, Outcome(bs, initial, ss[i]))
    decreases i
  {
    var s, c0 := ss[i], Begin(initial);
    var m := if s.from.Some? then Restore(s.from.value) else Start(initial);
    if s.from.Some? {
      var j :| 0 <= j < i && s.from.value in Outcome(bs, initial, ss[j]).saved;
      FaithfulHistory(w, bs, initial, ss, j);
    } else {
      assert WalkAll(w, bs, Walk(c0, false), 0).core == CoreOf(m) by { NothingLeft(w, bs, Walk(c0, false), 0); }
      assert OnTrace(w, bs, c0, CoreOf(m));
    }
    var limit :| WalkAll(w, bs, Walk(c0, false), limit).core ==
        (if s.from.Some? then Kept(s.from.value) else CoreOf(m));
    WalkStores(w, bs, Walk(c0, false), limit);
    assert CoreOf(m) == WalkAll(w, bs, Walk(c0, false), limit).core;
    RunIsWalk(s.env, bs, m);
    TraceClosed(w, bs, c0, limit, 0);
    var r := RunAll(s.env, bs, m);
    if r.stop == Going { UnstoppedRun(s.env, bs, m); }
    forall c | c in r.saved ensures OnTrace(w, bs, c0, Kept(c)) {
      var k :| 0 <= k < |r.saved| && r.saved[k] == c;
      TraceClosed(w, bs, c0, limit, |c.executed|);
    }
  }

  /**
   * Crash/resume equivalence. However often the runs of a resumable tree were stopped, and from
   * whichever checkpoints they were resumed: a session that completes ends with the executed
   * order, context and stored results of one uninterrupted run, and so does calmly resuming any
   * checkpoint ever made.
   */
  lemma CrashResumeEquivalence(loop: LoopId, w: World, bs: seq<Block>, initial: Ctx, ss: seq<Session>, i: nat)
    requires WellNamed(bs) && Resumable(bs, false) && History(bs, initial, ss) && i < |ss|
    requires forall s :: s in ss ==> s.env.world == w
    ensures var uninterrupted := CoreOf(RunAll(Calm(loop, w), bs, Start(initial)));
            var r := Outcome(bs, initial, ss[i]);
            && (r.stop == Going ==> CoreOf(r) == uninterrupted)
            && forall c :: c in r.saved ==> CoreOf(RunAll(Calm(loop, w), bs, Restore(c))) == uninterrupted
  {
    var calm := Calm(loop, w);
    CalmGoes(loop, w, bs, Start(initial));
    UnstoppedRun(calm, bs, Start(initial));
    assert CoreOf(Start(initial)) == Begin(initial);
    FaithfulHistory(w, bs, initial, ss, i);
    var r := Outcome(bs, initial, ss[i]);
    forall c | c in r.saved ensures CoreOf(RunAll(calm, bs, Restore(c))) == Complete(w, bs, Begin(initial)) {
      var limit :| WalkAll(w, bs, Walk(Begin(initial), false), limit).core == Kept(c);
      WalkStores(w, bs, Walk(Begin(initial), false), limit);
      assert CoreOf(Restore(c)) == Kept(c);
      TraceClosed(w, bs, Begin(initial), limit, 0);
      CalmGoes(loop, w, bs, Restore(c));
      UnstoppedRun(calm, bs, Restore(c));
    }
  }
}
