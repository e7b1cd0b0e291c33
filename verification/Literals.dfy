/**
 * Conditionals on a boolean literal, which the engine accepts. `Prune` replaces each by the branch
 * it always takes, as a parallel group, so that nothing sticks where nothing stuck before. A tree
 * and its pruned form run alike in every history, so the conditions of `ResumeExact`, `BranchExact`
 * and `OrderExact` are those of the pruned form. They are exact when no condition is written twice.
 */
module Literals {
  import opened Values
  import opened Blocks
  import opened Engine
  import opened Resume
  import opened ResumeExact
  import opened Safety
  import opened BranchExact

  function Prune(bs: seq<Block>): seq<Block> {
    if bs == [] then [] else [PruneOf(bs[0])] + Prune(bs[1..])
  }

  function PruneOf(b: Block): Block {
    match b
    case Step(_, _, _) => b
    case Parallel(steps) => Parallel(Prune(steps))
    case Conditional(name, c, t, e) =>
      if c.Constant? then Parallel(Prune(if c.truth then t else e)) else Conditional(name, c, Prune(t), Prune(e))
  }

  /** The names of steps in branches that are never taken. */
  function Dead(bs: seq<Block>): set<string> {
    if bs == [] then {} else DeadOf(bs[0]) + Dead(bs[1..])
  }

  function DeadOf(b: Block): set<string> {
    match b
    case Step(_, _, _) => {}
    case Parallel(steps) => Dead(steps)
    case Conditional(_, c, t, e) =>
      if c.Constant? then (if c.truth then Dead(t) + NameSet(e) else NameSet(t) + Dead(e)) else Dead(t) + Dead(e)
  }

  // ---------- What pruning keeps ----------

  lemma NamesSplit(bs: seq<Block>)
    requires bs != []
    ensures NameSet(bs) == Elements(NamesOf(bs[0])) + NameSet(bs[1..])
    ensures Distinct(Names(bs)) <==>
              Distinct(NamesOf(bs[0])) && Distinct(Names(bs[1..])) && Elements(NamesOf(bs[0])) !! NameSet(bs[1..])
  {
    ElementsOfSum(NamesOf(bs[0]), Names(bs[1..]));
    DistinctParts(NamesOf(bs[0]), Names(bs[1..]));
  }

  lemma BranchNames(b: Block)
    requires b.Conditional?
    ensures Elements(NamesOf(b)) == NameSet(b.thenSteps) + NameSet(b.elseSteps)
    ensures Distinct(NamesOf(b)) <==>
              Distinct(Names(b.thenSteps)) && Distinct(Names(b.elseSteps))
                  && NameSet(b.thenSteps) !! NameSet(b.elseSteps)
  {
    ElementsOfSum(Names(b.thenSteps), Names(b.elseSteps));
    DistinctParts(Names(b.thenSteps), Names(b.elseSteps));
  }

  lemma PruneSplit(bs: seq<Block>)
    requires bs != []
    ensures Prune(bs) != [] && Prune(bs)[0] == PruneOf(bs[0]) && Prune(bs)[1..] == Prune(bs[1..])
  {
    assert Prune(bs)[1..] == Prune(bs[1..]);
  }

  lemma {:induction false} PruneNames(bs: seq<Block>)
    ensures NameSet(Prune(bs)) + Dead(bs) == NameSet(bs)
    ensures Distinct(Names(bs)) ==> Distinct(Names(Prune(bs))) && NameSet(Prune(bs)) !! Dead(bs)
    ensures GroupNames(Prune(bs)) <= GroupNames(bs)
    decreases bs
  {
    if bs != [] {
      NamesSplit(bs);
      PruneSplit(bs);
      NamesSplit(Prune(bs));
      PruneNamesOf(bs[0]);
      PruneNames(bs[1..]);
    }
  }

  lemma {:induction false} PruneNamesOf(b: Block)
    ensures Elements(NamesOf(PruneOf(b))) + DeadOf(b) == Elements(NamesOf(b))
    ensures Distinct(NamesOf(b)) ==> Distinct(NamesOf(PruneOf(b))) && Elements(NamesOf(PruneOf(b))) !! DeadOf(b)
    ensures GroupNamesOf(PruneOf(b)) <= GroupNamesOf(b)
    decreases b
  {
    match b
    case Step(_, _, _) =>
    case Parallel(steps) => PruneNames(steps);
    case Conditional(_, c, t, e) =>
      PruneNames(t);
      PruneNames(e);
      BranchNames(b);
      if !c.Constant? { BranchNames(PruneOf(b)); }
  }

  /** The names no run of the tree may have executed. */
  function Barred(bs: seq<Block>): set<string> {
    GroupNames(bs) + Dead(bs)
  }

  lemma PruneWellNamed(bs: seq<Block>)
    requires WellNamed(bs)
    ensures WellNamed(Prune(bs)) && NameSet(Prune(bs)) !! Barred(bs)
  {
    PruneNames(bs);
  }

  lemma {:induction false} PruneNoLiterals(bs: seq<Block>)
    ensures NoLiterals(Conditions(Prune(bs)))
    ensures bs != [] ==> NoLiterals(ConditionsOf(PruneOf(bs[0])))
  {
    if bs != [] {
      PruneSplit(bs);
      match bs[0] {
        case Step(_, _, _) =>
        case Parallel(steps) => PruneNoLiterals(steps);
        case Conditional(_, _, t, e) => PruneNoLiterals(t); PruneNoLiterals(e);
      }
      PruneNoLiterals(bs[1..]);
    }
  }

  // ---------- Runs agree ----------

  lemma {:induction false} PruneDirect(bs: seq<Block>, executed: seq<string>)
    requires Avoids(executed, GroupNames(bs))
    ensures AnyIn(DirectNames(Prune(bs)), executed) == AnyIn(DirectNames(bs), executed)
  {
    if bs != [] {
      PruneSplit(bs);
      DirectSplit(bs);
      DirectSplit(Prune(bs));
      PruneDirect(bs[1..], executed);
    }
  }

  /** A branch that never ran has no executed direct child. */
  lemma NoneDirect(bs: seq<Block>, executed: seq<string>)
    requires Avoids(executed, Labels(bs))
    ensures !AnyIn(DirectNames(bs), executed)
  {
    DirectNamesInside(bs);
  }

  lemma LiteralTaken(w: World, b: Block, executed: seq<string>, ctx: Ctx)
    requires b.Conditional? && b.condition.Constant?
    requires Avoids(executed, GroupNamesOf(b) + DeadOf(b))
    ensures TakesThen(w, b, executed, ctx) == b.condition.truth
  {
    NoneDirectIf(if b.condition.truth then b.elseSteps else b.thenSteps, executed, GroupNamesOf(b) + DeadOf(b));
  }

  lemma NoneDirectIf(bs: seq<Block>, executed: seq<string>, barred: set<string>)
    requires Labels(bs) <= barred && Avoids(executed, barred)
    ensures !AnyIn(DirectNames(bs), executed)
  {
    NoneDirect(bs, executed);
  }

  lemma {:induction false} PruneRunsAll(e: Env, bs: seq<Block>, m: Run, barred: set<string>)
    requires Barred(bs) <= barred && NameSet(Prune(bs)) !! barred && Avoids(m.executed, barred)
    ensures RunAll(e, Prune(bs), m) == RunAll(e, bs, m) && Avoids(RunAll(e, bs, m).executed, barred)
    decreases bs
  {
    if bs != [] {
      PruneSplit(bs);
      NamesSplit(Prune(bs));
      PruneRunsOne(e, bs[0], m, barred);
      PruneRunsAll(e, bs[1..], RunOne(e, bs[0], m), barred);
    }
  }

  lemma {:induction false} PruneRunsOne(e: Env, b: Block, m: Run, barred: set<string>)
    requires GroupNamesOf(b) + DeadOf(b) <= barred && Elements(NamesOf(PruneOf(b))) !! barred
               && Avoids(m.executed, barred)
    ensures RunOne(e, PruneOf(b), m) == RunOne(e, b, m) && Avoids(RunOne(e, b, m).executed, barred)
    decreases b
  {
    match b
    case Step(name, _, _) =>
      StepExecutes(e, b, m);
      assert name in Elements(NamesOf(b));
    case Parallel(steps) =>
      PruneRunsAll(e, steps, m, barred);
    case Conditional(_, c, t, o) =>
      if c.Constant? {
        LiteralTaken(e.world, b, m.executed, m.ctx);
        PruneRunsAll(e, if c.truth then t else o, m, barred);
      } else {
        BranchNames(PruneOf(b));
        PruneDirect(t, m.executed);
        PruneDirect(o, m.executed);
        PruneRunsAll(e, t, m, barred);
        PruneRunsAll(e, o, m, barred);
      }
  }

  /** No history of the pruned tree executes a barred name. */
  lemma NeverBarred(bs: seq<Block>, initial: Ctx, ss: seq<Session>, i: nat)
    requires WellNamed(bs) && History(Prune(bs), initial, ss) && i < |ss|
    ensures Avoids(Outcome(Prune(bs), initial, ss[i]).executed, Barred(bs))
    ensures forall c :: c in Outcome(Prune(bs), initial, ss[i]).saved ==> Avoids(c.executed, Barred(bs))
  {
    PruneWellNamed(bs);
    var barred := Barred(bs);
    forall w: World, c: Core, limit: int | Avoids(c.executed, barred)
      ensures Avoids(WalkAll(w, Prune(bs), Walk(c, false), limit).core.executed, barred)
    {
      WalkExtends(w, Prune(bs), Walk(c, false), limit);
    }
    HistoryKeeps(Prune(bs), initial, ss, i, ex => Avoids(ex, barred));
  }

  lemma PruneOutcome(bs: seq<Block>, initial: Ctx, ss: seq<Session>, i: nat)
    requires WellNamed(bs) && History(Prune(bs), initial, ss) && i < |ss|
    ensures Outcome(Prune(bs), initial, ss[i]) == Outcome(bs, initial, ss[i])
  {
    PruneWellNamed(bs);
    var s := ss[i];
    if s.from.Some? {
      var j :| 0 <= j < i && s.from.value in Outcome(Prune(bs), initial, ss[j]).saved;
      NeverBarred(bs, initial, ss, j);
    }
    PruneRunsAll(s.env, bs, if s.from.Some? then Restore(s.from.value) else Start(initial), Barred(bs));
  }

  /** A tree and its pruned form have the same histories, with the same outcomes. */
  lemma {:induction false} PruneHistory(bs: seq<Block>, initial: Ctx, ss: seq<Session>)
    requires WellNamed(bs)
    ensures History(Prune(bs), initial, ss) <==> History(bs, initial, ss)
    ensures History(bs, initial, ss) ==>
              forall i :: 0 <= i < |ss| ==> Outcome(Prune(bs), initial, ss[i]) == Outcome(bs, initial, ss[i])
    decreases |ss|
  {
    if History(bs, initial, ss) && ss != [] {
      var before := ss[..|ss| - 1];
      assert forall i :: 0 <= i < |before| ==> before[i] == ss[i];
      assert History(bs, initial, before);
      PruneHistory(bs, initial, before);
      forall i | 0 <= i < |ss| && ss[i].from.Some?
        ensures exists j :: 0 <= j < i && ss[i].from.value in Outcome(Prune(bs), initial, ss[j]).saved
      {
        var j :| 0 <= j < i && ss[i].from.value in Outcome(bs, initial, ss[j]).saved;
        assert before[j] == ss[j];
      }
    }
    if History(Prune(bs), initial, ss) {
      forall i | 0 <= i < |ss| ensures Outcome(Prune(bs), initial, ss[i]) == Outcome(bs, initial, ss[i]) {
        PruneOutcome(bs, initial, ss, i);
      }
    }
  }

  // ---------- The conditions ----------

  lemma {:induction false} PruneAnchored(bs: seq<Block>)
    requires Anchored(bs)
    ensures Anchored(Prune(bs)) && Names(Prune(bs)) != []
  {
    PruneSplit(bs);
    PruneNamesOf(bs[0]);
    if NamesOf(bs[0]) == [] {
      PruneAnchored(bs[1..]);
      NoElements(NamesOf(bs[0]));
      NoElements(NamesOf(PruneOf(bs[0])));
    }
  }

  lemma PruneEmpty(bs: seq<Block>)
    requires Names(bs) == []
    ensures Names(Prune(bs)) == []
  {
    PruneNames(bs);
    NoElements(Names(bs));
    NoElements(Names(Prune(bs)));
  }

  lemma {:induction false} PruneLongest(bs: seq<Block>)
    ensures Longest(Prune(bs)) <= Longest(bs)
    ensures bs != [] ==> LongestOf(PruneOf(bs[0])) <= LongestOf(bs[0])
  {
    if bs != [] {
      PruneSplit(bs);
      match bs[0] {
        case Step(_, _, _) =>
        case Parallel(steps) => PruneLongest(steps);
        case Conditional(_, _, t, e) => PruneLongest(t); PruneLongest(e);
      }
      PruneLongest(bs[1..]);
    }
  }

  lemma PruneKept(t: seq<Block>, e: seq<Block>, followed: bool, after: bool)
    requires BranchesKept(t, e, followed) && (after ==> followed)
    ensures BranchesKept(Prune(t), Prune(e), after)
  {
    PruneLongest(t);
    PruneLongest(e);
    if Names(t) == [] { PruneEmpty(t); }
    if Names(e) == [] { PruneEmpty(e); }
    if Anchored(t) { PruneAnchored(t); }
    if Anchored(e) { PruneAnchored(e); }
  }

  /** A resumable tree is resumable when pruned; the converse fails where a literal hides a flaw. */
  lemma {:induction false} PruneResumable(bs: seq<Block>, followed: bool, after: bool)
    requires Resumable(bs, followed) && (after ==> followed)
    ensures Resumable(Prune(bs), after)
    decreases bs
  {
    if bs != [] {
      PruneSplit(bs);
      if Names(bs[1..]) == [] { PruneEmpty(bs[1..]); }
      PruneResumableOf(bs[0], followed || Names(bs[1..]) != [], after || Names(Prune(bs[1..])) != []);
      PruneResumable(bs[1..], followed, after);
    }
  }

  lemma {:induction false} PruneResumableOf(b: Block, followed: bool, after: bool)
    requires ResumableOf(b, followed) && (after ==> followed)
    ensures ResumableOf(PruneOf(b), after)
    decreases b
  {
    match b
    case Step(_, _, _) =>
    case Parallel(steps) => PruneResumable(steps, followed, after);
    case Conditional(_, _, t, e) =>
      PruneResumable(t, followed, after);
      PruneResumable(e, followed, after);
      PruneKept(t, e, followed, after);
  }

  // ---------- The theorems, literals included ----------

  /**
   * Crash/resume equivalence needs the pruned tree to be resumable, not the tree as written, and by
   * `PruneResumable` a tree resumable as written is covered.
   */
  lemma PrunedResumeEquivalence(loop: LoopId, w: World, bs: seq<Block>, initial: Ctx, ss: seq<Session>, i: nat)
    requires WellNamed(bs) && Resumable(Prune(bs), false) && History(bs, initial, ss) && i < |ss|
    requires forall s :: s in ss ==> s.env.world == w
    ensures var uninterrupted := CoreOf(RunAll(Calm(loop, w), bs, Start(initial)));
            var r := Outcome(bs, initial, ss[i]);
            && (r.stop == Going ==> CoreOf(r) == uninterrupted)
            && forall c :: c in r.saved ==> CoreOf(RunAll(Calm(loop, w), bs, Restore(c))) == uninterrupted
  {
    var calm := Calm(loop, w);
    PruneWellNamed(bs);
    PruneHistory(bs, initial, ss);
    CrashResumeEquivalence(loop, w, Prune(bs), initial, ss, i);
    NeverBarred(bs, initial, ss, i);
    PruneRunsAll(calm, bs, Start(initial), Barred(bs));
    forall c | c in Outcome(bs, initial, ss[i]).saved
      ensures CoreOf(RunAll(calm, bs, Restore(c))) == CoreOf(RunAll(calm, bs, Start(initial)))
    {
      PruneRunsAll(calm, bs, Restore(c), Barred(bs));
    }
  }

  lemma PruneFaithful(loop: LoopId, bs: seq<Block>, w: World, initial: Ctx, c: Checkpoint)
    requires WellNamed(bs)
    ensures var calm := Calm(loop, w);
            && RunAll(calm, bs, Start(initial)) == RunAll(calm, Prune(bs), Start(initial))
            && (c in RunAll(calm, bs, Start(initial)).saved ==>
                  RunAll(calm, bs, Restore(c)) == RunAll(calm, Prune(bs), Restore(c)))
  {
    var calm := Calm(loop, w);
    var ss := [Session(calm, None)];
    assert History(Prune(bs), initial, ss);
    PruneWellNamed(bs);
    NeverBarred(bs, initial, ss, 0);
    PruneRunsAll(calm, bs, Start(initial), Barred(bs));
    if c in RunAll(calm, bs, Start(initial)).saved {
      assert c in Outcome(Prune(bs), initial, ss[0]).saved;
      PruneRunsAll(calm, bs, Restore(c), Barred(bs));
    }
  }

  /**
   * If the pruned tree is resumable, which it is if the tree is, resuming is faithful; when no
   * condition is written twice outside the branches that are never taken, only then.
   */
  lemma ResumableExactly(loop: LoopId, bs: seq<Block>)
    requires WellNamed(bs)
    ensures Resumable(bs, false) ==> Resumable(Prune(bs), false)
    ensures Resumable(Prune(bs), false) ==> AlwaysFaithful(loop, bs)
    ensures Distinct(Conditions(Prune(bs))) ==> (AlwaysFaithful(loop, bs) <==> Resumable(Prune(bs), false))
  {
    PruneWellNamed(bs);
    PruneNoLiterals(bs);
    PlainResumableExactly(loop, Prune(bs));
    if Resumable(bs, false) { PruneResumable(bs, false, false); }
    forall w: World, initial: Ctx, c: Checkpoint { PruneFaithful(loop, bs, w, initial, c); }
  }

  // ---------- Why conditions must not repeat ----------

  function OneStepIf(group: string, x: string, step: string, a: Action): Block {
    Conditional(group, Expression(x), [Step(step, a, false)], [])
  }

  lemma OneStepIfWalk(w: World, group: string, x: string, step: string, a: Action, s: Core, limit: int)
    ensures WalkOne(w, OneStepIf(group, x, step, a), Walk(s, false), limit) ==
            if step in s.executed || !w.holds(Expression(x), s.ctx) then Walk(s, false)
            else if |s.executed| >= limit then Walk(s, true)
            else Walk(Advance(w, Step(step, a, false), s), false)
  {
    var t := [Step(step, a, false)];
    assert DirectNames(t) == {step} && t[1..] == [];
    MeetsExecuted({step}, s.executed);
    MeetsExecuted({}, s.executed);
    var m := Walk(s, false);
    assert WalkAll(w, t, m, limit) == WalkAll(w, t[1..], WalkOne(w, t[0], m, limit), limit);
    var empty: seq<Block> := [];
    assert DirectNames(empty) == {} && WalkAll(w, empty, m, limit) == m;
  }

  lemma OneStepIfFacts(group: string, x: string, step: string, a: Action)
    ensures var b := OneStepIf(group, x, step, a);
            && NamesOf(b) == [step] && GroupNamesOf(b) == {group} && LongestOf(b) == 1
            && PruneOf(b) == b && !ResumableOf(b, true)
  {
    var t := [Step(step, a, false)];
    var empty: seq<Block> := [];
    SingleStep(step, a);
    assert t[1..] == [] && PruneOf(t[0]) == t[0] && Prune(t) == [t[0]] + Prune(t[1..]);
    assert LongestOf(t[0]) == 1 && Longest(t) == 1 && Longest(empty) == 0;
    assert Names(empty) == [] && GroupNames(empty) == {} && Prune(empty) == empty;
  }

  /** if x {a}; if x {b} */
  function TwoIfs(x: string, a: Action): seq<Block> {
    [OneStepIf("p", x, "a", a), OneStepIf("q", x, "b", a)]
  }

  lemma PairSplit(b: Block, c: Block)
    ensures [b, c][1..] == [c] && [c][1..] == []
    ensures Names([b, c]) == NamesOf(b) + NamesOf(c) && GroupNames([b, c]) == GroupNamesOf(b) + GroupNamesOf(c)
    ensures Longest([b, c]) == LongestOf(b) + LongestOf(c) && Prune([b, c]) == [PruneOf(b), PruneOf(c)]
    ensures Names([c]) == NamesOf(c)
  {
    assert [b, c][1..] == [c] && [c][1..] == [];
    assert Names([c]) == NamesOf(c) + [] == NamesOf(c) && GroupNames([c]) == GroupNamesOf(c);
    assert Longest([c]) == LongestOf(c) && Prune([c]) == [PruneOf(c)] + [];
  }

  lemma TwoIfsFacts(x: string, a: Action)
    ensures var bs := TwoIfs(x, a);
            WellNamed(bs) && Longest(bs) == 2 && Prune(bs) == bs && !Resumable(bs, false)
  {
    var bs := TwoIfs(x, a);
    OneStepIfFacts("p", x, "a", a);
    OneStepIfFacts("q", x, "b", a);
    PairSplit(bs[0], bs[1]);
  }

  lemma PairWalk(w: World, b: Block, c: Block, s: Walk, limit: int)
    ensures WalkAll(w, [b, c], s, limit) == WalkOne(w, c, WalkOne(w, b, s, limit), limit)
  {
    PairSplit(b, c);
    var mid := WalkOne(w, b, s, limit);
    assert WalkAll(w, [c], mid, limit) == WalkAll(w, [c][1..], WalkOne(w, c, mid, limit), limit);
  }

  /** Once the first `if` had its turn, only the second may have something left to do. */
  lemma TwoIfsAgain(w: World, x: string, a: Action, c: Core)
    requires "a" in c.executed || !w.holds(Expression(x), c.ctx)
    ensures Complete(w, TwoIfs(x, a), c) ==
            if "b" in c.executed || !w.holds(Expression(x), c.ctx) then c else Advance(w, Step("b", a, false), c)
  {
    var bs, top := TwoIfs(x, a), |c.executed| + 2;
    TwoIfsFacts(x, a);
    PairWalk(w, bs[0], bs[1], Walk(c, false), top);
    OneStepIfWalk(w, "p", x, "a", a, c, top);
    OneStepIfWalk(w, "q", x, "b", a, c, top);
  }

  /** Where the two `if`s stand after `k` steps. */
  lemma TwoIfsCut(w: World, x: string, a: Action, initial: Ctx, k: nat)
    ensures var s0 := Begin(initial);
            var s1 := Advance(w, Step("a", a, false), s0);
            WalkAll(w, TwoIfs(x, a), Walk(s0, false), k).core ==
              if k == 0 || !w.holds(Expression(x), initial) then s0
              else if k == 1 || !w.holds(Expression(x), s1.ctx) then s1
              else Advance(w, Step("b", a, false), s1)
  {
    var bs, s0 := TwoIfs(x, a), Begin(initial);
    var s1 := Advance(w, Step("a", a, false), s0);
    if k == 0 {
      NothingLeft(w, bs, Walk(s0, false), 0);
    } else {
      PairWalk(w, bs[0], bs[1], Walk(s0, false), k);
      OneStepIfWalk(w, "p", x, "a", a, s0, k);
      OneStepIfWalk(w, "q", x, "b", a, if w.holds(Expression(x), initial) then s1 else s0, k);
    }
  }

  lemma TwoIfsContinue(w: World, x: string, a: Action, initial: Ctx, k: nat)
    ensures var bs := TwoIfs(x, a);
            Complete(w, bs, WalkAll(w, bs, Walk(Begin(initial), false), k).core) == Complete(w, bs, Begin(initial))
  {
    var s1 := Advance(w, Step("a", a, false), Begin(initial));
    TwoIfsFacts(x, a);
    TwoIfsCut(w, x, a, initial, k);
    TwoIfsCut(w, x, a, initial, 2);
    if w.holds(Expression(x), initial) {
      TwoIfsAgain(w, x, a, s1);
      if w.holds(Expression(x), s1.ctx) { TwoIfsAgain(w, x, a, Advance(w, Step("b", a, false), s1)); }
    }
  }

  /** A condition written twice can keep a tree faithful that is not resumable. */
  lemma RepeatedConditionFaithful(loop: LoopId, x: string, a: Action)
    ensures var bs := TwoIfs(x, a); WellNamed(bs) && AlwaysFaithful(loop, bs) && !Resumable(Prune(bs), false)
  {
    var bs := TwoIfs(x, a);
    TwoIfsFacts(x, a);
    forall w: World, initial: Ctx, c: Checkpoint | c in RunAll(Calm(loop, w), bs, Start(initial)).saved
      ensures CoreOf(RunAll(Calm(loop, w), bs, Restore(c))) == CoreOf(RunAll(Calm(loop, w), bs, Start(initial)))
    {
      SavedResumes(loop, w, bs, initial, c);
      TwoIfsContinue(w, x, a, initial, |c.executed|);
    }
  }

  /** What resuming a checkpoint of an undisturbed run amounts to. */
  lemma SavedResumes(loop: LoopId, w: World, bs: seq<Block>, initial: Ctx, c: Checkpoint)
    requires c in RunAll(Calm(loop, w), bs, Start(initial)).saved
    ensures CoreOf(RunAll(Calm(loop, w), bs, Restore(c))) ==
            Complete(w, bs, WalkAll(w, bs, Walk(Begin(initial), false), |c.executed|).core)
    ensures CoreOf(RunAll(Calm(loop, w), bs, Start(initial))) == Complete(w, bs, Begin(initial))
  {
    var calm := Calm(loop, w);
    assert CoreOf(Start(initial)) == Begin(initial);
    RunIsWalk(calm, bs, Start(initial));
    WalkStores(w, bs, Walk(Begin(initial), false), |c.executed|);
    assert CoreOf(Restore(c)) == Kept(c);
    CalmGoes(loop, w, bs, Start(initial));
    UnstoppedRun(calm, bs, Start(initial));
    CalmGoes(loop, w, bs, Restore(c));
    UnstoppedRun(calm, bs, Restore(c));
  }

  lemma {:induction false} PruneCrossed(bs: seq<Block>, ex: set<string>)
    requires ex !! Dead(bs)
    ensures Crossed(Prune(bs), ex) == Crossed(bs, ex)
    decreases bs
  {
    if bs != [] {
      PruneSplit(bs);
      PruneCrossedOf(bs[0], ex);
      PruneCrossed(bs[1..], ex);
    }
  }

  lemma {:induction false} NoneCrossed(bs: seq<Block>, ex: set<string>)
    requires ex !! NameSet(bs)
    ensures !Crossed(bs, ex)
    ensures bs != [] ==> !CrossedOf(bs[0], ex)
  {
    if bs != [] {
      NamesSplit(bs);
      match bs[0] {
        case Step(_, _, _) =>
        case Parallel(steps) => NoneCrossed(steps, ex);
        case Conditional(_, _, t, e) => BranchNames(bs[0]); NoneCrossed(t, ex); NoneCrossed(e, ex);
      }
      NoneCrossed(bs[1..], ex);
    }
  }

  lemma {:induction false} PruneCrossedOf(b: Block, ex: set<string>)
    requires ex !! DeadOf(b)
    ensures CrossedOf(PruneOf(b), ex) == CrossedOf(b, ex)
    decreases b
  {
    match b
    case Step(_, _, _) =>
    case Parallel(steps) => PruneCrossed(steps, ex);
    case Conditional(_, c, t, e) =>
      if c.Constant? {
        PruneCrossed(if c.truth then t else e, ex);
        NoneCrossed(if c.truth then e else t, ex);
      } else {
        PruneCrossed(t, ex);
        PruneCrossed(e, ex);
        PruneNames(t);
        PruneNames(e);
        assert NameSet(Prune(t)) * ex == NameSet(t) * ex && NameSet(Prune(e)) * ex == NameSet(e) * ex;
      }
  }

  lemma PruneNeverCrosses(bs: seq<Block>)
    requires WellNamed(bs)
    ensures NeverCrosses(bs) <==> NeverCrosses(Prune(bs))
  {
    forall initial: Ctx, ss: seq<Session>, i: nat | History(bs, initial, ss) && i < |ss|
      ensures Outcome(bs, initial, ss[i]) == Outcome(Prune(bs), initial, ss[i])
      ensures Crossed(bs, Elements(Outcome(bs, initial, ss[i]).executed))
           == Crossed(Prune(bs), Elements(Outcome(Prune(bs), initial, ss[i]).executed))
    {
      PruneHistory(bs, initial, ss);
      NeverBarred(bs, initial, ss, i);
      PruneCrossed(bs, Elements(Outcome(bs, initial, ss[i]).executed));
    }
    forall initial: Ctx, ss: seq<Session> ensures History(Prune(bs), initial, ss) <==> History(bs, initial, ss) {
      PruneHistory(bs, initial, ss);
    }
  }

  /** Branch safety likewise. */
  lemma BranchSafeExactly(bs: seq<Block>)
    requires WellNamed(bs)
    ensures BranchSafe(Prune(bs)) ==> NeverCrosses(bs)
    ensures Distinct(Conditions(Prune(bs))) ==> (NeverCrosses(bs) <==> BranchSafe(Prune(bs)))
  {
    PruneWellNamed(bs);
    PruneNoLiterals(bs);
    PlainBranchSafeExactly(Prune(bs));
    PruneNeverCrosses(bs);
  }
}
