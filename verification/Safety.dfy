/**
 * What holds of the executed steps over any history of interrupted and resumed runs, with step
 * results and conditions free to differ from run to run.
 */
module Safety {
  import opened Values
  import opened Blocks
  import opened Engine
  import opened Resume

  /** What every walk in every world keeps holds of all a history leaves behind. */
  lemma {:induction false} HistoryKeeps(
      bs: seq<Block>, initial: Ctx, ss: seq<Session>, i: nat, inv: seq<string> -> bool)
    requires History(bs, initial, ss) && i < |ss| && inv([])
    requires forall w: World, c: Core, limit: int ::
               inv(c.executed) ==> inv(WalkAll(w, bs, Walk(c, false), limit).core.executed)
    ensures inv(Outcome(bs, initial, ss[i]).executed)
    ensures forall c :: c in Outcome(bs, initial, ss[i]).saved ==> inv(c.executed)
    decreases i
  {
    var s := ss[i];
    var m := if s.from.Some? then Restore(s.from.value) else Start(initial);
    if s.from.Some? {
      var j :| 0 <= j < i && s.from.value in Outcome(bs, initial, ss[j]).saved;
      HistoryKeeps(bs, initial, ss, j, inv);
    }
    assert inv(CoreOf(m).executed);
    RunIsWalk(s.env, bs, m);
    var r := RunAll(s.env, bs, m);
    assert r.executed == CoreOf(r).executed;
    forall c | c in r.saved ensures inv(c.executed) {
      var k :| 0 <= k < |r.saved| && r.saved[k] == c;
      assert Kept(c).executed == c.executed;
    }
  }

  /** What every walk in one world keeps holds of all a history in that world leaves behind. */
  lemma {:induction false} WorldKeeps(
      w: World, bs: seq<Block>, initial: Ctx, ss: seq<Session>, i: nat, inv: Core -> bool)
    requires History(bs, initial, ss) && i < |ss| && inv(Begin(initial))
    requires forall s :: s in ss ==> s.env.world == w
    requires forall c: Core, limit: int :: inv(c) ==> inv(WalkAll(w, bs, Walk(c, false), limit).core)
    requires forall c: Core :: inv(c) ==> StoredAll(c.results) == c.results
    ensures inv(CoreOf(Outcome(bs, initial, ss[i])))
    ensures forall c :: c in Outcome(bs, initial, ss[i]).saved ==> inv(Kept(c))
    decreases i
  {
    var s := ss[i];
    var m := if s.from.Some? then Restore(s.from.value) else Start(initial);
    if s.from.Some? {
      var j :| 0 <= j < i && s.from.value in Outcome(bs, initial, ss[j]).saved;
      WorldKeeps(w, bs, initial, ss, j, inv);
      assert CoreOf(m) == Kept(s.from.value);
    } else {
      assert CoreOf(m) == Begin(initial);
    }
    assert s in ss;
    RunIsWalk(s.env, bs, m);
    var r := RunAll(s.env, bs, m);
    forall c | c in r.saved ensures inv(Kept(c)) {
      var k :| 0 <= k < |r.saved| && r.saved[k] == c;
      assert WalkAll(w, bs, Walk(CoreOf(m), false), |c.executed|).core == Kept(c);
    }
  }

  // ---------- Each step at most once ----------

  lemma {:induction false} WalkDistinct(w: World, bs: seq<Block>, s: Walk, limit: int)
    requires Distinct(s.core.executed)
    ensures Distinct(WalkAll(w, bs, s, limit).core.executed)
    ensures bs != [] ==> Distinct(WalkOne(w, bs[0], s, limit).core.executed)
  {
    if bs != [] {
      match bs[0] {
        case Step(_, _, _) =>
        case Parallel(steps) => WalkDistinct(w, steps, s, limit);
        case Conditional(_, _, t, e) => WalkDistinct(w, t, s, limit); WalkDistinct(w, e, s, limit);
      }
      WalkDistinct(w, bs[1..], WalkOne(w, bs[0], s, limit), limit);
    }
  }

  /** No step is ever executed twice, for any tree. */
  lemma ExecutedOnce(bs: seq<Block>, initial: Ctx, ss: seq<Session>, i: nat)
    requires History(bs, initial, ss) && i < |ss|
    ensures Distinct(Outcome(bs, initial, ss[i]).executed)
  {
    forall w: World, c: Core, limit: int | Distinct(c.executed)
      ensures Distinct(WalkAll(w, bs, Walk(c, false), limit).core.executed)
    {
      WalkDistinct(w, bs, Walk(c, false), limit);
    }
    HistoryKeeps(bs, initial, ss, i, ex => Distinct(ex));
  }

  // ---------- Never both branches ----------

  /** Some conditional has executed steps in both branches. */
  predicate Crossed(bs: seq<Block>, ex: set<string>) {
    bs != [] && (CrossedOf(bs[0], ex) || Crossed(bs[1..], ex))
  }

  predicate CrossedOf(b: Block, ex: set<string>) {
    match b
    case Step(_, _, _) => false
    case Parallel(steps) => Crossed(steps, ex)
    case Conditional(_, _, t, e) =>
      (NameSet(t) * ex != {} && NameSet(e) * ex != {}) || Crossed(t, ex) || Crossed(e, ex)
  }

  /** Two branches that both hold steps are both anchored. */
  predicate BranchSafe(bs: seq<Block>) {
    bs != [] ==> BranchSafeOf(bs[0]) && BranchSafe(bs[1..])
  }

  predicate BranchSafeOf(b: Block) {
    match b
    case Step(_, _, _) => true
    case Parallel(steps) => BranchSafe(steps)
    case Conditional(_, _, t, e) =>
      && BranchSafe(t) && BranchSafe(e)
      && (Names(t) != [] && Names(e) != [] ==> Anchored(t) && Anchored(e))
  }

  /** Of two branches with steps at most one ran, and then a direct child of it did. */
  predicate Separate(bs: seq<Block>, ex: set<string>) {
    bs != [] ==> SeparateOf(bs[0], ex) && Separate(bs[1..], ex)
  }

  predicate SeparateOf(b: Block, ex: set<string>) {
    match b
    case Step(_, _, _) => true
    case Parallel(steps) => Separate(steps, ex)
    case Conditional(_, _, t, e) =>
      && Separate(t, ex) && Separate(e, ex)
      && (Names(t) != [] && Names(e) != [] ==>
            && !(NameSet(t) * ex != {} && NameSet(e) * ex != {})
            && (NameSet(t) * ex != {} ==> DirectNames(t) * ex != {})
            && (NameSet(e) * ex != {} ==> DirectNames(e) * ex != {}))
  }

  lemma SameOnNames(bs: seq<Block>, ex: set<string>, ex2: set<string>)
    requires SameOn(ex, ex2, Labels(bs))
    ensures NameSet(bs) * ex == NameSet(bs) * ex2 && DirectNames(bs) * ex == DirectNames(bs) * ex2
  {
    DirectNamesInside(bs);
  }

  lemma {:induction false} SeparateLocal(bs: seq<Block>, ex: set<string>, ex2: set<string>)
    requires SameOn(ex, ex2, Labels(bs))
    ensures Separate(bs, ex) == Separate(bs, ex2)
  {
    if bs != [] {
      LabelsSplit(bs);
      match bs[0] {
        case Step(_, _, _) =>
        case Parallel(steps) => SeparateLocal(steps, ex, ex2);
        case Conditional(_, _, t, e) =>
          LabelsOfBranches(bs[0]);
          SameOnNames(t, ex, ex2);
          SameOnNames(e, ex, ex2);
          SeparateLocal(t, ex, ex2);
          SeparateLocal(e, ex, ex2);
      }
      SeparateLocal(bs[1..], ex, ex2);
    }
  }

  lemma {:induction false} SeparateUncrossed(bs: seq<Block>, ex: set<string>)
    requires Separate(bs, ex)
    ensures !Crossed(bs, ex)
  {
    if bs != [] {
      match bs[0] {
        case Step(_, _, _) =>
        case Parallel(steps) => SeparateUncrossed(steps, ex);
        case Conditional(_, _, t, e) => SeparateUncrossed(t, ex); SeparateUncrossed(e, ex);
      }
      SeparateUncrossed(bs[1..], ex);
    }
  }

  /** The branch that ran is the one taken. */
  lemma RanBranchTaken(w: World, b: Block, c: Core)
    requires b.Conditional? && WellNamed([b]) && SeparateOf(b, Elements(c.executed))
    requires Names(b.thenSteps) != [] && Names(b.elseSteps) != [] && Avoids(c.executed, GroupNamesOf(b))
    ensures NameSet(b.thenSteps) * Elements(c.executed) != {} ==> TakesThen(w, b, c.executed, c.ctx)
    ensures NameSet(b.elseSteps) * Elements(c.executed) != {} ==> !TakesThen(w, b, c.executed, c.ctx)
  {
    WellNamedBranches(b);
    DirectNamesInside(b.thenSteps);
    DirectNamesInside(b.elseSteps);
    MeetsExecuted(DirectNames(b.thenSteps), c.executed);
    MeetsExecuted(DirectNames(b.elseSteps), c.executed);
  }

  lemma {:induction false} SeparateKept(w: World, bs: seq<Block>, c: Core, limit: int)
    requires WellNamed(bs) && BranchSafe(bs) && Separate(bs, Elements(c.executed))
    requires Avoids(c.executed, GroupNames(bs))
    ensures Separate(bs, Elements(WalkAll(w, bs, Walk(c, false), limit).core.executed))
    decreases bs
  {
    if bs != [] {
      var s := Walk(c, false);
      var mid := WalkOne(w, bs[0], s, limit);
      var end := WalkAll(w, bs, s, limit);
      WellNamedParts(bs);
      WalkExtends(w, bs, s, limit);
      WalkExtends(w, bs[1..], mid, limit);
      SeparateKeptOne(w, bs[0], c, limit);
      SeparateLocal(bs[1..], Elements(c.executed), Elements(mid.core.executed));
      LabelsSplit([bs[0]]);
      SeparateLocal([bs[0]], Elements(mid.core.executed), Elements(end.core.executed));
      if mid.halted {
        HaltedStays(w, bs[1..], mid, limit);
      } else {
        SeparateKept(w, bs[1..], mid.core, limit);
      }
    }
  }

  lemma {:induction false} SeparateKeptOne(w: World, b: Block, c: Core, limit: int)
    requires WellNamed([b]) && BranchSafeOf(b) && SeparateOf(b, Elements(c.executed))
    requires Avoids(c.executed, GroupNamesOf(b))
    ensures SeparateOf(b, Elements(WalkOne(w, b, Walk(c, false), limit).core.executed))
    decreases b
  {
    match b
    case Step(_, _, _) =>
    case Parallel(steps) => WellNamedGroup(b); SeparateKept(w, steps, c, limit);
    case Conditional(_, _, t, e) =>
      WellNamedBranches(b);
      var (taken, other) := if TakesThen(w, b, c.executed, c.ctx) then (t, e) else (e, t);
      var end := WalkAll(w, taken, Walk(c, false), limit).core;
      WalkExtends(w, taken, Walk(c, false), limit);
      SeparateKept(w, taken, c, limit);
      SameOnNames(other, Elements(c.executed), Elements(end.executed));
      SeparateLocal(other, Elements(c.executed), Elements(end.executed));
      if Names(t) != [] && Names(e) != [] {
        RanBranchTaken(w, b, c);
        AnchorRuns(w, taken, c, limit);
        MeetsExecuted(DirectNames(taken), end.executed);
      }
  }

  lemma {:induction false} SeparateInitially(bs: seq<Block>)
    ensures Separate(bs, {})
  {
    if bs != [] {
      match bs[0] {
        case Step(_, _, _) =>
        case Parallel(steps) => SeparateInitially(steps);
        case Conditional(_, _, t, e) => SeparateInitially(t); SeparateInitially(e);
      }
      SeparateInitially(bs[1..]);
    }
  }

  /** With branch-safe nesting no history executes steps of both branches of a conditional. */
  lemma NeverBothBranches(bs: seq<Block>, initial: Ctx, ss: seq<Session>, i: nat)
    requires WellNamed(bs) && BranchSafe(bs) && History(bs, initial, ss) && i < |ss|
    ensures !Crossed(bs, Elements(Outcome(bs, initial, ss[i]).executed))
  {
    var inv := (ex: seq<string>) => Elements(ex) <= NameSet(bs) && Separate(bs, Elements(ex));
    forall w: World, c: Core, limit: int | inv(c.executed)
      ensures inv(WalkAll(w, bs, Walk(c, false), limit).core.executed)
    {
      SeparateKept(w, bs, c, limit);
      WalkExtends(w, bs, Walk(c, false), limit);
    }
    SeparateInitially(bs);
    assert Elements<string>([]) == {};
    HistoryKeeps(bs, initial, ss, i, inv);
    SeparateUncrossed(bs, Elements(Outcome(bs, initial, ss[i]).executed));
  }

  // ---------- Declaration order ----------

  /** `x` stands before `y`. */
  ghost predicate Before(names: seq<string>, x: string, y: string) {
    exists i, j :: 0 <= i < j < |names| && names[i] == x && names[j] == y
  }

  /** A subsequence of `names`, for names without repetition. */
  ghost predicate InOrder(names: seq<string>, ex: seq<string>) {
    && (forall n :: n in ex ==> n in names)
    && forall i, j :: 0 <= i < j < |ex| ==> Before(names, ex[i], ex[j])
  }

  /** Names of these blocks appended to `ex` come after everything of these blocks executed before them. */
  ghost predicate AppendsInOrder(names: seq<string>, ex: seq<string>, ex2: seq<string>) {
    && ex <= ex2
    && forall i, j :: 0 <= i < j < |ex2| && |ex| <= j && ex2[i] in names ==> Before(names, ex2[i], ex2[j])
  }

  /** No run can execute any more of these blocks. */
  predicate Closed(bs: seq<Block>, ex: set<string>) {
    bs != [] ==> ClosedOf(bs[0], ex) && Closed(bs[1..], ex)
  }

  predicate ClosedOf(b: Block, ex: set<string>) {
    match b
    case Step(name, _, _) => name in ex
    case Parallel(steps) => Closed(steps, ex)
    case Conditional(_, _, t, e) =>
      if DirectNames(t) * ex != {} then Closed(t, ex)
      else if DirectNames(e) * ex != {} then Closed(e, ex)
      else Closed(t, ex) && Closed(e, ex)
  }

  /** Whatever precedes an executed step in its list is closed. */
  predicate Tidy(bs: seq<Block>, ex: set<string>) {
    bs != [] ==>
      && (NameSet(bs[1..]) * ex != {} ==> ClosedOf(bs[0], ex))
      && TidyOf(bs[0], ex) && Tidy(bs[1..], ex)
  }

  predicate TidyOf(b: Block, ex: set<string>) {
    match b
    case Step(_, _, _) => true
    case Parallel(steps) => Tidy(steps, ex)
    case Conditional(_, _, t, e) => Tidy(t, ex) && Tidy(e, ex)
  }

  lemma {:induction false} ClosedLocal(bs: seq<Block>, ex: set<string>, ex2: set<string>)
    requires SameOn(ex, ex2, Labels(bs))
    ensures Closed(bs, ex) == Closed(bs, ex2) && Tidy(bs, ex) == Tidy(bs, ex2)
    ensures bs != [] ==> ClosedOf(bs[0], ex) == ClosedOf(bs[0], ex2) && TidyOf(bs[0], ex) == TidyOf(bs[0], ex2)
  {
    if bs != [] {
      LabelsSplit(bs);
      match bs[0] {
        case Step(_, _, _) =>
        case Parallel(steps) => ClosedLocal(steps, ex, ex2);
        case Conditional(_, _, t, e) =>
          LabelsOfBranches(bs[0]);
          SameOnNames(t, ex, ex2);
          SameOnNames(e, ex, ex2);
          ClosedLocal(t, ex, ex2);
          ClosedLocal(e, ex, ex2);
      }
      SameOnNames(bs[1..], ex, ex2);
      ClosedLocal(bs[1..], ex, ex2);
    }
  }

  lemma {:induction false} EmptyClosed(bs: seq<Block>, ex: set<string>)
    requires Names(bs) == []
    ensures Closed(bs, ex)
  {
    if bs != [] {
      match bs[0] {
        case Parallel(steps) => EmptyClosed(steps, ex);
        case Conditional(_, _, t, e) => EmptyClosed(t, ex); EmptyClosed(e, ex);
      }
      EmptyClosed(bs[1..], ex);
    }
  }

  lemma {:induction false} ClosedIdle(w: World, bs: seq<Block>, c: Core, limit: int)
    requires Closed(bs, Elements(c.executed))
    ensures WalkAll(w, bs, Walk(c, false), limit) == Walk(c, false)
    ensures bs != [] ==> WalkOne(w, bs[0], Walk(c, false), limit) == Walk(c, false)
  {
    if bs != [] {
      match bs[0] {
        case Step(_, _, _) =>
        case Parallel(steps) => ClosedIdle(w, steps, c, limit);
        case Conditional(_, _, t, e) =>
          MeetsExecuted(DirectNames(t), c.executed);
          MeetsExecuted(DirectNames(e), c.executed);
          ClosedIdle(w, if TakesThen(w, bs[0], c.executed, c.ctx) then t else e, c, limit);
      }
      ClosedIdle(w, bs[1..], c, limit);
    }
  }

  lemma BeforeInSum(s: seq<string>, t: seq<string>, x: string, y: string)
    ensures Before(s, x, y) || Before(t, x, y) || (x in s && y in t) ==> Before(s + t, x, y)
  {
    var u := s + t;
    if Before(s, x, y) {
      var i, j :| 0 <= i < j < |s| && s[i] == x && s[j] == y;
      assert u[i] == x && u[j] == y;
    } else if Before(t, x, y) {
      var i, j :| 0 <= i < j < |t| && t[i] == x && t[j] == y;
      assert u[|s| + i] == x && u[|s| + j] == y;
    } else if x in s && y in t {
      var i :| 0 <= i < |s| && s[i] == x;
      var j :| 0 <= j < |t| && t[j] == y;
      assert u[i] == x && u[|s| + j] == y;
    }
  }

  ghost predicate AppendsFrom(names: set<string>, ex: seq<string>, ex2: seq<string>) {
    ex <= ex2 && forall j :: |ex| <= j < |ex2| ==> ex2[j] in names
  }

  lemma {:induction false} WalkAppends(w: World, bs: seq<Block>, s: Walk, limit: int)
    ensures AppendsFrom(NameSet(bs), s.core.executed, WalkAll(w, bs, s, limit).core.executed)
    ensures bs != [] ==>
              AppendsFrom(Elements(NamesOf(bs[0])), s.core.executed, WalkOne(w, bs[0], s, limit).core.executed)
  {
    if bs != [] {
      match bs[0] {
        case Step(_, _, _) =>
        case Parallel(steps) => WalkAppends(w, steps, s, limit);
        case Conditional(_, _, t, e) =>
          ElementsOfSum(Names(t), Names(e));
          WalkAppends(w, t, s, limit);
          WalkAppends(w, e, s, limit);
      }
      var mid := WalkOne(w, bs[0], s, limit);
      WalkAppends(w, bs[1..], mid, limit);
      AppendsOnward(NamesOf(bs[0]), Names(bs[1..]), s.core.executed, mid.core.executed,
                    WalkAll(w, bs, s, limit).core.executed);
    }
  }

  lemma AppendsOnward(s: seq<string>, t: seq<string>, ex: seq<string>, mid: seq<string>, end: seq<string>)
    requires AppendsFrom(Elements(s), ex, mid) && AppendsFrom(Elements(t), mid, end)
    ensures AppendsFrom(Elements(s + t), ex, end)
  {
    ElementsOfSum(s, t);
    forall j | |ex| <= j < |end| ensures end[j] in Elements(s + t) {
      if j < |mid| { assert end[j] == mid[j]; }
    }
  }

  /** Two stretches of steps in order make one, if the second names were untouched before the first. */
  lemma JoinOrder(s: seq<string>, t: seq<string>, ex: seq<string>, mid: seq<string>, end: seq<string>)
    requires AppendsInOrder(s, ex, mid) && AppendsFrom(Elements(s), ex, mid)
    requires AppendsInOrder(t, mid, end) && AppendsFrom(Elements(t), mid, end)
    requires Elements(s) !! Elements(t) && (mid == ex || Avoids(ex, Elements(t)))
    ensures AppendsInOrder(s + t, ex, end)
  {
    forall i, j | 0 <= i < j < |end| && |ex| <= j && end[i] in s + t
      ensures Before(s + t, end[i], end[j])
    {
      if j < |mid| {
        assert mid[j] in Elements(s) && mid[i] == end[i] && mid[j] == end[j];
        if i < |ex| { assert ex[i] == end[i] && ex[i] in ex; } else { assert mid[i] in Elements(s); }
        assert end[i] in Elements(s) + Elements(t) && end[i] in s;
        assert Before(s, end[i], end[j]);
      } else {
        assert end[j] in Elements(t) && end[j] in t;
        if end[i] in t { assert Before(t, end[i], end[j]); }
      }
      BeforeInSum(s, t, end[i], end[j]);
    }
  }

  /**
   * Steps of one branch, in order within it, are in order within the conditional: those of the then
   * branch if nothing of the else branch ran before them.
   */
  lemma BranchAppends(s: seq<string>, t: seq<string>, first: bool, ex: seq<string>, end: seq<string>)
    requires AppendsInOrder(if first then s else t, ex, end) && AppendsFrom(Elements(if first then s else t), ex, end)
    requires first ==> end == ex || Avoids(ex, Elements(t))
    requires Elements(s) !! Elements(t)
    ensures AppendsInOrder(s + t, ex, end)
  {
    forall i, j | 0 <= i < j < |end| && |ex| <= j && end[i] in s + t
      ensures Before(s + t, end[i], end[j])
    {
      assert end[i] in s || end[i] in t;
      assert end[j] in Elements(if first then s else t);
      if first {
        if i < |ex| {
          assert ex[i] == end[i] && ex[i] in ex && end[i] !in Elements(t);
        } else {
          assert end[i] in Elements(s);
        }
        assert Before(s, end[i], end[j]);
      } else if end[i] in t {
        assert Before(t, end[i], end[j]);
      }
      BeforeInSum(s, t, end[i], end[j]);
    }
  }

  lemma {:induction false} TidyInitially(bs: seq<Block>)
    ensures Tidy(bs, {})
  {
    if bs != [] {
      match bs[0] {
        case Step(_, _, _) =>
        case Parallel(steps) => TidyInitially(steps);
        case Conditional(_, _, t, e) => TidyInitially(t); TidyInitially(e);
      }
      TidyInitially(bs[1..]);
    }
  }

  /** One of the blocks is a step: completing them executes a direct child. */
  predicate HasStep(bs: seq<Block>) {
    exists i :: 0 <= i < |bs| && bs[i].Step?
  }

  /**
   * The static condition for declaration order. `followed` says that some step may run after these
   * blocks. Of two branches with steps the else branch must be anchored, so that nothing returns to
   * the then branch once the else branch ran; and if more follows, a completed then branch must have
   * run a direct step. A conditional with steps in one branch only must come last.
   */
  predicate Ordered(bs: seq<Block>, followed: bool) {
    bs != [] ==> OrderedOf(bs[0], followed || Names(bs[1..]) != []) && Ordered(bs[1..], followed)
  }

  predicate OrderedOf(b: Block, followed: bool) {
    match b
    case Step(_, _, _) => true
    case Parallel(steps) => Ordered(steps, followed)
    case Conditional(_, _, t, e) => Ordered(t, followed) && Ordered(e, followed) && BranchesOrdered(t, e, followed)
  }

  predicate BranchesOrdered(t: seq<Block>, e: seq<Block>, followed: bool) {
    if Names(t) != [] && Names(e) != [] then Anchored(e) && (followed ==> HasStep(t))
    else followed ==> Names(t) == [] && Names(e) == []
  }

  /** Of two branches with steps, the else branch ran only if its choice is fixed. */
  predicate Parted(bs: seq<Block>, ex: set<string>) {
    bs != [] ==> PartedOf(bs[0], ex) && Parted(bs[1..], ex)
  }

  predicate PartedOf(b: Block, ex: set<string>) {
    match b
    case Step(_, _, _) => true
    case Parallel(steps) => Parted(steps, ex)
    case Conditional(_, _, t, e) =>
      && Parted(t, ex) && Parted(e, ex)
      && (Names(t) != [] && Names(e) != [] && NameSet(e) * ex != {} ==>
            DirectNames(e) * ex != {} && DirectNames(t) * ex == {})
  }

  lemma {:induction false} PartedLocal(bs: seq<Block>, ex: set<string>, ex2: set<string>)
    requires SameOn(ex, ex2, Labels(bs))
    ensures Parted(bs, ex) == Parted(bs, ex2)
  {
    if bs != [] {
      LabelsSplit(bs);
      match bs[0] {
        case Step(_, _, _) =>
        case Parallel(steps) => PartedLocal(steps, ex, ex2);
        case Conditional(_, _, t, e) =>
          LabelsOfBranches(bs[0]);
          SameOnNames(t, ex, ex2);
          SameOnNames(e, ex, ex2);
          PartedLocal(t, ex, ex2);
          PartedLocal(e, ex, ex2);
      }
      PartedLocal(bs[1..], ex, ex2);
    }
  }

  lemma {:induction false} PartedInitially(bs: seq<Block>)
    ensures Parted(bs, {})
  {
    if bs != [] {
      match bs[0] {
        case Step(_, _, _) =>
        case Parallel(steps) => PartedInitially(steps);
        case Conditional(_, _, t, e) => PartedInitially(t); PartedInitially(e);
      }
      PartedInitially(bs[1..]);
    }
  }

  /** The branch taken is the else branch, or nothing of the else branch ran. */
  lemma PartedTaken(w: World, b: Block, c: Core)
    requires b.Conditional? && PartedOf(b, Elements(c.executed)) && Names(b.thenSteps) != [] && Names(b.elseSteps) != []
    ensures TakesThen(w, b, c.executed, c.ctx) ==> NameSet(b.elseSteps) * Elements(c.executed) == {}
    ensures !TakesThen(w, b, c.executed, c.ctx) ==> DirectNames(b.thenSteps) * Elements(c.executed) == {}
  {
    MeetsExecuted(DirectNames(b.thenSteps), c.executed);
    MeetsExecuted(DirectNames(b.elseSteps), c.executed);
  }

  /** Completed blocks have run their direct steps. */
  lemma {:induction false} StepRuns(w: World, bs: seq<Block>, s: Walk, limit: int)
    requires HasStep(bs) && !WalkAll(w, bs, s, limit).halted
    ensures DirectNames(bs) * Elements(WalkAll(w, bs, s, limit).core.executed) != {}
  {
    var mid := WalkOne(w, bs[0], s, limit);
    if mid.halted { HaltedStays(w, bs[1..], mid, limit); }
    if bs[0].Step? {
      WalkExtends(w, bs[1..], mid, limit);
      assert bs[0].name in mid.core.executed;
      var i :| 0 <= i < |mid.core.executed| && mid.core.executed[i] == bs[0].name;
      assert WalkAll(w, bs, s, limit).core.executed[i] == bs[0].name;
      assert bs[0].name in DirectNames(bs) * Elements(WalkAll(w, bs, s, limit).core.executed);
    } else {
      var i :| 0 <= i < |bs| && bs[i].Step?;
      assert bs[1..][i - 1] == bs[i];
      StepRuns(w, bs[1..], mid, limit);
      var n :| n in DirectNames(bs[1..]) * Elements(WalkAll(w, bs, s, limit).core.executed);
      assert n in DirectNames(bs);
    }
  }

  /** A walk of an ordered tree appends in declaration order and leaves no gap open behind it. */
  lemma {:induction false} TidyKept(w: World, bs: seq<Block>, c: Core, limit: int, followed: bool)
    requires WellNamed(bs) && Ordered(bs, followed) && Avoids(c.executed, GroupNames(bs))
    requires Parted(bs, Elements(c.executed)) && Tidy(bs, Elements(c.executed))
    ensures var r := WalkAll(w, bs, Walk(c, false), limit);
            && Parted(bs, Elements(r.core.executed)) && Tidy(bs, Elements(r.core.executed))
            && AppendsInOrder(Names(bs), c.executed, r.core.executed)
            && (!r.halted && followed ==> Closed(bs, Elements(r.core.executed)))
    decreases bs
  {
    if bs != [] {
      var b, rest := bs[0], bs[1..];
      var s := Walk(c, false);
      var mid := WalkOne(w, b, s, limit);
      var end := WalkAll(w, bs, s, limit);
      var ex, ex1, ex2 := Elements(c.executed), Elements(mid.core.executed), Elements(end.core.executed);
      WellNamedParts(bs);
      LabelsSplit(bs);
      LabelsSplit([b]);
      WalkExtends(w, bs, s, limit);
      WalkAppends(w, bs, s, limit);
      WalkAppends(w, rest, mid, limit);
      TidyKeptOne(w, b, c, limit, followed || Names(rest) != []);
      if NameSet(rest) * ex != {} { ClosedIdle(w, [b], c, limit); }
      RestUntouched(rest, b, ex, ex1, ex2);
      if mid.halted {
        HaltedStays(w, rest, mid, limit);
      } else {
        TidyKept(w, rest, mid.core, limit, followed);
      }
      JoinOrder(NamesOf(b), Names(rest), c.executed, mid.core.executed, end.core.executed);
    }
  }

  /** The first block changes nothing about the rest, nor the rest about the first. */
  lemma RestUntouched(rest: seq<Block>, b: Block, ex: set<string>, ex1: set<string>, ex2: set<string>)
    requires SameOn(ex, ex1, Labels(rest)) && SameOn(ex1, ex2, LabelsOf(b))
    ensures Parted(rest, ex) == Parted(rest, ex1) && Tidy(rest, ex) == Tidy(rest, ex1)
    ensures NameSet(rest) * ex == NameSet(rest) * ex1
    ensures PartedOf(b, ex1) == PartedOf(b, ex2) && TidyOf(b, ex1) == TidyOf(b, ex2)
              && ClosedOf(b, ex1) == ClosedOf(b, ex2)
  {
    PartedLocal(rest, ex, ex1);
    ClosedLocal(rest, ex, ex1);
    SameOnNames(rest, ex, ex1);
    LabelsSplit([b]);
    PartedLocal([b], ex1, ex2);
    ClosedLocal([b], ex1, ex2);
  }

  lemma {:induction false} TidyKeptOne(w: World, b: Block, c: Core, limit: int, followed: bool)
    requires WellNamed([b]) && OrderedOf(b, followed) && Avoids(c.executed, GroupNamesOf(b))
    requires PartedOf(b, Elements(c.executed)) && TidyOf(b, Elements(c.executed))
    ensures var r := WalkOne(w, b, Walk(c, false), limit);
            && PartedOf(b, Elements(r.core.executed)) && TidyOf(b, Elements(r.core.executed))
            && AppendsInOrder(NamesOf(b), c.executed, r.core.executed)
            && (!r.halted && followed ==> ClosedOf(b, Elements(r.core.executed)))
    decreases b
  {
    match b
    case Step(_, _, _) =>
    case Parallel(steps) => WellNamedGroup(b); TidyKept(w, steps, c, limit, followed);
    case Conditional(_, _, t, e) =>
      WellNamedBranches(b);
      var takes := TakesThen(w, b, c.executed, c.ctx);
      TidyKept(w, if takes then t else e, c, limit, followed);
      TidyKeptChoice(w, b, c, limit, followed, takes);
  }

  /** What the walk of the taken branch keeps, the conditional keeps. */
  lemma TidyKeptChoice(w: World, b: Block, c: Core, limit: int, followed: bool, takes: bool)
    requires b.Conditional? && WellNamed([b]) && OrderedOf(b, followed) && takes == TakesThen(w, b, c.executed, c.ctx)
    requires PartedOf(b, Elements(c.executed)) && TidyOf(b, Elements(c.executed))
    requires var taken := if takes then b.thenSteps else b.elseSteps;
             var r := WalkAll(w, taken, Walk(c, false), limit);
             && Parted(taken, Elements(r.core.executed)) && Tidy(taken, Elements(r.core.executed))
             && AppendsInOrder(Names(taken), c.executed, r.core.executed)
             && (!r.halted && followed ==> Closed(taken, Elements(r.core.executed)))
    ensures var r := WalkOne(w, b, Walk(c, false), limit);
            && PartedOf(b, Elements(r.core.executed)) && TidyOf(b, Elements(r.core.executed))
            && AppendsInOrder(NamesOf(b), c.executed, r.core.executed)
            && (!r.halted && followed ==> ClosedOf(b, Elements(r.core.executed)))
  {
    var t, e := b.thenSteps, b.elseSteps;
    var (taken, other) := if takes then (t, e) else (e, t);
    var r := WalkAll(w, taken, Walk(c, false), limit);
    var ex, ex2 := Elements(c.executed), Elements(r.core.executed);
    WellNamedBranches(b);
    WalkExtends(w, taken, Walk(c, false), limit);
    WalkAppends(w, taken, Walk(c, false), limit);
    OtherUntouched(other, ex, ex2);
    EmptyChoice(w, b, c, limit, ex2);
    if Names(t) != [] && Names(e) != [] {
      if takes { ThenFixed(w, b, c, limit, followed); } else { ElseFixed(w, b, c, limit, followed); }
    }
    BranchAppends(Names(t), Names(e), takes, c.executed, r.core.executed);
  }

  lemma OtherUntouched(other: seq<Block>, ex: set<string>, ex2: set<string>)
    requires SameOn(ex, ex2, Labels(other))
    ensures Parted(other, ex) == Parted(other, ex2) && Tidy(other, ex) == Tidy(other, ex2)
  {
    PartedLocal(other, ex, ex2);
    ClosedLocal(other, ex, ex2);
  }

  /** What walking the taken branch does to the choice itself, both branches holding steps. */
  lemma ThenFixed(w: World, b: Block, c: Core, limit: int, followed: bool)
    requires b.Conditional? && WellNamed([b]) && BranchesOrdered(b.thenSteps, b.elseSteps, followed)
    requires Names(b.thenSteps) != [] && Names(b.elseSteps) != []
    requires PartedOf(b, Elements(c.executed)) && TakesThen(w, b, c.executed, c.ctx)
    ensures var r := WalkAll(w, b.thenSteps, Walk(c, false), limit);
            && NameSet(b.elseSteps) * Elements(c.executed) == {}
               && NameSet(b.elseSteps) * Elements(r.core.executed) == {}
            && (!r.halted && followed ==> DirectNames(b.thenSteps) * Elements(r.core.executed) != {})
  {
    WellNamedBranches(b);
    PartedTaken(w, b, c);
    WalkExtends(w, b.thenSteps, Walk(c, false), limit);
    if followed && !WalkAll(w, b.thenSteps, Walk(c, false), limit).halted {
      StepRuns(w, b.thenSteps, Walk(c, false), limit);
    }
  }

  lemma ElseFixed(w: World, b: Block, c: Core, limit: int, followed: bool)
    requires b.Conditional? && WellNamed([b]) && BranchesOrdered(b.thenSteps, b.elseSteps, followed)
    requires Names(b.thenSteps) != [] && Names(b.elseSteps) != []
    requires PartedOf(b, Elements(c.executed)) && !TakesThen(w, b, c.executed, c.ctx)
    ensures var r := WalkAll(w, b.elseSteps, Walk(c, false), limit);
            && DirectNames(b.thenSteps) * Elements(r.core.executed) == {}
            && (NameSet(b.elseSteps) * Elements(r.core.executed) != {} || !r.halted ==>
                  DirectNames(b.elseSteps) * Elements(r.core.executed) != {})
  {
    var r := WalkAll(w, b.elseSteps, Walk(c, false), limit);
    WellNamedBranches(b);
    PartedTaken(w, b, c);
    DirectNamesInside(b.thenSteps);
    WalkExtends(w, b.elseSteps, Walk(c, false), limit);
    AnchorRuns(w, b.elseSteps, c, limit);
    MeetsExecuted(DirectNames(b.elseSteps), r.core.executed);
  }

  lemma EmptyChoice(w: World, b: Block, c: Core, limit: int, ex: set<string>)
    requires b.Conditional?
    ensures Names(b.thenSteps) == [] ==>
              WalkAll(w, b.thenSteps, Walk(c, false), limit).core == c && Closed(b.thenSteps, ex)
    ensures Names(b.elseSteps) == [] ==>
              WalkAll(w, b.elseSteps, Walk(c, false), limit).core == c && Closed(b.elseSteps, ex)
  {
    EmptyBranchesIdle(w, b, Walk(c, false), limit);
    if Names(b.thenSteps) == [] { EmptyClosed(b.thenSteps, ex); }
    if Names(b.elseSteps) == [] { EmptyClosed(b.elseSteps, ex); }
  }

  /**
   * Of several histories, those of an ordered tree execute a subsequence of the declared steps,
   * whatever they return.
   */
  lemma ExecutedInDeclarationOrder(bs: seq<Block>, initial: Ctx, ss: seq<Session>, i: nat)
    requires WellNamed(bs) && Ordered(bs, false) && History(bs, initial, ss) && i < |ss|
    ensures InOrder(Names(bs), Outcome(bs, initial, ss[i]).executed)
    ensures forall c :: c in Outcome(bs, initial, ss[i]).saved ==> InOrder(Names(bs), c.executed)
  {
    ghost var inv := (ex: seq<string>) =>
      Parted(bs, Elements(ex)) && Tidy(bs, Elements(ex)) && InOrder(Names(bs), ex);
    forall w: World, c: Core, limit: int | inv(c.executed)
      ensures inv(WalkAll(w, bs, Walk(c, false), limit).core.executed)
    {
      var ex, ex2 := c.executed, WalkAll(w, bs, Walk(c, false), limit).core.executed;
      assert Avoids(ex, GroupNames(bs)) by {
        forall n | n in ex ensures n !in GroupNames(bs) { assert n in NameSet(bs); }
      }
      TidyKept(w, bs, c, limit, false);
      WalkAppends(w, bs, Walk(c, false), limit);
      forall j | 0 <= j < |ex2| ensures ex2[j] in Names(bs) {
        if j < |ex| { assert ex2[j] == ex[j]; } else { assert ex2[j] in NameSet(bs); }
      }
      forall k, j | 0 <= k < j < |ex2| ensures Before(Names(bs), ex2[k], ex2[j]) {
        if j < |ex| { assert ex2[j] == ex[j] && ex2[k] == ex[k]; }
      }
    }
    PartedInitially(bs);
    TidyInitially(bs);
    assert Elements<string>([]) == {};
    HistoryKeeps(bs, initial, ss, i, inv);
  }

  lemma AnchoredHasStep(bs: seq<Block>)
    requires Anchored(bs)
    ensures HasStep(bs)
  {
    if NamesOf(bs[0]) == [] {
      AnchoredHasStep(bs[1..]);
      var i :| 0 <= i < |bs[1..]| && bs[1..][i].Step?;
      assert bs[i + 1].Step?;
    }
  }

  /** A resumable tree is ordered. */
  lemma {:induction false} ResumableOrdered(bs: seq<Block>, followed: bool)
    requires Resumable(bs, followed)
    ensures Ordered(bs, followed)
    ensures bs != [] ==> OrderedOf(bs[0], followed || Names(bs[1..]) != [])
    decreases bs
  {
    if bs != [] {
      var after := followed || Names(bs[1..]) != [];
      match bs[0] {
        case Step(_, _, _) =>
        case Parallel(steps) => ResumableOrdered(steps, after);
        case Conditional(_, _, t, e) =>
          ResumableOrdered(t, after);
          ResumableOrdered(e, after);
          if Anchored(t) { AnchoredHasStep(t); }
      }
      ResumableOrdered(bs[1..], followed);
    }
  }

  // ---------- Trees without conditionals ----------

  predicate Flat(bs: seq<Block>) {
    bs != [] ==> FlatOf(bs[0]) && Flat(bs[1..])
  }

  predicate FlatOf(b: Block) {
    match b
    case Step(_, _, _) => true
    case Parallel(steps) => Flat(steps)
    case Conditional(_, _, _, _) => false
  }

  /** The steps of a tree without conditionals, in order. */
  function Leaves(bs: seq<Block>): seq<Block> {
    if bs == [] then []
    else (match bs[0]
          case Step(_, _, _) => [bs[0]]
          case Parallel(steps) => Leaves(steps)
          case Conditional(_, _, _, _) => []) + Leaves(bs[1..])
  }

  lemma {:induction false} WalkSum(w: World, s: seq<Block>, t: seq<Block>, k: Walk, limit: int)
    ensures WalkAll(w, s + t, k, limit) == WalkAll(w, t, WalkAll(w, s, k, limit), limit)
  {
    if s == [] {
      assert s + t == t;
    } else {
      assert (s + t)[0] == s[0] && (s + t)[1..] == s[1..] + t;
      WalkSum(w, s[1..], t, WalkOne(w, s[0], k, limit), limit);
    }
  }

  lemma {:induction false} NamesSum(s: seq<Block>, t: seq<Block>)
    ensures Names(s + t) == Names(s) + Names(t)
  {
    if s == [] {
      assert s + t == t;
    } else {
      assert (s + t)[0] == s[0] && (s + t)[1..] == s[1..] + t;
      NamesSum(s[1..], t);
    }
  }

  lemma {:induction false} FlatIsList(w: World, bs: seq<Block>, k: Walk, limit: int)
    requires Flat(bs)
    ensures WalkAll(w, Leaves(bs), k, limit) == WalkAll(w, bs, k, limit)
    ensures Names(Leaves(bs)) == Names(bs) && forall b :: b in Leaves(bs) ==> b.Step?
  {
    if bs != [] {
      var head := if bs[0].Step? then [bs[0]] else Leaves(bs[0].steps);
      var mid := WalkOne(w, bs[0], k, limit);
      if bs[0].Parallel? { FlatIsList(w, bs[0].steps, k, limit); }
      FlatIsList(w, bs[1..], mid, limit);
      WalkSum(w, head, Leaves(bs[1..]), k, limit);
      NamesSum(head, Leaves(bs[1..]));
      assert Leaves(bs) == head + Leaves(bs[1..]);
    }
  }

  /** A walk extends a prefix of the names to a longer one, and to all of them unless it halts. */
  lemma {:induction false} ListWalk(w: World, steps: seq<Block>, c: Core, limit: int, before: seq<string>, k: nat)
    returns (k2: nat)
    requires (forall b :: b in steps ==> b.Step?) && Distinct(before + Names(steps)) && k <= |Names(steps)|
    requires c.executed == before + Names(steps)[..k]
    ensures var r := WalkAll(w, steps, Walk(c, false), limit);
            && k2 <= |Names(steps)| && r.core.executed == before + Names(steps)[..k2]
            && (!r.halted ==> k2 == |Names(steps)|)
  {
    if steps == [] { return 0; }
    var name, rest := steps[0].name, steps[1..];
    var mid := WalkOne(w, steps[0], Walk(c, false), limit);
    assert Names(steps) == [name] + Names(rest);
    assert before + Names(steps) == (before + [name]) + Names(rest);
    DistinctParts(before + [name], Names(rest));
    DistinctParts(before, [name]);
    assert name in Elements([name]);
    if k > 0 { assert c.executed[|before|] == name; }
    if mid.halted {
      HaltedStays(w, rest, mid, limit);
      return k;
    }
    assert mid.core.executed == (before + [name]) + Names(rest)[..if k == 0 then 0 else k - 1];
    k2 := ListWalk(w, rest, mid.core, limit, before + [name], if k == 0 then 0 else k - 1);
    assert (before + [name]) + Names(rest)[..k2] == before + Names(steps)[..k2 + 1];
    k2 := k2 + 1;
  }

  /** Without conditionals any history executes a prefix of the declared steps, and all of them if it completes. */
  lemma FlatPrefix(bs: seq<Block>, initial: Ctx, ss: seq<Session>, i: nat)
    requires Flat(bs) && Distinct(Names(bs)) && History(bs, initial, ss) && i < |ss|
    ensures Outcome(bs, initial, ss[i]).executed <= Names(bs)
    ensures Outcome(bs, initial, ss[i]).stop == Going ==> Outcome(bs, initial, ss[i]).executed == Names(bs)
  {
    var inv := (ex: seq<string>) => ex <= Names(bs);
    forall w: World, c: Core, limit: int | inv(c.executed)
      ensures inv(WalkAll(w, bs, Walk(c, false), limit).core.executed)
      ensures !WalkAll(w, bs, Walk(c, false), limit).halted ==>
                WalkAll(w, bs, Walk(c, false), limit).core.executed == Names(bs)
    {
      FlatIsList(w, bs, Walk(c, false), limit);
      assert [] + Names(bs) == Names(bs);
      var k := ListWalk(w, Leaves(bs), c, limit, [], |c.executed|);
    }
    HistoryKeeps(bs, initial, ss, i, inv);
    var s := ss[i];
    var m := if s.from.Some? then Restore(s.from.value) else Start(initial);
    if s.from.Some? {
      var j :| 0 <= j < i && s.from.value in Outcome(bs, initial, ss[j]).saved;
      HistoryKeeps(bs, initial, ss, j, inv);
    }
    RunIsWalk(s.env, bs, m);
    assert CoreOf(m).executed == m.executed && inv(m.executed);
  }
}
