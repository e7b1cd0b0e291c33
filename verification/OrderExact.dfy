/**
 * The exact condition for declaration order: in a tree that is not `Ordered` and writes no condition
 * twice, some history executes a step after one that is declared later.
 */
module OrderExact {
  import opened Values
  import opened Blocks
  import opened Engine
  import opened Resume
  import opened ResumeExact
  import opened Safety
  import opened Literals

  /** Every history executes steps in declaration order only. */
  ghost predicate NeverOutOfOrder(bs: seq<Block>) {
    forall initial: Ctx, ss: seq<Session>, i: nat :: History(bs, initial, ss) && i < |ss| ==>
      InOrder(Names(bs), Outcome(bs, initial, ss[i]).executed)
  }

  /**
   * After the first `k` steps along `h`, which include `late`, the choice with `c` flipped is free
   * to execute `early`, which is declared before `late` and has not run.
   */
  ghost predicate Disorder(bs: seq<Block>, h: Choice, c: Condition, k: nat, early: string, late: string) {
    && 1 <= k <= |Path(h, bs)|
    && Sticky(Flip(h, c), bs, Elements(Path(h, bs)[..k]))
    && late in Path(h, bs)[..k] && early in Path(Flip(h, c), bs) && early !in Path(h, bs)[..k]
    && Before(Names(bs), early, late)
  }

  /** Disorder after `k > 0` steps, or as soon as something later runs. */
  ghost predicate Disordered(
      bs: seq<Block>, followed: bool, h: Choice, c: Condition, k: nat, early: string, late: string) {
    && c in Conditions(bs)
    && (if k > 0 then Disorder(bs, h, c, k, early, late) else followed && BreaksLate(bs, h, c))
  }

  // ---------- From the parts to the whole ----------

  lemma HeadDisorder(bs: seq<Block>, h: Choice, c: Condition, k: nat, early: string, late: string)
    requires WellNamed(bs) && Independent(bs) && bs != [] && c in Conditions(bs[..1])
    requires Disorder(bs[..1], h, c, k, early, late)
    ensures Disorder(bs, h, c, k, early, late)
  {
    var head, rest := bs[..1], bs[1..];
    HeadAndTail(h, bs);
    HeadAndTail(Flip(h, c), bs);
    var p := Path(h, head);
    assert Path(h, bs)[..k] == p[..k];
    assert Elements(p[..k]) <= Elements(p);
    FlipElsewhere(h, c, rest, Elements(p[..k]));
    StickyAlongPath(h, rest, Elements(p[..k]));
    BeforeInSum(Names(head), Names(rest), early, late);
    assert head == [bs[0]] && Names(head) == NamesOf(bs[0]);
  }

  lemma TailDisorder(bs: seq<Block>, h: Choice, c: Condition, k: nat, early: string, late: string)
    requires WellNamed(bs) && Independent(bs) && bs != [] && c in Conditions(bs[1..])
    requires Disorder(bs[1..], h, c, k, early, late)
    ensures Disorder(bs, h, c, |Path(h, bs[..1])| + k, early, late)
  {
    var head, rest := bs[..1], bs[1..];
    HeadAndTail(h, bs);
    PathSplit(Flip(h, c), bs);
    PathInside(Flip(h, c), rest);
    var p, q := Path(h, head), Path(h, rest);
    TakeOfSum(p, q, k);
    assert Elements(q[..k]) <= Elements(q);
    TailSticky(bs, h, c, q[..k]);
    assert early in Elements(Path(Flip(h, c), rest)) && early !in Elements(p);
    assert head == [bs[0]] && Names(head) == NamesOf(bs[0]);
    BeforeInSum(Names(head), Names(rest), early, late);
  }

  /** A late flaw of the first block is disorder once a step of the others ran. */
  lemma FindLateDisorder(bs: seq<Block>, g: Choice, c: Condition)
    returns (h: Choice, k: nat, early: string, late: string)
    requires WellNamed(bs) && Independent(bs) && bs != [] && c in Conditions(bs[..1])
    requires BreaksLate(bs[..1], g, c) && Names(bs[1..]) != []
    ensures k > 0 && Disorder(bs, h, c, k, early, late)
  {
    var head, rest := bs[..1], bs[1..];
    HeadAndTail(g, bs);
    var wide := Widest(rest);
    LongestPositive(rest);
    h := Mix(g, Conditions(head), wide);
    ChoiceLocal(g, h, head, Elements(Path(g, head)));
    ChoiceLocal(Flip(g, c), Flip(h, c), head, Elements(Path(g, head)));
    ChoiceLocal(wide, h, rest, {});
    k, early, late := LateDisorder(bs, h, c);
  }

  lemma LateDisorder(bs: seq<Block>, h: Choice, c: Condition) returns (k: nat, early: string, late: string)
    requires WellNamed(bs) && Independent(bs) && bs != [] && c in Conditions(bs[..1])
    requires BreaksLate(bs[..1], h, c) && Path(h, bs[1..]) != []
    ensures k > 0 && Disorder(bs, h, c, k, early, late)
  {
    var head, rest := bs[..1], bs[1..];
    early :| early in Elements(Path(Flip(h, c), head)) && early !in Elements(Path(h, head));
    late := Path(h, rest)[0];
    k := |Path(h, head)| + 1;
    LateSticky(bs, h, c);
    HeadBeforeTail(bs, h, Flip(h, c), early, late);
    assert Path(h, bs)[..k] == Path(h, head) + [late] by { PathSplit(h, bs); }
    assert early in Path(Flip(h, c), bs) by { PathSplit(Flip(h, c), bs); }
  }

  lemma HeadBeforeTail(bs: seq<Block>, h: Choice, g: Choice, early: string, late: string)
    requires WellNamed(bs) && Independent(bs) && bs != []
    requires early in Elements(Path(g, bs[..1])) && Path(h, bs[1..]) != [] && late == Path(h, bs[1..])[0]
    ensures Before(Names(bs), early, late) && early != late
  {
    var head, rest := bs[..1], bs[1..];
    assert head == [bs[0]] && Names(head) == NamesOf(bs[0]);
    HeadAndTail(h, bs);
    HeadAndTail(g, bs);
    assert late in Elements(Path(h, rest));
    assert early in NameSet(head) && late in NameSet(rest);
    BeforeInSum(Names(head), Names(rest), early, late);
  }

  lemma LateSticky(bs: seq<Block>, h: Choice, c: Condition)
    requires WellNamed(bs) && Independent(bs) && bs != [] && c in Conditions(bs[..1])
    requires Sticky(Flip(h, c), bs[..1], Elements(Path(h, bs[..1]))) && Path(h, bs[1..]) != []
    ensures Sticky(Flip(h, c), bs, Elements(Path(h, bs[..1]) + [Path(h, bs[1..])[0]]))
    ensures |Path(h, bs[..1])| < |Path(h, bs)|
  {
    var head, rest := bs[..1], bs[1..];
    HeadAndTail(h, bs);
    var p, z := Path(h, head), Path(h, rest)[0];
    var ex := Elements(p + [z]);
    ElementsOfSum(p, [z]);
    assert z in Elements(Path(h, rest)) && forall n :: n in Elements([z]) <==> n == z;
    FlipElsewhere(h, c, rest, ex);
    StickyAlongPath(h, rest, ex);
    StickyLocal(Flip(h, c), head, Elements(p), ex);
    assert head == [bs[0]];
    SingleBlock(bs[0], Flip(h, c), ex);
  }

  lemma GroupDisorder(b: Block, h: Choice, c: Condition, k: nat, early: string, late: string)
    requires b.Parallel? && Disorder(b.steps, h, c, k, early, late)
    ensures Disorder([b], h, c, k, early, late)
  {
    SingleBlock(b, h, {});
    SingleBlock(b, Flip(h, c), Elements(Path(h, b.steps)[..k]));
    assert StickyOf(Flip(h, c), b, Elements(Path(h, b.steps)[..k]));
    assert Names([b]) == Names(b.steps);
  }

  /** Inside a branch, once that branch is chosen. */
  lemma BranchDisorder(b: Block, takeThen: bool, g: Choice, c: Condition, k: nat, early: string, late: string)
    returns (h: Choice)
    requires b.Conditional? && WellNamed([b]) && Independent([b])
    requires var x := if takeThen then b.thenSteps else b.elseSteps;
             c in Conditions(x) && Disorder(x, g, c, k, early, late)
    ensures Disorder([b], h, c, k, early, late)
  {
    var x := if takeThen then b.thenSteps else b.elseSteps;
    h := BranchSticky(b, takeThen, g, c, Elements(Path(g, x)[..k]));
    assert Names([b]) == Names(b.thenSteps) + Names(b.elseSteps);
    BeforeInSum(Names(b.thenSteps), Names(b.elseSteps), early, late);
  }

  lemma BranchSticky(b: Block, takeThen: bool, g: Choice, c: Condition, ex: set<string>) returns (h: Choice)
    requires b.Conditional? && WellNamed([b]) && Independent([b])
    requires var x := if takeThen then b.thenSteps else b.elseSteps;
             c in Conditions(x) && ex <= Elements(Path(g, x)) && Sticky(Flip(g, c), x, ex)
    ensures Sticky(Flip(h, c), [b], ex)
    ensures var x := if takeThen then b.thenSteps else b.elseSteps;
            Path(h, [b]) == Path(g, x) && Path(Flip(h, c), [b]) == Path(Flip(g, c), x)
  {
    var own := b.condition;
    var (x, y) := if takeThen then (b.thenSteps, b.elseSteps) else (b.elseSteps, b.thenSteps);
    WellNamedBranches(b);
    LabelsOfBranches(b);
    IndependentBranches(b);
    DirectNamesInside(x);
    DirectNamesInside(y);
    h := z => if z == own then takeThen else g(z);
    var h2 := Flip(h, c);
    ChoiceLocal(g, h, x, ex);
    ChoiceLocal(Flip(g, c), h2, x, ex);
    PathInside(h, x);
    FlipElsewhere(h, c, y, ex);
    StickyAlongPath(h, y, ex);
    assert StickyOf(h2, b, ex);
    SingleBlock(b, h, ex);
    SingleBlock(b, h2, ex);
  }

  lemma BranchLate(b: Block, takeThen: bool, g: Choice, c: Condition) returns (h: Choice)
    requires b.Conditional? && WellNamed([b]) && Independent([b])
    requires var x := if takeThen then b.thenSteps else b.elseSteps; c in Conditions(x) && BreaksLate(x, g, c)
    ensures BreaksLate([b], h, c)
  {
    var x := if takeThen then b.thenSteps else b.elseSteps;
    h := BranchSticky(b, takeThen, g, c, Elements(Path(g, x)));
  }

  // ---------- The conditional's own choice ----------

  /** Of the else branch one step ran and fixed nothing; then the then branch runs. */
  lemma ElseThenDisorder(b: Block) returns (h: Choice, early: string, late: string)
    requires b.Conditional? && WellNamed([b]) && Independent([b])
    requires Names(b.thenSteps) != [] && Names(b.elseSteps) != [] && !Anchored(b.elseSteps)
    ensures Disorder([b], h, b.condition, 1, early, late)
  {
    var own, t, e := b.condition, b.thenSteps, b.elseSteps;
    IndependentBranches(b);
    WellNamedBranches(b);
    LongestPositive(t);
    LongestPositive(e);
    var ht := Widest(t);
    var he := Widest(e);
    h := BothBranches(own, t, e, false, ht, he);
    EarlyUnstuck(b, h, e, t);
    early, late := Path(h, t)[0], Path(h, e)[0];
    PathInside(h, t);
    PathInside(h, e);
    FlipElsewhere(h, own, t, {});
    FlipElsewhere(h, own, e, {});
    assert early in Elements(Path(h, t)) && late in Elements(Path(h, e));
    SingleBlock(b, h, {late});
    SingleBlock(b, Flip(h, own), {late});
    assert Path(h, [b])[..1] == [late] && Elements([late]) == {late};
    BeforeInSum(Names(t), Names(e), early, late);
    assert Names([b]) == Names(t) + Names(e);
  }

  /** A completed then branch without a direct step fixes nothing. */
  lemma {:induction false} NoStepNoDirect(bs: seq<Block>)
    requires WellNamed(bs) && !HasStep(bs)
    ensures DirectNames(bs) * NameSet(bs) == {}
  {
    forall b | b in bs && !b.Parallel? ensures b.name in GroupNames(bs) {
      var i :| 0 <= i < |bs| && bs[i] == b;
      GroupNameInside(bs, i);
    }
  }

  lemma {:induction false} GroupNameInside(bs: seq<Block>, i: nat)
    requires i < |bs| && bs[i].Conditional?
    ensures bs[i].name in GroupNames(bs)
  {
    if i > 0 {
      assert bs[1..][i - 1] == bs[i];
      GroupNameInside(bs[1..], i - 1);
    }
  }

  lemma ThenElseLate(b: Block) returns (h: Choice)
    requires b.Conditional? && WellNamed([b]) && Independent([b])
    requires Names(b.elseSteps) != [] && !HasStep(b.thenSteps)
    ensures BreaksLate([b], h, b.condition)
  {
    var own, t, e := b.condition, b.thenSteps, b.elseSteps;
    IndependentBranches(b);
    WellNamedBranches(b);
    LongestPositive(e);
    var ht := Widest(t);
    var he := Widest(e);
    h := BothBranches(own, t, e, true, ht, he);
    var ex := Elements(Path(h, t));
    PathInside(h, t);
    PathInside(h, e);
    NoStepNoDirect(t);
    DirectNamesInside(e);
    FlipElsewhere(h, own, t, ex);
    FlipElsewhere(h, own, e, ex);
    StickyAlongPath(h, t, ex);
    StickyAlongPath(h, e, ex);
    assert StickyOf(Flip(h, own), b, ex);
    SingleBlock(b, h, ex);
    SingleBlock(b, Flip(h, own), ex);
    assert Path(h, e)[0] in Elements(Path(h, e));
  }

  lemma OneSidedLate(b: Block) returns (h: Choice)
    requires b.Conditional? && WellNamed([b]) && Independent([b])
    requires (Names(b.thenSteps) == []) != (Names(b.elseSteps) == [])
    ensures BreaksLate([b], h, b.condition)
  {
    var own, t, e := b.condition, b.thenSteps, b.elseSteps;
    IndependentBranches(b);
    LongestPositive(t);
    LongestPositive(e);
    var ht := Widest(t);
    var he := Widest(e);
    var full := Names(t) != [];
    h := BothBranches(own, t, e, !full, ht, he);
    LateChoice(b, h, if full then t else e, if full then e else t);
  }

  // ---------- Finding disorder ----------

  lemma {:induction false} FindDisorder(bs: seq<Block>, followed: bool)
    returns (h: Choice, c: Condition, k: nat, early: string, late: string)
    requires WellNamed(bs) && Independent(bs) && !Ordered(bs, followed)
    ensures Disordered(bs, followed, h, c, k, early, late)
    decreases bs
  {
    var head, rest := bs[..1], bs[1..];
    Parts(bs);
    if !Ordered(rest, followed) {
      h, c, k, early, late := FindDisorder(rest, followed);
      if k > 0 {
        TailDisorder(bs, h, c, k, early, late);
        k := |Path(h, head)| + k;
      } else {
        TailBreaksLate(bs, h, c);
      }
    } else {
      h, c, k, early, late := FindDisorderOne(bs[0], followed || Names(rest) != []);
      if k > 0 {
        HeadDisorder(bs, h, c, k, early, late);
      } else if Names(rest) != [] {
        h, k, early, late := FindLateDisorder(bs, h, c);
      } else {
        NoPath(rest, h);
        HeadBreaksLate(bs, h, c);
      }
    }
  }

  lemma NoPath(bs: seq<Block>, h: Choice)
    requires Names(bs) == []
    ensures Path(h, bs) == []
  {
    PathInside(h, bs);
    LongestPositive(bs);
  }

  lemma {:induction false} FindDisorderOne(b: Block, followed: bool)
    returns (h: Choice, c: Condition, k: nat, early: string, late: string)
    requires WellNamed([b]) && Independent([b]) && !OrderedOf(b, followed)
    ensures Disordered([b], followed, h, c, k, early, late)
    decreases b
  {
    match b
    case Parallel(steps) =>
      WellNamedGroup(b);
      assert Conditions([b]) == Conditions(steps);
      h, c, k, early, late := FindDisorder(steps, followed);
      if k > 0 { GroupDisorder(b, h, c, k, early, late); } else { GroupFlaw(b, followed, h, c, 0); }
    case Conditional(_, own, t, e) =>
      WellNamedBranches(b);
      IndependentBranches(b);
      if !Ordered(t, followed) {
        h, c, k, early, late := FindDisorder(t, followed);
        if k > 0 { h := BranchDisorder(b, true, h, c, k, early, late); } else { h := BranchLate(b, true, h, c); }
      } else if !Ordered(e, followed) {
        h, c, k, early, late := FindDisorder(e, followed);
        if k > 0 { h := BranchDisorder(b, false, h, c, k, early, late); } else { h := BranchLate(b, false, h, c); }
      } else {
        c, k, early, late := own, 0, "", "";
        if Names(t) != [] && Names(e) != [] {
          if !Anchored(e) {
            k := 1;
            h, early, late := ElseThenDisorder(b);
          } else {
            h := ThenElseLate(b);
          }
        } else {
          h := OneSidedLate(b);
        }
      }
  }

  // ---------- The theorem ----------

  /** A checkpoint after `k` steps along `h`. */
  lemma CutAlong(loop: LoopId, bs: seq<Block>, h: Choice, k: nat) returns (w: World, cp: Checkpoint)
    requires WellNamed(bs) && Independent(bs) && 1 <= k <= |Path(h, bs)|
    ensures cp in RunAll(Calm(loop, w), bs, Start(map[])).saved
    ensures Kept(cp) == WalkAll(w, bs, Walk(Begin(map[]), false), k).core
    ensures cp.executed == Path(h, bs)[..k] && Synced(Kept(cp))
  {
    w := FlipWorld(h, Constant(true), "");
    NotAfterElsewhere(bs, Constant(true), "");
    FirstWalks(bs, h, Constant(true), "", k);
    cp := CutIsSaved(loop, w, bs, map[], k);
  }

  /** A world that goes along `g` resumes that checkpoint. */
  lemma ResumeAlong(loop: LoopId, bs: seq<Block>, g: Choice, w: World, cp: Checkpoint, k: nat)
    returns (w2: World, r: Run)
    requires WellNamed(bs) && Independent(bs) && Synced(Kept(cp)) && cp.executed != []
    requires Kept(cp) == WalkAll(w, bs, Walk(Begin(map[]), false), k).core
    requires Sticky(g, bs, Elements(cp.executed))
    ensures r == RunAll(Calm(loop, w2), bs, Restore(cp)) && cp.executed <= r.executed
    ensures Elements(r.executed) == Elements(cp.executed) + Elements(Path(g, bs))
  {
    var z := cp.executed[0];
    w2 := FlipWorld(g, Constant(true), z);
    FlipElsewhere(g, Constant(true), bs, Elements(cp.executed));
    r := RestoredRun(loop, w, w2, bs, cp, k);
    ResumedWalk(g, Constant(true), z, bs, Kept(cp), |cp.executed| + Longest(bs));
    WalkExtends(w2, bs, Walk(Kept(cp), false), |cp.executed| + Longest(bs));
    assert r.executed == CoreOf(r).executed;
  }

  /** A cut along `h`, then a run along the flipped choice: two sessions in two worlds. */
  lemma DisorderShows(bs: seq<Block>, h: Choice, c: Condition, k: nat, early: string, late: string)
    requires WellNamed(bs) && Independent(bs) && c in Conditions(bs) && Disorder(bs, h, c, k, early, late)
    ensures !NeverOutOfOrder(bs)
  {
    var loop := LoopId("", "", "");
    var w, cp := CutAlong(loop, bs, h, k);
    var w2, r := ResumeAlong(loop, bs, Flip(h, c), w, cp, k);
    var ss := [Session(Calm(loop, w), None), Session(Calm(loop, w2), Some(cp))];
    assert ss[1].from.value in Outcome(bs, map[], ss[0]).saved;
    assert History(bs, map[], ss);
    assert r == Outcome(bs, map[], ss[1]);
    assert early in Elements(r.executed);
    OutOfOrder(Names(bs), cp.executed, r.executed, early, late);
  }

  /** What a calm resume of a cut, in another world, ends with. */
  lemma RestoredRun(loop: LoopId, w: World, w2: World, bs: seq<Block>, cp: Checkpoint, k: nat) returns (r: Run)
    requires Kept(cp) == WalkAll(w, bs, Walk(Begin(map[]), false), k).core
    ensures r == RunAll(Calm(loop, w2), bs, Restore(cp)) && CoreOf(r) == Complete(w2, bs, Kept(cp))
  {
    r := RunAll(Calm(loop, w2), bs, Restore(cp));
    WalkStores(w, bs, Walk(Begin(map[]), false), k);
    assert CoreOf(Restore(cp)) == Kept(cp);
    CalmGoes(loop, w2, bs, Restore(cp));
    UnstoppedRun(Calm(loop, w2), bs, Restore(cp));
  }

  lemma NotBothBefore(names: seq<string>, x: string, y: string)
    requires Distinct(names)
    ensures Before(names, x, y) ==> !Before(names, y, x)
  {
    if Before(names, x, y) {
      var i, j :| 0 <= i < j < |names| && names[i] == x && names[j] == y;
      forall k, l | 0 <= k < l < |names| ensures !(names[k] == y && names[l] == x) {
        assert names[k] == y ==> k == j;
        assert names[l] == x ==> l == i;
      }
    }
  }

  lemma OutOfOrder(names: seq<string>, ex: seq<string>, end: seq<string>, early: string, late: string)
    requires Distinct(names) && ex <= end && late in ex && early in end && early !in ex && Before(names, early, late)
    ensures !InOrder(names, end)
  {
    var i :| 0 <= i < |ex| && ex[i] == late;
    var j :| 0 <= j < |end| && end[j] == early;
    assert end[i] == late && |ex| <= j;
    NotBothBefore(names, early, late);
  }

  lemma PlainOrderedExactly(bs: seq<Block>)
    requires WellNamed(bs)
    ensures Ordered(bs, false) ==> NeverOutOfOrder(bs)
    ensures Independent(bs) ==> (NeverOutOfOrder(bs) <==> Ordered(bs, false))
  {
    if Ordered(bs, false) {
      forall initial: Ctx, ss: seq<Session>, i: nat | History(bs, initial, ss) && i < |ss|
        ensures InOrder(Names(bs), Outcome(bs, initial, ss[i]).executed)
      {
        ExecutedInDeclarationOrder(bs, initial, ss, i);
      }
    } else if Independent(bs) {
      var h, c, k, early, late := FindDisorder(bs, false);
      DisorderShows(bs, h, c, k, early, late);
    }
  }

  // ---------- Literals included ----------

  lemma {:induction false} PruneBefore(bs: seq<Block>, x: string, y: string)
    requires Before(Names(Prune(bs)), x, y)
    ensures Before(Names(bs), x, y)
    decreases bs
  {
    PruneSplit(bs);
    var b, rest := bs[0], bs[1..];
    BeforeParts(NamesOf(PruneOf(b)), Names(Prune(rest)), x, y);
    PruneNamesOf(b);
    PruneNames(rest);
    if Before(NamesOf(PruneOf(b)), x, y) {
      PruneBeforeOf(b, x, y);
    } else if Before(Names(Prune(rest)), x, y) {
      PruneBefore(rest, x, y);
    } else {
      assert x in Elements(NamesOf(PruneOf(b))) && y in NameSet(Prune(rest));
      assert x in Elements(NamesOf(b)) && y in NameSet(rest);
    }
    BeforeInSum(NamesOf(b), Names(rest), x, y);
  }

  lemma BeforeParts(s: seq<string>, t: seq<string>, x: string, y: string)
    requires Before(s + t, x, y)
    ensures Before(s, x, y) || Before(t, x, y) || (x in s && y in t)
  {
    var u := s + t;
    var i, j :| 0 <= i < j < |u| && u[i] == x && u[j] == y;
    if j < |s| {
      assert s[i] == x && s[j] == y;
    } else if i < |s| {
      assert s[i] == x && t[j - |s|] == y;
    } else {
      assert t[i - |s|] == x && t[j - |s|] == y;
    }
  }

  lemma {:induction false} PruneBeforeOf(b: Block, x: string, y: string)
    requires Before(NamesOf(PruneOf(b)), x, y)
    ensures Before(NamesOf(b), x, y)
    decreases b
  {
    match b
    case Step(_, _, _) =>
    case Parallel(steps) => PruneBefore(steps, x, y);
    case Conditional(_, c, t, e) =>
      if c.Constant? {
        PruneBefore(if c.truth then t else e, x, y);
      } else {
        BeforeParts(Names(Prune(t)), Names(Prune(e)), x, y);
        PruneNames(t);
        PruneNames(e);
        if Before(Names(Prune(t)), x, y) {
          PruneBefore(t, x, y);
        } else if Before(Names(Prune(e)), x, y) {
          PruneBefore(e, x, y);
        } else {
          assert x in NameSet(Prune(t)) && y in NameSet(Prune(e));
          assert x in NameSet(t) && y in NameSet(e);
        }
      }
      BeforeInSum(Names(t), Names(e), x, y);
  }

  /** Of two steps that pruning keeps, the order is kept as well. */
  lemma PruneOrder(bs: seq<Block>, x: string, y: string)
    requires Distinct(Names(bs)) && x in Names(Prune(bs)) && y in Names(Prune(bs))
    ensures Before(Names(Prune(bs)), x, y) <==> Before(Names(bs), x, y)
  {
    var ns := Names(Prune(bs));
    if Before(ns, x, y) {
      PruneBefore(bs, x, y);
    } else {
      var i :| 0 <= i < |ns| && ns[i] == x;
      var j :| 0 <= j < |ns| && ns[j] == y;
      if i != j {
        assert Before(ns, y, x);
        PruneBefore(bs, y, x);
      }
      NotBothBefore(Names(bs), y, x);
      NotBothBefore(Names(bs), x, x);
    }
  }

  lemma PruneInOrder(bs: seq<Block>, ex: seq<string>)
    requires Distinct(Names(bs)) && Elements(ex) <= NameSet(Prune(bs))
    ensures InOrder(Names(Prune(bs)), ex) <==> InOrder(Names(bs), ex)
  {
    PruneNames(bs);
    forall n | n in ex ensures n in Names(Prune(bs)) && n in Names(bs) {
      assert n in Elements(ex) && n in NameSet(Prune(bs)) && n in NameSet(bs);
    }
    forall i, j | 0 <= i < j < |ex|
      ensures Before(Names(Prune(bs)), ex[i], ex[j]) <==> Before(Names(bs), ex[i], ex[j])
    {
      PruneOrder(bs, ex[i], ex[j]);
    }
  }

  lemma ExecutedInside(bs: seq<Block>, initial: Ctx, ss: seq<Session>, i: nat)
    requires History(bs, initial, ss) && i < |ss|
    ensures Elements(Outcome(bs, initial, ss[i]).executed) <= NameSet(bs)
  {
    var names := NameSet(bs);
    forall w: World, c: Core, limit: int | Elements(c.executed) <= names
      ensures Elements(WalkAll(w, bs, Walk(c, false), limit).core.executed) <= names
    {
      WalkExtends(w, bs, Walk(c, false), limit);
    }
    assert Elements<string>([]) == {};
    HistoryKeeps(bs, initial, ss, i, ex => Elements(ex) <= names);
  }

  /**
   * If the pruned tree is ordered, every history keeps declaration order; when no condition is
   * written twice outside the branches that are never taken, only then.
   */
  lemma OrderedExactly(bs: seq<Block>)
    requires WellNamed(bs)
    ensures Ordered(Prune(bs), false) ==> NeverOutOfOrder(bs)
    ensures Distinct(Conditions(Prune(bs))) ==> (NeverOutOfOrder(bs) <==> Ordered(Prune(bs), false))
  {
    PruneWellNamed(bs);
    PruneNoLiterals(bs);
    PlainOrderedExactly(Prune(bs));
    forall initial: Ctx, ss: seq<Session>, i: nat | History(bs, initial, ss) && i < |ss|
      ensures InOrder(Names(bs), Outcome(bs, initial, ss[i]).executed)
         <==> InOrder(Names(Prune(bs)), Outcome(Prune(bs), initial, ss[i]).executed)
    {
      PruneHistory(bs, initial, ss);
      ExecutedInside(Prune(bs), initial, ss, i);
      PruneInOrder(bs, Outcome(bs, initial, ss[i]).executed);
    }
    forall initial: Ctx, ss: seq<Session> ensures History(Prune(bs), initial, ss) <==> History(bs, initial, ss) {
      PruneHistory(bs, initial, ss);
    }
  }
}
