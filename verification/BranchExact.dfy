/**
 * The exact condition for branch safety, for trees whose conditions are pairwise different
 * expressions (`Literals` admits literals): without it, two runs of the same loop, in one and the
 * same world, execute steps of both branches of a conditional.
 */
module BranchExact {
  import opened Values
  import opened Blocks
  import opened Engine
  import opened Resume
  import opened ResumeExact
  import opened Safety

  lemma {:induction false} CrossedGrows(bs: seq<Block>, ex: set<string>, ex2: set<string>)
    requires Crossed(bs, ex) && ex <= ex2
    ensures Crossed(bs, ex2)
    decreases bs
  {
    if CrossedOf(bs[0], ex) {
      match bs[0] {
        case Parallel(steps) => CrossedGrows(steps, ex, ex2);
        case Conditional(_, _, t, e) =>
          if Crossed(t, ex) { CrossedGrows(t, ex, ex2); }
          else if Crossed(e, ex) { CrossedGrows(e, ex, ex2); }
          else {
            assert NameSet(t) * ex <= NameSet(t) * ex2;
            assert NameSet(e) * ex <= NameSet(e) * ex2;
          }
      }
    } else {
      CrossedGrows(bs[1..], ex, ex2);
    }
  }

  /** What has run once the flawed run is resumed to its end. */
  function ResumedNames(bs: seq<Block>, h: Choice, c: Condition, k: nat): set<string>
    requires k <= |Path(h, bs)|
  {
    Elements(Path(h, bs)[..k]) + Elements(Path(Flip(h, c), bs))
  }

  ghost predicate Crosses(bs: seq<Block>, h: Choice, c: Condition, k: nat) {
    && k > 0 && c in Conditions(bs) && BreaksAt(bs, h, c, k)
    && Crossed(bs, ResumedNames(bs, h, c, k))
  }

  lemma TakenInTail(bs: seq<Block>, h: Choice, j: nat)
    requires bs != [] && j <= |Path(h, bs[1..])|
    ensures |Path(h, bs[..1])| + j <= |Path(h, bs)|
    ensures Elements(Path(h, bs[1..])[..j]) <= Elements(Path(h, bs)[..|Path(h, bs[..1])| + j])
  {
    PathSplit(h, bs);
    TakeOfSum(Path(h, bs[..1]), Path(h, bs[1..]), j);
  }

  lemma ResumedInTail(bs: seq<Block>, h: Choice, c: Condition, j: nat, k: nat)
    requires bs != [] && j <= |Path(h, bs[1..])| && k == |Path(h, bs[..1])| + j
    ensures k <= |Path(h, bs)| && ResumedNames(bs[1..], h, c, j) <= ResumedNames(bs, h, c, k)
  {
    TakenInTail(bs, h, j);
    TailIncluded(bs, Flip(h, c));
  }

  lemma TailIncluded(bs: seq<Block>, h: Choice)
    requires bs != []
    ensures Elements(Path(h, bs[1..])) <= Elements(Path(h, bs))
  {
    PathSplit(h, bs);
  }

  lemma TailCrossed(bs: seq<Block>, ex: set<string>, ex2: set<string>)
    requires bs != [] && Crossed(bs[1..], ex) && ex <= ex2
    ensures Crossed(bs, ex2)
  {
    CrossedGrows(bs[1..], ex, ex2);
  }

  /** More names, seen from the whole list: still crossed. */
  lemma CrossedInTail(bs: seq<Block>, h: Choice, c: Condition, j: nat, k: nat)
    requires bs != [] && j <= |Path(h, bs[1..])| && k == |Path(h, bs[..1])| + j
    requires Crossed(bs[1..], ResumedNames(bs[1..], h, c, j))
    ensures k <= |Path(h, bs)| && Crossed(bs, ResumedNames(bs, h, c, k))
  {
    ResumedInTail(bs, h, c, j, k);
    TailCrossed(bs, ResumedNames(bs[1..], h, c, j), ResumedNames(bs, h, c, k));
  }

  lemma CrossedInHead(bs: seq<Block>, h: Choice, c: Condition, k: nat)
    requires bs != [] && k <= |Path(h, bs[..1])| && Crossed(bs[..1], ResumedNames(bs[..1], h, c, k))
    ensures k <= |Path(h, bs)| && Crossed(bs, ResumedNames(bs, h, c, k))
  {
    PathSplit(h, bs);
    PathSplit(Flip(h, c), bs);
    assert Path(h, bs)[..k] == Path(h, bs[..1])[..k];
    assert bs[..1] == [bs[0]];
    CrossedGrows(bs[..1], ResumedNames(bs[..1], h, c, k), ResumedNames(bs, h, c, k));
  }

  lemma TailCrosses(bs: seq<Block>, h: Choice, c: Condition, j: nat, k: nat)
    requires WellNamed(bs) && Independent(bs) && bs != [] && Crosses(bs[1..], h, c, j)
    requires k == |Path(h, bs[..1])| + j
    ensures Crosses(bs, h, c, k)
  {
    assert c in Conditions(bs) by { Parts(bs); }
    TailBreaks(bs, h, c, j, k);
    CrossedInTail(bs, h, c, j, k);
  }

  lemma HeadCrosses(bs: seq<Block>, h: Choice, c: Condition, k: nat)
    requires WellNamed(bs) && Independent(bs) && bs != [] && Crosses(bs[..1], h, c, k)
    ensures Crosses(bs, h, c, k)
  {
    HeadAndTail(h, bs);
    HeadBreaks(bs, h, c, k);
    CrossedInHead(bs, h, c, k);
  }

  lemma {:induction false} FindCrossing(bs: seq<Block>) returns (h: Choice, c: Condition, k: nat)
    requires WellNamed(bs) && Independent(bs) && !BranchSafe(bs)
    ensures Crosses(bs, h, c, k)
    decreases bs
  {
    Parts(bs);
    if !BranchSafe(bs[1..]) {
      var j: nat;
      h, c, j := FindCrossing(bs[1..]);
      k := |Path(h, bs[..1])| + j;
      TailCrosses(bs, h, c, j, k);
    } else {
      h, c, k := FindCrossingOne(bs[0]);
      HeadCrosses(bs, h, c, k);
    }
  }

  lemma {:induction false} FindCrossingOne(b: Block) returns (h: Choice, c: Condition, k: nat)
    requires WellNamed([b]) && Independent([b]) && !BranchSafeOf(b)
    ensures Crosses([b], h, c, k)
    decreases b
  {
    match b
    case Parallel(steps) =>
      WellNamedGroup(b);
      assert Conditions([b]) == Conditions(steps);
      h, c, k := FindCrossing(steps);
      GroupFlaw(b, false, h, c, k);
      assert Path(h, [b]) == Path(h, steps) && Path(Flip(h, c), [b]) == Path(Flip(h, c), steps);
      assert CrossedOf(b, ResumedNames([b], h, c, k));
    case Conditional(_, own, t, e) =>
      WellNamedBranches(b);
      IndependentBranches(b);
      if !BranchSafe(t) {
        h, c, k := FindCrossing(t);
        h := BranchFlaw(b, false, true, h, c, k);
        assert CrossedOf(b, ResumedNames([b], h, c, k));
      } else if !BranchSafe(e) {
        h, c, k := FindCrossing(e);
        h := BranchFlaw(b, false, false, h, c, k);
        assert CrossedOf(b, ResumedNames([b], h, c, k));
      } else {
        h := CrossOwnBranches(b);
        c, k := own, 1;
      }
  }

  /** Start in a branch that is not anchored, then take the other. */
  lemma CrossOwnBranches(b: Block) returns (h: Choice)
    requires b.Conditional? && WellNamed([b]) && Independent([b])
    requires Names(b.thenSteps) != [] && Names(b.elseSteps) != []
    requires !(Anchored(b.thenSteps) && Anchored(b.elseSteps))
    ensures Crosses([b], h, b.condition, 1)
  {
    var own, t, e := b.condition, b.thenSteps, b.elseSteps;
    IndependentBranches(b);
    var ht := Widest(t);
    var he := Widest(e);
    LongestPositive(t);
    LongestPositive(e);
    h := BothBranches(own, t, e, !Anchored(t), ht, he);
    var (x, y) := if !Anchored(t) then (t, e) else (e, t);
    EarlyChoice(b, h, x, y);
    FlipElsewhere(h, own, x, {});
    FlipElsewhere(h, own, y, {});
    PathInside(h, x);
    PathInside(h, y);
    assert Path(h, [b]) == Path(h, x) && Path(Flip(h, own), [b]) == Path(h, y);
    var ex := ResumedNames([b], h, own, 1);
    assert Path(h, x)[..1][0] in Elements(Path(h, x)) && Path(h, y)[0] in Elements(Path(h, y));
    assert Path(h, x)[..1][0] in NameSet(x) * ex && Path(h, y)[0] in NameSet(y) * ex;
    assert CrossedOf(b, ex);
  }

  ghost predicate NeverCrosses(bs: seq<Block>) {
    forall initial: Ctx, ss: seq<Session>, i: nat :: History(bs, initial, ss) && i < |ss| ==>
      !Crossed(bs, Elements(Outcome(bs, initial, ss[i]).executed))
  }

  /** A checkpoint of the witness world after `k` steps along `h`. */
  lemma WitnessCut(loop: LoopId, bs: seq<Block>, h: Choice, c: Condition, z: string, k: nat) returns (cp: Checkpoint)
    requires WellNamed(bs) && Independent(bs) && NotAfter(bs, c, z) && 0 < k <= |Path(h, bs)|
    ensures var w := FlipWorld(h, c, z);
            && cp in RunAll(Calm(loop, w), bs, Start(map[])).saved
            && RunAll(Calm(loop, w), bs, Restore(cp)).executed == Complete(w, bs, Kept(cp)).executed
    ensures Kept(cp).executed == Path(h, bs)[..k] && Synced(Kept(cp))
  {
    var w := FlipWorld(h, c, z);
    FirstWalks(bs, h, c, z, k);
    cp := CutIsSaved(loop, w, bs, map[], k);
    var r := RunAll(Calm(loop, w), bs, Restore(cp));
    assert r.executed == CoreOf(r).executed;
  }

  /** What a resumed run of the witness world has executed when it completes. */
  lemma CrossingResumed(loop: LoopId, bs: seq<Block>, h: Choice, c: Condition, k: nat)
    returns (w: World, cp: Checkpoint)
    requires WellNamed(bs) && Independent(bs) && 0 < k <= |Path(h, bs)|
    requires NotAfter(bs, c, Path(h, bs)[k - 1]) && Sticky(Flip(h, c), bs, Elements(Path(h, bs)[..k]))
    ensures cp in RunAll(Calm(loop, w), bs, Start(map[])).saved
    ensures Elements(RunAll(Calm(loop, w), bs, Restore(cp)).executed) == ResumedNames(bs, h, c, k)
  {
    var p := Path(h, bs);
    var z := p[k - 1];
    w := FlipWorld(h, c, z);
    cp := WitnessCut(loop, bs, h, c, z, k);
    var cut := Kept(cp);
    assert z in cut.executed by { assert p[..k][k - 1] == z; }
    ResumedWalk(h, c, z, bs, cut, |cut.executed| + Longest(bs));
  }

  lemma CrossingShows(loop: LoopId, bs: seq<Block>, h: Choice, c: Condition, k: nat)
    requires WellNamed(bs) && Independent(bs) && Crosses(bs, h, c, k)
    ensures !NeverCrosses(bs)
  {
    var w, cp := CrossingResumed(loop, bs, h, c, k);
    var ss := [Session(Calm(loop, w), None), Session(Calm(loop, w), Some(cp))];
    assert ss[1].from.value in Outcome(bs, map[], ss[0]).saved;
    assert History(bs, map[], ss);
    assert Crossed(bs, Elements(Outcome(bs, map[], ss[1]).executed));
  }

  /**
   * No history of a branch-safe tree executes both branches of a conditional; if the conditions
   * are pairwise different expressions, some history of any other tree does.
   */
  lemma PlainBranchSafeExactly(bs: seq<Block>)
    requires WellNamed(bs)
    ensures BranchSafe(bs) ==> NeverCrosses(bs)
    ensures Independent(bs) ==> (NeverCrosses(bs) <==> BranchSafe(bs))
  {
    if BranchSafe(bs) {
      forall initial: Ctx, ss: seq<Session>, i: nat | History(bs, initial, ss) && i < |ss|
        ensures !Crossed(bs, Elements(Outcome(bs, initial, ss[i]).executed))
      {
        NeverBothBranches(bs, initial, ss, i);
      }
    } else if Independent(bs) {
      var h, c, k := FindCrossing(bs);
      CrossingShows(LoopId("", "", ""), bs, h, c, k);
    }
  }

  lemma SingleGroup(name: string, a: Action)
    ensures var bs := [Parallel([Step(name, a, false)])];
            Names(bs) == [name] && Conditions(bs) == [] && GroupNames(bs) == {} && !Anchored(bs)
  {
    var bs := [Parallel([Step(name, a, false)])];
    SingleStep(name, a);
    assert bs[1..] == [] && NamesOf(bs[0]) == [name] && ConditionsOf(bs[0]) == [] && GroupNamesOf(bs[0]) == {};
  }

  /** A conditional whose `then` branch opens with a parallel group can run both branches. */
  lemma ParallelFirstCrosses(c: string, a: Action)
    ensures var bs := [Conditional("if", Expression(c), [Parallel([Step("left", a, false)])],
                                   [Step("right", a, false)])];
            WellNamed(bs) && Independent(bs) && !NeverCrosses(bs)
  {
    var t, e := [Parallel([Step("left", a, false)])], [Step("right", a, false)];
    var bs := [Conditional("if", Expression(c), t, e)];
    SingleGroup("left", a);
    SingleStep("right", a);
    assert bs[1..] == [] && NamesOf(bs[0]) == ["left", "right"];
    assert ConditionsOf(bs[0]) == [Expression(c)] && GroupNamesOf(bs[0]) == {"if"};
    assert Names(bs) == ["left", "right"] && Conditions(bs) == [Expression(c)] && GroupNames(bs) == {"if"};
    PlainBranchSafeExactly(bs);
  }
}
