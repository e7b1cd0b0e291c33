/**
 * The converse of crash/resume equivalence: for a tree that is not resumable there are step
 * results, condition values and a checkpoint from which the run ends differently. Together with
 * `Resume` this makes `Resumable` the exact static condition for trees whose conditions are pairwise
 * different expressions; `Literals` admits literals, and shows why conditions must not repeat.
 *
 * The witness fails every step, so the context holds exactly the executed names, and flips one
 * condition once one chosen step has run.
 */
module ResumeExact {
  import opened Values
  import opened Blocks
  import opened Engine
  import opened Resume

  type Choice = Condition -> bool

  function Conditions(bs: seq<Block>): seq<Condition> {
    if bs == [] then [] else ConditionsOf(bs[0]) + Conditions(bs[1..])
  }

  function ConditionsOf(b: Block): seq<Condition> {
    match b
    case Step(_, _, _) => []
    case Parallel(steps) => Conditions(steps)
    case Conditional(_, c, t, e) => [c] + (Conditions(t) + Conditions(e))
  }

  /** No condition is a boolean literal. */
  predicate NoLiterals(cs: seq<Condition>) {
    forall c :: c in cs ==> !c.Constant?
  }

  /** Conditions are pairwise different and none is a boolean literal. */
  predicate Independent(bs: seq<Block>) {
    Distinct(Conditions(bs)) && NoLiterals(Conditions(bs))
  }

  /** The steps a fresh run executes when every conditional goes by `h`. */
  function Path(h: Choice, bs: seq<Block>): seq<string> {
    if bs == [] then [] else PathOf(h, bs[0]) + Path(h, bs[1..])
  }

  function PathOf(h: Choice, b: Block): seq<string> {
    match b
    case Step(name, _, _) => [name]
    case Parallel(steps) => Path(h, steps)
    case Conditional(_, c, t, e) => if h(c) then Path(h, t) else Path(h, e)
  }

  /** With the names in `ex` executed, stickiness never overrules `h`. */
  predicate Sticky(h: Choice, bs: seq<Block>, ex: set<string>) {
    bs != [] ==> StickyOf(h, bs[0], ex) && Sticky(h, bs[1..], ex)
  }

  predicate StickyOf(h: Choice, b: Block, ex: set<string>) {
    match b
    case Step(_, _, _) => true
    case Parallel(steps) => Sticky(h, steps, ex)
    case Conditional(_, c, t, e) =>
      && (DirectNames(t) * ex != {} ==> h(c))
      && (DirectNames(e) * ex != {} ==> !h(c))
      && Sticky(h, t, ex) && Sticky(h, e, ex)
  }

  /** `c` belongs to no conditional that is reached after step `z`. */
  predicate NotAfter(bs: seq<Block>, c: Condition, z: string) {
    bs != [] ==>
      && (z in NamesOf(bs[0]) ==> c !in Conditions(bs[1..]))
      && NotAfterOf(bs[0], c, z)
      && NotAfter(bs[1..], c, z)
  }

  predicate NotAfterOf(b: Block, c: Condition, z: string) {
    match b
    case Step(_, _, _) => true
    case Parallel(steps) => NotAfter(steps, c, z)
    case Conditional(_, _, t, e) => NotAfter(t, c, z) && NotAfter(e, c, z)
  }

  function Flip(h: Choice, c: Condition): Choice {
    x => if x == c then !h(x) else h(x)
  }

  // ---------- Facts about paths ----------

  lemma {:induction false} PathInside(h: Choice, bs: seq<Block>)
    ensures Elements(Path(h, bs)) <= NameSet(bs)
    ensures |Path(h, bs)| <= Longest(bs)
    ensures Distinct(Names(bs)) ==> Distinct(Path(h, bs))
    ensures bs != [] ==>
              Elements(PathOf(h, bs[0])) <= Elements(NamesOf(bs[0])) && |PathOf(h, bs[0])| <= LongestOf(bs[0])
    decreases bs
  {
    if bs != [] {
      PathInsideOf(h, bs[0]);
      PathInside(h, bs[1..]);
      ElementsOfSum(NamesOf(bs[0]), Names(bs[1..]));
      DistinctParts(NamesOf(bs[0]), Names(bs[1..]));
      ElementsOfSum(PathOf(h, bs[0]), Path(h, bs[1..]));
      DistinctParts(PathOf(h, bs[0]), Path(h, bs[1..]));
    }
  }

  lemma {:induction false} PathInsideOf(h: Choice, b: Block)
    ensures Elements(PathOf(h, b)) <= Elements(NamesOf(b)) && |PathOf(h, b)| <= LongestOf(b)
    ensures Distinct(NamesOf(b)) ==> Distinct(PathOf(h, b))
    decreases b
  {
    match b
    case Step(_, _, _) =>
    case Parallel(steps) => PathInside(h, steps);
    case Conditional(_, _, t, e) =>
      PathInside(h, t);
      PathInside(h, e);
      ElementsOfSum(Names(t), Names(e));
      DistinctParts(Names(t), Names(e));
  }

  /** Path and stickiness depend on the choices made inside the blocks only. */
  lemma {:induction false} ChoiceLocal(h: Choice, h2: Choice, bs: seq<Block>, ex: set<string>)
    requires forall c :: c in Conditions(bs) ==> h(c) == h2(c)
    ensures Path(h, bs) == Path(h2, bs) && Sticky(h, bs, ex) == Sticky(h2, bs, ex)
    ensures bs != [] ==> PathOf(h, bs[0]) == PathOf(h2, bs[0]) && StickyOf(h, bs[0], ex) == StickyOf(h2, bs[0], ex)
  {
    if bs != [] {
      assert forall c :: c in ConditionsOf(bs[0]) ==> c in Conditions(bs);
      assert forall c :: c in Conditions(bs[1..]) ==> c in Conditions(bs);
      match bs[0] {
        case Step(_, _, _) =>
        case Parallel(steps) => ChoiceLocal(h, h2, steps, ex);
        case Conditional(_, c, t, e) =>
          assert c in ConditionsOf(bs[0]);
          assert forall x :: x in Conditions(t) ==> x in ConditionsOf(bs[0]);
          assert forall x :: x in Conditions(e) ==> x in ConditionsOf(bs[0]);
          ChoiceLocal(h, h2, t, ex);
          ChoiceLocal(h, h2, e, ex);
      }
      ChoiceLocal(h, h2, bs[1..], ex);
    }
  }

  /** What ran along `h` makes nothing stick against `h`. */
  lemma {:induction false} StickyAlongPath(h: Choice, bs: seq<Block>, ex: set<string>)
    requires WellNamed(bs) && ex * Labels(bs) <= Elements(Path(h, bs))
    ensures Sticky(h, bs, ex)
    decreases bs
  {
    if bs != [] {
      var b, rest := bs[0], bs[1..];
      WellNamedParts(bs);
      LabelsSplit(bs);
      PathInside(h, bs);
      PathInside(h, rest);
      ElementsOfSum(PathOf(h, b), Path(h, rest));
      assert ex * Labels(rest) <= Elements(Path(h, rest));
      assert ex * LabelsOf(b) <= Elements(PathOf(h, b));
      StickyAlongPathOf(h, b, ex);
      StickyAlongPath(h, rest, ex);
    }
  }

  lemma {:induction false} StickyAlongPathOf(h: Choice, b: Block, ex: set<string>)
    requires WellNamed([b]) && ex * LabelsOf(b) <= Elements(PathOf(h, b))
    ensures StickyOf(h, b, ex)
    decreases b
  {
    match b
    case Step(_, _, _) =>
    case Parallel(steps) =>
      WellNamedGroup(b);
      StickyAlongPath(h, steps, ex);
    case Conditional(_, c, t, e) =>
      WellNamedBranches(b);
      LabelsOfBranches(b);
      DirectNamesInside(t);
      DirectNamesInside(e);
      PathInside(h, t);
      PathInside(h, e);
      StickyAlongPath(h, t, ex);
      StickyAlongPath(h, e, ex);
  }

  lemma {:induction false} StickyLocal(h: Choice, bs: seq<Block>, ex: set<string>, ex2: set<string>)
    requires SameOn(ex, ex2, Labels(bs))
    ensures Sticky(h, bs, ex) == Sticky(h, bs, ex2)
    decreases bs
  {
    if bs != [] {
      var b := bs[0];
      LabelsSplit(bs);
      StickyLocal(h, bs[1..], ex, ex2);
      match b {
        case Step(_, _, _) =>
        case Parallel(steps) => StickyLocal(h, steps, ex, ex2);
        case Conditional(_, _, t, e) =>
          LabelsOfBranches(b);
          DirectNamesInside(t);
          DirectNamesInside(e);
          assert DirectNames(t) * ex == DirectNames(t) * ex2;
          assert DirectNames(e) * ex == DirectNames(e) * ex2;
          StickyLocal(h, t, ex, ex2);
          StickyLocal(h, e, ex, ex2);
      }
    }
  }

  // ---------- The witness world ----------

  /** Every step fails; conditions go by `h`, with the one on `c` flipped once `z` has run. */
  ghost predicate Flips(w: World, h: Choice, c: Condition, z: string) {
    && (forall b: Block, ctx: Ctx :: !w.result(b, ctx).success)
    && (forall x: Condition, ctx: Ctx :: w.holds(x, ctx) == if z in ctx then Flip(h, c)(x) else h(x))
  }

  function FlipWorld(h: Choice, c: Condition, z: string): World {
    World((b: Block, ctx: Ctx) => StepResult("", false, NoOutput, None, 0, 0.0),
          (x: Condition, ctx: Ctx) => if z in ctx then Flip(h, c)(x) else h(x))
  }

  ghost predicate Synced(s: Core) {
    s.ctx.Keys == Elements(s.executed)
  }

  function UpTo(s: seq<string>, n: nat): seq<string> {
    if n <= |s| then s[..n] else s
  }

  /** Where the first block leaves a run along `h`. */
  lemma AfterHead(h: Choice, c: Condition, z: string, bs: seq<Block>, ex: seq<string>)
    requires WellNamed(bs) && bs != [] && Avoids(ex, Labels(bs))
    requires NotAfter(bs, c, z) && (z in ex ==> c !in Conditions(bs))
    ensures Avoids(ex, LabelsOf(bs[0])) && (z in ex ==> c !in ConditionsOf(bs[0]))
    ensures Avoids(ex + PathOf(h, bs[0]), Labels(bs[1..])) && (z in ex + PathOf(h, bs[0]) ==> c !in Conditions(bs[1..]))
  {
    WellNamedParts(bs);
    LabelsSplit(bs);
    PathInside(h, bs);
    forall n | n in PathOf(h, bs[0]) ensures n in NamesOf(bs[0]) { assert n in Elements(PathOf(h, bs[0])); }
    assert forall n :: n in NamesOf(bs[0]) ==> n in Elements(NamesOf(bs[0]));
    assert forall x :: x in ConditionsOf(bs[0]) || x in Conditions(bs[1..]) ==> x in Conditions(bs);
  }

  /** The first run goes along `h`. */
  lemma {:induction false} FirstWalk(
      w: World, h: Choice, c: Condition, z: string, bs: seq<Block>, s: Core, limit: nat)
    requires Flips(w, h, c, z)
    requires WellNamed(bs) && NoLiterals(Conditions(bs)) && Synced(s) && Avoids(s.executed, Labels(bs))
    requires NotAfter(bs, c, z) && (z in s.executed ==> c !in Conditions(bs)) && |s.executed| <= limit
    ensures var r := WalkAll(w, bs, Walk(s, false), limit);
            && Synced(r.core)
            && r.core.executed == UpTo(s.executed + Path(h, bs), limit)
            && (r.halted <==> limit < |s.executed + Path(h, bs)|)
    decreases bs
  {
    if bs != [] {
      AfterHead(h, c, z, bs, s.executed);
      WellNamedParts(bs);
      assert forall x :: x in ConditionsOf(bs[0]) || x in Conditions(bs[1..]) ==> x in Conditions(bs);
      var mid := WalkOne(w, bs[0], Walk(s, false), limit);
      FirstWalkOne(w, h, c, z, bs[0], s, limit);
      SumAssociates(s.executed, PathOf(h, bs[0]), Path(h, bs[1..]));
      if mid.halted {
        HaltedStays(w, bs[1..], mid, limit);
      } else {
        FirstWalk(w, h, c, z, bs[1..], mid.core, limit);
      }
    }
  }

  lemma {:induction false} FirstWalkOne(
      w: World, h: Choice, c: Condition, z: string, b: Block, s: Core, limit: nat)
    requires Flips(w, h, c, z)
    requires WellNamed([b]) && NoLiterals(ConditionsOf(b)) && Synced(s) && Avoids(s.executed, LabelsOf(b))
    requires NotAfterOf(b, c, z) && (z in s.executed ==> c !in ConditionsOf(b)) && |s.executed| <= limit
    ensures var r := WalkOne(w, b, Walk(s, false), limit);
            && Synced(r.core)
            && r.core.executed == UpTo(s.executed + PathOf(h, b), limit)
            && (r.halted <==> limit < |s.executed + PathOf(h, b)|)
    decreases b
  {
    match b
    case Step(name, _, _) =>
      ElementsOfSum(s.executed, [name]);
    case Parallel(steps) =>
      WellNamedGroup(b);
      FirstWalk(w, h, c, z, steps, s, limit);
    case Conditional(_, x, t, e) =>
      WellNamedBranches(b);
      LabelsOfBranches(b);
      FreshChoice(w, b, s);
      assert x in ConditionsOf(b);
      assert forall y :: y in Conditions(t) ==> y in ConditionsOf(b);
      assert forall y :: y in Conditions(e) ==> y in ConditionsOf(b);
      FirstWalk(w, h, c, z, if h(x) then t else e, s, limit);
  }

  /** A resumed run adds the path along the flipped choice. */
  lemma {:induction false} ResumedWalk(h: Choice, c: Condition, z: string, bs: seq<Block>, s: Core, limit: nat)
    requires WellNamed(bs) && NoLiterals(Conditions(bs)) && Synced(s) && z in s.executed
    requires Sticky(Flip(h, c), bs, Elements(s.executed)) && |s.executed| + Longest(bs) <= limit
    ensures var r := WalkAll(FlipWorld(h, c, z), bs, Walk(s, false), limit);
            && Synced(r.core)
            && Elements(r.core.executed) == Elements(s.executed) + Elements(Path(Flip(h, c), bs))
    decreases bs
  {
    if bs != [] {
      var w, h2 := FlipWorld(h, c, z), Flip(h, c);
      WellNamedParts(bs);
      LabelsSplit(bs);
      PathInside(h2, bs);
      WalkExtends(w, bs, Walk(s, false), limit);
      var mid := WalkOne(w, bs[0], Walk(s, false), limit);
      ResumedWalkOne(h, c, z, bs[0], s, limit);
      StickyLocal(h2, bs[1..], Elements(s.executed), Elements(mid.core.executed));
      ElementsOfSum(PathOf(h2, bs[0]), Path(h2, bs[1..]));
      ResumedWalk(h, c, z, bs[1..], mid.core, limit);
    }
  }

  lemma FlippedChoice(h: Choice, c: Condition, z: string, b: Block, s: Core)
    requires b.Conditional? && !b.condition.Constant? && Synced(s) && z in s.executed
    requires StickyOf(Flip(h, c), b, Elements(s.executed))
    ensures TakesThen(FlipWorld(h, c, z), b, s.executed, s.ctx) == Flip(h, c)(b.condition)
  {
    MeetsExecuted(DirectNames(b.thenSteps), s.executed);
    MeetsExecuted(DirectNames(b.elseSteps), s.executed);
  }

  lemma {:induction false} ResumedWalkOne(h: Choice, c: Condition, z: string, b: Block, s: Core, limit: nat)
    requires WellNamed([b]) && NoLiterals(ConditionsOf(b)) && Synced(s) && z in s.executed
    requires StickyOf(Flip(h, c), b, Elements(s.executed)) && |s.executed| + LongestOf(b) <= limit
    ensures var r := WalkOne(FlipWorld(h, c, z), b, Walk(s, false), limit);
            && Synced(r.core)
            && Elements(r.core.executed) == Elements(s.executed) + Elements(PathOf(Flip(h, c), b))
    decreases b
  {
    match b
    case Step(name, _, _) =>
      ElementsOfSum(s.executed, [name]);
      assert Elements([name]) == {name};
    case Parallel(steps) =>
      WellNamedGroup(b);
      ResumedWalk(h, c, z, steps, s, limit);
    case Conditional(_, x, t, e) =>
      WellNamedBranches(b);
      assert x in ConditionsOf(b);
      assert forall y :: y in Conditions(t) ==> y in ConditionsOf(b);
      assert forall y :: y in Conditions(e) ==> y in ConditionsOf(b);
      FlippedChoice(h, c, z, b, s);
      ResumedWalk(h, c, z, if Flip(h, c)(x) then t else e, s, limit);
  }

  // ---------- Finding the flaw ----------

  /** After the first `k` steps along `h`, flipping `c` changes which steps run in the end. */
  ghost predicate BreaksAt(bs: seq<Block>, h: Choice, c: Condition, k: nat) {
    && 1 <= k <= |Path(h, bs)|
    && NotAfter(bs, c, Path(h, bs)[k - 1])
    && Sticky(Flip(h, c), bs, Elements(Path(h, bs)[..k]))
    && Elements(Path(h, bs)[..k]) + Elements(Path(Flip(h, c), bs)) != Elements(Path(h, bs))
  }

  /** After the blocks ran along `h`, flipping `c` lets a later pass execute more of them. */
  ghost predicate BreaksLate(bs: seq<Block>, h: Choice, c: Condition) {
    && Sticky(Flip(h, c), bs, Elements(Path(h, bs)))
    && !(Elements(Path(Flip(h, c), bs)) <= Elements(Path(h, bs)))
  }

  lemma {:induction false} NotAfterElsewhere(bs: seq<Block>, c: Condition, z: string)
    requires z !in Names(bs) || c !in Conditions(bs)
    ensures NotAfter(bs, c, z)
    ensures bs != [] ==> NotAfterOf(bs[0], c, z)
  {
    if bs != [] {
      match bs[0] {
        case Step(_, _, _) =>
        case Parallel(steps) => NotAfterElsewhere(steps, c, z);
        case Conditional(_, x, t, e) =>
          assert forall y :: y in Conditions(t) + Conditions(e) ==> y in ConditionsOf(bs[0]);
          NotAfterElsewhere(t, c, z);
          NotAfterElsewhere(e, c, z);
      }
      NotAfterElsewhere(bs[1..], c, z);
    }
  }

  lemma SingleBlock(b: Block, h: Choice, ex: set<string>)
    ensures Path(h, [b]) == PathOf(h, b) && Sticky(h, [b], ex) == StickyOf(h, b, ex)
  {}

  lemma PathSplit(h: Choice, bs: seq<Block>)
    requires bs != []
    ensures Path(h, bs[..1]) == PathOf(h, bs[0]) && Path(h, bs) == Path(h, bs[..1]) + Path(h, bs[1..])
    ensures Elements(Path(h, bs)) == Elements(Path(h, bs[..1])) + Elements(Path(h, bs[1..]))
  {
    assert bs[..1] == [bs[0]];
    ElementsOfSum(PathOf(h, bs[0]), Path(h, bs[1..]));
  }

  /** What the head and tail of a list share: nothing. */
  lemma HeadAndTail(h: Choice, bs: seq<Block>)
    requires WellNamed(bs) && Independent(bs) && bs != []
    ensures Path(h, bs) == Path(h, bs[..1]) + Path(h, bs[1..]) && Path(h, bs[..1]) == PathOf(h, bs[0])
    ensures Elements(Path(h, bs)) == Elements(Path(h, bs[..1])) + Elements(Path(h, bs[1..]))
    ensures Elements(Path(h, bs[..1])) <= Elements(NamesOf(bs[0])) == NameSet(bs[..1])
    ensures Elements(Path(h, bs[1..])) <= NameSet(bs[1..])
    ensures WellNamed(bs[..1]) && WellNamed(bs[1..]) && Independent(bs[..1]) && Independent(bs[1..])
    ensures NameSet(bs[..1]) !! Labels(bs[1..]) && NameSet(bs[1..]) !! Labels(bs[..1])
    ensures Conditions(bs[..1]) == ConditionsOf(bs[0]) && Conditions(bs) == Conditions(bs[..1]) + Conditions(bs[1..])
    ensures forall c :: c in Conditions(bs[..1]) ==> c !in Conditions(bs[1..])
    ensures forall c :: c in Conditions(bs[1..]) ==> c !in Conditions(bs[..1])
  {
    assert bs[..1] == [bs[0]];
    WellNamedParts(bs);
    PathInside(h, bs);
    PathInside(h, bs[..1]);
    PathInside(h, bs[1..]);
    ElementsOfSum(PathOf(h, bs[0]), Path(h, bs[1..]));
    DistinctParts(ConditionsOf(bs[0]), Conditions(bs[1..]));
    assert forall c :: c in ConditionsOf(bs[0]) ==> c in Elements(ConditionsOf(bs[0]));
    assert forall c :: c in Conditions(bs[1..]) ==> c in Elements(Conditions(bs[1..]));
    assert Names(bs[..1]) == NamesOf(bs[0]);
    assert GroupNames(bs[..1]) == GroupNamesOf(bs[0]);
  }

  /** The parts inherit the hygiene of the whole. */
  lemma Parts(bs: seq<Block>)
    requires WellNamed(bs) && Independent(bs) && bs != []
    ensures bs[..1] == [bs[0]] && WellNamed(bs[..1]) && WellNamed(bs[1..])
    ensures Independent(bs[..1]) && Independent(bs[1..])
    ensures Conditions(bs[..1]) == ConditionsOf(bs[0]) && Conditions(bs) == Conditions(bs[..1]) + Conditions(bs[1..])
  {
    HeadAndTail(_ => true, bs);
  }

  lemma FlipElsewhere(h: Choice, c: Condition, bs: seq<Block>, ex: set<string>)
    requires c !in Conditions(bs)
    ensures Path(Flip(h, c), bs) == Path(h, bs) && Sticky(Flip(h, c), bs, ex) == Sticky(h, bs, ex)
  {
    ChoiceLocal(Flip(h, c), h, bs, ex);
  }

  /** A flaw inside the first block is a flaw of the list. */
  lemma HeadBreaks(bs: seq<Block>, h: Choice, c: Condition, k: nat)
    requires WellNamed(bs) && Independent(bs) && bs != [] && c in Conditions(bs[..1])
    requires BreaksAt(bs[..1], h, c, k)
    ensures BreaksAt(bs, h, c, k)
  {
    var head, rest := bs[..1], bs[1..];
    HeadAndTail(h, bs);
    HeadAndTail(Flip(h, c), bs);
    var p := Path(h, head);
    assert Path(h, bs)[..k] == p[..k] && Path(h, bs)[k - 1] == p[k - 1];
    assert p[k - 1] in Elements(p) && Elements(p[..k]) <= Elements(p);
    FlipElsewhere(h, c, rest, Elements(p[..k]));
    StickyAlongPath(h, rest, Elements(p[..k]));
    NotAfterElsewhere(rest, c, p[k - 1]);
  }

  lemma ApartDiffer(a: set<string>, ran: set<string>, more: set<string>, all: set<string>)
    requires a !! all && a !! more && ran <= all && ran + more != all
    ensures (a + ran) + (a + more) != a + all
  {
    if x :| x in ran + more && x !in all {
      assert x in (a + ran) + (a + more) && x !in a + all;
    } else {
      var x :| x in all && x !in ran + more;
      assert x in a + all && x !in (a + ran) + (a + more);
    }
  }

  /** What differs in the tail differs in the list. */
  lemma TailDiffers(bs: seq<Block>, h: Choice, c: Condition, k: nat)
    requires WellNamed(bs) && Independent(bs) && bs != [] && c in Conditions(bs[1..]) && k <= |Path(h, bs[1..])|
    requires Elements(Path(h, bs[1..])[..k]) + Elements(Path(Flip(h, c), bs[1..])) != Elements(Path(h, bs[1..]))
    ensures |Path(h, bs[..1])| + k <= |Path(h, bs)|
    ensures Elements(Path(h, bs)[..|Path(h, bs[..1])| + k]) + Elements(Path(Flip(h, c), bs)) != Elements(Path(h, bs))
  {
    var p, q := Path(h, bs[..1]), Path(h, bs[1..]);
    var ran, more, all := Elements(q[..k]), Elements(Path(Flip(h, c), bs[1..])), Elements(q);
    TailApart(bs, h, c);
    TailTake(bs, h, k);
    ApartDiffer(Elements(p), ran, more, all);
    assert Elements(Path(Flip(h, c), bs)) == Elements(p) + more by { TailTake(bs, Flip(h, c), 0); }
  }

  /** A path up to its `k`-th step in the tail, and the whole path. */
  lemma TailTake(bs: seq<Block>, h: Choice, k: nat)
    requires bs != [] && k <= |Path(h, bs[1..])|
    ensures |Path(h, bs[..1])| + k <= |Path(h, bs)|
    ensures Elements(Path(h, bs)[..|Path(h, bs[..1])| + k]) ==
              Elements(Path(h, bs[..1])) + Elements(Path(h, bs[1..])[..k])
    ensures Elements(Path(h, bs)) == Elements(Path(h, bs[..1])) + Elements(Path(h, bs[1..]))
    ensures Elements(Path(h, bs[1..])[..k]) <= Elements(Path(h, bs[1..]))
  {
    PathSplit(h, bs);
    TakeOfSum(Path(h, bs[..1]), Path(h, bs[1..]), k);
  }

  lemma TailApart(bs: seq<Block>, h: Choice, c: Condition)
    requires WellNamed(bs) && Independent(bs) && bs != [] && c in Conditions(bs[1..])
    ensures Path(Flip(h, c), bs[..1]) == Path(h, bs[..1])
    ensures Elements(Path(h, bs[..1])) !! Elements(Path(h, bs[1..]))
    ensures Elements(Path(h, bs[..1])) !! Elements(Path(Flip(h, c), bs[1..]))
  {
    HeadAndTail(h, bs);
    FlipElsewhere(h, c, bs[..1], {});
    PathInside(Flip(h, c), bs[1..]);
  }

  /** A flaw inside the tail is a flaw of the list. */
  lemma TailBreaks(bs: seq<Block>, h: Choice, c: Condition, j: nat, k: nat)
    requires WellNamed(bs) && Independent(bs) && bs != [] && c in Conditions(bs[1..])
    requires BreaksAt(bs[1..], h, c, j) && k == |Path(h, bs[..1])| + j
    ensures BreaksAt(bs, h, c, k)
  {
    var head, rest := bs[..1], bs[1..];
    var p, q := Path(h, head), Path(h, rest);
    TailDiffers(bs, h, c, j);
    assert Path(h, bs) == p + q && Path(h, bs)[..k] == p + q[..j] && Path(h, bs)[k - 1] == q[j - 1] by {
      PathSplit(h, bs);
      TakeOfSum(p, q, j);
    }
    assert Elements(q[..j]) <= Elements(q) by { TakeOfSum(p, q, j); }
    TailSticky(bs, h, c, q[..j]);
    TailNotAfter(bs, h, c, q[j - 1]);
  }

  lemma TailNotAfter(bs: seq<Block>, h: Choice, c: Condition, z: string)
    requires WellNamed(bs) && Independent(bs) && bs != [] && c in Conditions(bs[1..])
    requires z in Path(h, bs[1..]) && NotAfter(bs[1..], c, z)
    ensures NotAfter(bs, c, z)
  {
    HeadAndTail(h, bs);
    assert z in Elements(Path(h, bs[1..]));
    NotAfterElsewhere(bs[..1], c, z);
  }

  /** The head ran along `h`, so only the tail decides whether the flipped choice sticks. */
  lemma TailSticky(bs: seq<Block>, h: Choice, c: Condition, q: seq<string>)
    requires WellNamed(bs) && Independent(bs) && bs != [] && c in Conditions(bs[1..])
    requires Elements(q) <= Elements(Path(h, bs[1..])) && Sticky(Flip(h, c), bs[1..], Elements(q))
    ensures Sticky(Flip(h, c), bs, Elements(Path(h, bs[..1]) + q))
  {
    var head, rest := bs[..1], bs[1..];
    HeadAndTail(h, bs);
    var ex := Elements(Path(h, head) + q);
    ElementsOfSum(Path(h, head), q);
    FlipElsewhere(h, c, head, ex);
    StickyAlongPath(h, head, ex);
    StickyLocal(Flip(h, c), rest, Elements(q), ex);
    assert head == [bs[0]];
    SingleBlock(bs[0], Flip(h, c), ex);
  }

  lemma TailBreaksLate(bs: seq<Block>, h: Choice, c: Condition)
    requires WellNamed(bs) && Independent(bs) && bs != [] && c in Conditions(bs[1..])
    requires BreaksLate(bs[1..], h, c)
    ensures BreaksLate(bs, h, c)
  {
    HeadAndTail(h, bs);
    PathSplit(Flip(h, c), bs);
    TailSticky(bs, h, c, Path(h, bs[1..]));
    FlipElsewhere(h, c, bs[..1], {});
    PathInside(Flip(h, c), bs[1..]);
  }

  /** A late flaw of the head shows once a step of the tail has run, or is still late. */
  lemma HeadBreaksLate(bs: seq<Block>, h: Choice, c: Condition)
    requires WellNamed(bs) && Independent(bs) && bs != [] && c in Conditions(bs[..1])
    requires BreaksLate(bs[..1], h, c)
    ensures Path(h, bs[1..]) != [] ==> BreaksAt(bs, h, c, |Path(h, bs[..1])| + 1)
    ensures Path(h, bs[1..]) == [] ==> BreaksLate(bs, h, c)
  {
    var head, rest := bs[..1], bs[1..];
    HeadAndTail(h, bs);
    HeadAndTail(Flip(h, c), bs);
    var p, q := Path(h, head), Path(h, rest);
    var n := if q == [] then 0 else 1;
    var ex := Elements(p + q[..n]);
    assert Path(h, bs)[..|p| + n] == p + q[..n];
    assert Elements(q[..n]) <= Elements(q);
    ElementsOfSum(p, q[..n]);
    FlipElsewhere(h, c, rest, ex);
    StickyAlongPath(h, rest, ex);
    StickyLocal(Flip(h, c), head, Elements(p), ex);
    if q != [] { assert q[0] in Elements(q); NotAfterElsewhere(head, c, q[0]); NotAfterElsewhere(rest, c, q[0]); }
  }

  // ---------- The widest path ----------

  function Mix(h: Choice, cs: seq<Condition>, h2: Choice): Choice {
    x => if x in cs then h(x) else h2(x)
  }

  /** There are choices along which a pass is as long as it can be. */
  lemma {:induction false} Widest(bs: seq<Block>) returns (h: Choice)
    requires Distinct(Conditions(bs))
    ensures |Path(h, bs)| == Longest(bs)
  {
    h := _ => true;
    if bs != [] {
      DistinctParts(ConditionsOf(bs[0]), Conditions(bs[1..]));
      var h1 := WidestOf(bs[0]);
      var h2 := Widest(bs[1..]);
      h := Mix(h1, ConditionsOf(bs[0]), h2);
      assert forall c :: c in Conditions(bs[1..]) ==> c in Elements(Conditions(bs[1..]));
      assert forall c :: c in ConditionsOf(bs[0]) ==> c in Elements(ConditionsOf(bs[0]));
      assert Conditions([bs[0]]) == ConditionsOf(bs[0]);
      ChoiceLocal(h, h1, [bs[0]], {});
      ChoiceLocal(h, h2, bs[1..], {});
    }
  }

  lemma {:induction false} WidestOf(b: Block) returns (h: Choice)
    requires Distinct(ConditionsOf(b))
    ensures |PathOf(h, b)| == LongestOf(b)
  {
    match b
    case Step(_, _, _) => h := _ => true;
    case Parallel(steps) => h := Widest(steps);
    case Conditional(_, c, t, e) =>
      DistinctParts([c], Conditions(t) + Conditions(e));
      DistinctParts(Conditions(t), Conditions(e));
      var ht := Widest(t);
      var he := Widest(e);
      h := BothBranches(c, t, e, Longest(t) >= Longest(e), ht, he);
  }

  /** Choices for a conditional put together from its own value and the choices for its branches. */
  lemma BothBranches(c: Condition, t: seq<Block>, e: seq<Block>, takeThen: bool, ht: Choice, he: Choice)
    returns (h: Choice)
    requires Distinct([c] + (Conditions(t) + Conditions(e)))
    ensures h(c) == takeThen
    ensures forall x :: x in Conditions(t) ==> h(x) == ht(x)
    ensures Path(h, t) == Path(ht, t) && Path(h, e) == Path(he, e)
  {
    DistinctParts([c], Conditions(t) + Conditions(e));
    DistinctParts(Conditions(t), Conditions(e));
    assert c in Elements([c]);
    forall x | x in Conditions(t) ensures x != c && x !in Conditions(e) {
      assert x in Elements(Conditions(t)) && x in Elements(Conditions(t) + Conditions(e));
    }
    forall x | x in Conditions(e) ensures x != c && x !in Conditions(t) {
      assert x in Elements(Conditions(e)) && x in Elements(Conditions(t) + Conditions(e));
    }
    h := x => if x == c then takeThen else if x in Conditions(t) then ht(x) else he(x);
    ChoiceLocal(h, ht, t, {});
    ChoiceLocal(h, he, e, {});
  }

  lemma {:induction false} LongestPositive(bs: seq<Block>)
    ensures Longest(bs) > 0 <==> Names(bs) != []
    ensures bs != [] ==> (LongestOf(bs[0]) > 0 <==> NamesOf(bs[0]) != [])
  {
    if bs != [] {
      match bs[0] {
        case Step(_, _, _) =>
        case Parallel(steps) => LongestPositive(steps);
        case Conditional(_, _, t, e) => LongestPositive(t); LongestPositive(e);
      }
      LongestPositive(bs[1..]);
    }
  }

  /** The first step of a widest path through an unanchored branch is no direct child of it. */
  lemma {:induction false} UnanchoredFirst(h: Choice, bs: seq<Block>)
    requires WellNamed(bs) && Names(bs) != [] && !Anchored(bs) && |Path(h, bs)| == Longest(bs)
    ensures Path(h, bs) != [] && Path(h, bs)[0] !in DirectNames(bs)
  {
    var b, rest := bs[0], bs[1..];
    LongestPositive(bs);
    WellNamedParts(bs);
    PathInside(h, bs);
    PathInside(h, rest);
    DirectNamesInside(rest);
    assert DirectNames(bs) == (if b.Parallel? then {} else {b.name}) + DirectNames(rest);
    var z := Path(h, bs)[0];
    if NamesOf(b) == [] {
      LongestPositive([b]);
      UnanchoredFirst(h, rest);
      assert z in Elements(Path(h, rest));
    } else {
      assert z == PathOf(h, b)[0] && z in Elements(PathOf(h, b));
    }
  }

  /** Where a flaw shows: after `k > 0` steps, or only after later steps (`k == 0`). */
  ghost predicate Flawed(bs: seq<Block>, followed: bool, h: Choice, c: Condition, k: nat) {
    && c in Conditions(bs)
    && (if k > 0 then BreaksAt(bs, h, c, k) else followed && BreaksLate(bs, h, c))
  }

  lemma {:induction false} FindFlaw(bs: seq<Block>, followed: bool) returns (h: Choice, c: Condition, k: nat)
    requires WellNamed(bs) && Independent(bs) && !Resumable(bs, followed)
    ensures Flawed(bs, followed, h, c, k)
    decreases bs
  {
    var head, rest := bs[..1], bs[1..];
    Parts(bs);
    if !Resumable(rest, followed) {
      h, c, k := FindFlaw(rest, followed);
      k := TailFlaw(bs, followed, h, c, k);
    } else {
      h, c, k := FindFlawOne(bs[0], followed || Names(rest) != []);
      if k > 0 {
        HeadBreaks(bs, h, c, k);
      } else {
        h, k := FindLateFlaw(bs, followed, h, c);
      }
    }
  }

  lemma TailFlaw(bs: seq<Block>, followed: bool, h: Choice, c: Condition, j: nat) returns (k: nat)
    requires WellNamed(bs) && Independent(bs) && bs != [] && Flawed(bs[1..], followed, h, c, j)
    ensures Flawed(bs, followed, h, c, k)
  {
    HeadAndTail(h, bs);
    if j > 0 {
      TailBreaks(bs, h, c, j, |Path(h, bs[..1])| + j);
      k := |Path(h, bs[..1])| + j;
    } else {
      TailBreaksLate(bs, h, c);
      k := 0;
    }
  }

  /** A late flaw of the first block, with the tail walked as far as it goes. */
  lemma FindLateFlaw(bs: seq<Block>, followed: bool, g: Choice, c: Condition) returns (h: Choice, k: nat)
    requires WellNamed(bs) && Independent(bs) && bs != [] && c in Conditions(bs[..1])
    requires BreaksLate(bs[..1], g, c) && (followed || Names(bs[1..]) != [])
    ensures Flawed(bs, followed, h, c, k)
  {
    var head, rest := bs[..1], bs[1..];
    HeadAndTail(g, bs);
    var wide := Widest(rest);
    h := Mix(g, Conditions(head), wide);
    ChoiceLocal(g, h, head, Elements(Path(g, head)));
    ChoiceLocal(Flip(g, c), Flip(h, c), head, Elements(Path(g, head)));
    ChoiceLocal(wide, h, rest, {});
    LongestPositive(rest);
    HeadBreaksLate(bs, h, c);
    k := if Names(rest) != [] then |Path(h, head)| + 1 else 0;
  }

  lemma GroupFlaw(b: Block, followed: bool, h: Choice, c: Condition, k: nat)
    requires b.Parallel? && Flawed(b.steps, followed, h, c, k)
    ensures Flawed([b], followed, h, c, k)
  {
    var h2 := Flip(h, c);
    assert Conditions([b]) == Conditions(b.steps);
    assert Path(h, [b]) == Path(h, b.steps) && Path(h2, [b]) == Path(h2, b.steps);
    if k > 0 {
      var ex, z := Elements(Path(h, b.steps)[..k]), Path(h, b.steps)[k - 1];
      assert StickyOf(h2, b, ex) && NotAfterOf(b, c, z);
      assert Sticky(h2, [b], ex) && NotAfter([b], c, z);
    } else {
      assert StickyOf(h2, b, Elements(Path(h, b.steps)));
    }
  }

  lemma {:induction false} FindFlawOne(b: Block, followed: bool) returns (h: Choice, c: Condition, k: nat)
    requires WellNamed([b]) && Independent([b]) && !ResumableOf(b, followed)
    ensures Flawed([b], followed, h, c, k)
    decreases b
  {
    match b
    case Parallel(steps) =>
      WellNamedGroup(b);
      assert Conditions([b]) == Conditions(steps);
      h, c, k := FindFlaw(steps, followed);
      GroupFlaw(b, followed, h, c, k);
    case Conditional(_, own, t, e) =>
      assert Conditions([b]) == [own] + (Conditions(t) + Conditions(e));
      if !Resumable(t, followed) {
        WellNamedBranches(b);
        IndependentBranches(b);
        h, c, k := FindFlaw(t, followed);
        h := BranchFlaw(b, followed, true, h, c, k);
      } else if !Resumable(e, followed) {
        WellNamedBranches(b);
        IndependentBranches(b);
        h, c, k := FindFlaw(e, followed);
        h := BranchFlaw(b, followed, false, h, c, k);
      } else {
        h, k := FindFlawInChoice(b, followed);
        c := own;
      }
  }

  lemma IndependentBranches(b: Block)
    requires b.Conditional? && Independent([b])
    ensures Independent(b.thenSteps) && Independent(b.elseSteps)
    ensures Conditions([b]) == [b.condition] + (Conditions(b.thenSteps) + Conditions(b.elseSteps))
    ensures b.condition !in Conditions(b.thenSteps) && b.condition !in Conditions(b.elseSteps)
    ensures forall x :: x in Conditions(b.thenSteps) ==> x !in Conditions(b.elseSteps)
    ensures forall x :: x in Conditions(b.elseSteps) ==> x !in Conditions(b.thenSteps)
  {
    var t, e := Conditions(b.thenSteps), Conditions(b.elseSteps);
    assert Conditions([b]) == [b.condition] + (t + e);
    DistinctParts([b.condition], t + e);
    DistinctParts(t, e);
    assert b.condition in Elements([b.condition]);
    forall x | x in t ensures x != b.condition && x !in e && x in Conditions([b]) {
      assert x in Elements(t) && x in Elements(t + e);
    }
    forall x | x in e ensures x != b.condition && x !in t && x in Conditions([b]) {
      assert x in Elements(e) && x in Elements(t + e);
    }
  }

  /** A flaw inside a branch is a flaw of the conditional, once that branch is chosen. */
  lemma BranchFlaw(b: Block, followed: bool, takeThen: bool, g: Choice, c: Condition, k: nat) returns (h: Choice)
    requires b.Conditional? && WellNamed([b]) && Independent([b])
    requires Flawed(if takeThen then b.thenSteps else b.elseSteps, followed, g, c, k)
    ensures Flawed([b], followed, h, c, k)
    ensures var x := if takeThen then b.thenSteps else b.elseSteps;
            Path(h, [b]) == Path(g, x) && Path(Flip(h, c), [b]) == Path(Flip(g, c), x)
  {
    var own := b.condition;
    var (x, y) := if takeThen then (b.thenSteps, b.elseSteps) else (b.elseSteps, b.thenSteps);
    WellNamedBranches(b);
    LabelsOfBranches(b);
    IndependentBranches(b);
    DirectNamesInside(x);
    DirectNamesInside(y);
    h := z => if z == own then takeThen else g(z);
    var h2 := Flip(h, c);
    var ex := Elements(if k > 0 then Path(g, x)[..k] else Path(g, x));
    ChoiceLocal(g, h, x, ex);
    ChoiceLocal(Flip(g, c), h2, x, ex);
    PathInside(h, x);
    assert ex <= Elements(Path(h, x));
    FlipElsewhere(h, c, y, ex);
    StickyAlongPath(h, y, ex);
    assert StickyOf(h2, b, ex);
    SingleBlock(b, h, ex);
    SingleBlock(b, h2, ex);
    if k > 0 {
      var z := Path(g, x)[k - 1];
      assert z in Elements(Path(g, x));
      NotAfterElsewhere(y, c, z);
      assert NotAfterOf(b, c, z);
      assert NotAfter([b], c, z);
    }
  }

  /** `x` is the branch `h` takes or, if `taken` is false, the other one. */
  ghost predicate Sides(b: Block, h: Choice, x: seq<Block>, y: seq<Block>, taken: bool) {
    b.Conditional? && (if h(b.condition) == taken then x == b.thenSteps && y == b.elseSteps
                       else x == b.elseSteps && y == b.thenSteps)
  }

  /** The branch not taken holds steps and the one taken does not: it may run late. */
  lemma LateChoice(b: Block, h: Choice, x: seq<Block>, y: seq<Block>)
    requires b.Conditional? && WellNamed([b]) && Independent([b]) && Sides(b, h, x, y, false)
    requires Names(y) == [] && Path(h, x) != []
    ensures BreaksLate([b], h, b.condition)
  {
    var h2 := Flip(h, b.condition);
    WellNamedBranches(b);
    IndependentBranches(b);
    PathInside(h, x);
    PathInside(h, y);
    assert Path(h, [b]) == Path(h, y) && |Path(h, y)| == 0 by { LongestPositive(y); }
    FlipElsewhere(h, b.condition, x, {});
    FlipElsewhere(h, b.condition, y, {});
    StickyAlongPath(h, x, {});
    StickyAlongPath(h, y, {});
    assert Path(h2, [b]) == Path(h, x);
    assert Path(h, x)[0] in Elements(Path(h2, [b]));
    assert Elements(Path(h, [b])) == {};
  }

  /** The first step of the branch taken leaves no trace of the choice. */
  lemma EarlyUnstuck(b: Block, h: Choice, x: seq<Block>, y: seq<Block>)
    requires b.Conditional? && WellNamed([b]) && Independent([b]) && Sides(b, h, x, y, true)
    requires Names(x) != [] && !Anchored(x) && |Path(h, x)| == Longest(x)
    ensures Path(h, x) != [] && StickyOf(Flip(h, b.condition), b, {Path(h, x)[0]})
    ensures NotAfterOf(b, b.condition, Path(h, x)[0])
  {
    var own := b.condition;
    WellNamedBranches(b);
    IndependentBranches(b);
    PathInside(h, x);
    UnanchoredFirst(h, x);
    var z := Path(h, x)[0];
    assert z in Elements(Path(h, x));
    DirectNamesInside(y);
    FlipElsewhere(h, own, x, {z});
    FlipElsewhere(h, own, y, {z});
    StickyAlongPath(h, x, {z});
    StickyAlongPath(h, y, {z});
    NotAfterElsewhere(x, own, z);
    NotAfterElsewhere(y, own, z);
  }

  lemma EarlyChoice(b: Block, h: Choice, x: seq<Block>, y: seq<Block>)
    requires b.Conditional? && WellNamed([b]) && Independent([b]) && Sides(b, h, x, y, true)
    requires Names(x) != [] && !Anchored(x) && |Path(h, x)| == Longest(x)
    requires Path(h, y) != [] || |Path(h, x)| > 1
    ensures BreaksAt([b], h, b.condition, 1)
  {
    var own := b.condition;
    var h2 := Flip(h, own);
    EarlyUnstuck(b, h, x, y);
    WellNamedBranches(b);
    IndependentBranches(b);
    PathInside(h, x);
    PathInside(h, y);
    FlipElsewhere(h, own, y, {});
    var p, q := Path(h, x), Path(h, y);
    SingleBlock(b, h, {p[0]});
    SingleBlock(b, h2, {p[0]});
    assert Path(h, [b]) == p && Path(h2, [b]) == q;
    assert p[..1] == [p[0]] && Elements(p[..1]) == {p[0]};
    assert NotAfter([b], own, p[0]);
    if q != [] {
      assert q[0] in Elements(q) && q[0] !in Elements(p);
    } else {
      assert p[1] != p[0] && p[1] in Elements(p) && Elements(q) == {};
    }
  }

  /** The conditional's own choice is not kept. */
  lemma {:induction false} FindFlawInChoice(b: Block, followed: bool) returns (h: Choice, k: nat)
    requires b.Conditional? && WellNamed([b]) && Independent([b])
    requires !BranchesKept(b.thenSteps, b.elseSteps, followed)
    ensures Flawed([b], followed, h, b.condition, k)
  {
    var own, t, e := b.condition, b.thenSteps, b.elseSteps;
    IndependentBranches(b);
    var ht := Widest(t);
    var he := Widest(e);
    // the branch whose choice is lost, and the other one
    var loseThen := Names(t) != [] && (Names(e) == [] || !Anchored(t));
    var (x, y) := if loseThen then (t, e) else (e, t);
    LongestPositive(t);
    LongestPositive(e);
    if Names(y) == [] && followed {
      h := BothBranches(own, t, e, !loseThen, ht, he);
      k := 0;
      LateChoice(b, h, x, y);
    } else {
      h := BothBranches(own, t, e, loseThen, ht, he);
      k := 1;
      EarlyChoice(b, h, x, y);
    }
  }

  // ---------- The exact condition ----------

  /** An undisturbed run checkpoints after every step. */
  lemma {:induction false} CalmSaves(loop: LoopId, w: World, bs: seq<Block>, m: Run, k: nat)
    requires m.stop == Going && |m.executed| < k
    ensures k <= |RunAll(Calm(loop, w), bs, m).executed| ==>
              exists c :: c in RunAll(Calm(loop, w), bs, m).saved && |c.executed| == k
    ensures bs != [] && k <= |RunOne(Calm(loop, w), bs[0], m).executed| ==>
              exists c :: c in RunOne(Calm(loop, w), bs[0], m).saved && |c.executed| == k
  {
    if bs != [] {
      var e := Calm(loop, w);
      match bs[0] {
        case Step(_, _, _) =>
          var r := RunOne(e, bs[0], m);
          if k <= |r.executed| {
            assert r.saved[|r.saved| - 1] in r.saved && |r.saved[|r.saved| - 1].executed| == k;
          }
        case Parallel(steps) => CalmSaves(loop, w, steps, m, k);
        case Conditional(_, _, t, f) => CalmSaves(loop, w, t, m, k); CalmSaves(loop, w, f, m, k);
      }
      var mid := RunOne(e, bs[0], m);
      CalmGoes(loop, w, bs, m);
      RunGrows(e, bs, m);
      RunGrows(e, bs[1..], mid);
      if k > |mid.executed| {
        CalmSaves(loop, w, bs[1..], mid, k);
      } else {
        var c :| c in mid.saved && |c.executed| == k;
        assert c in RunAll(e, bs, m).saved;
      }
    }
  }

  /** Whatever steps return and conditions say, every checkpoint of an undisturbed run resumes faithfully. */
  ghost predicate AlwaysFaithful(loop: LoopId, bs: seq<Block>) {
    forall w: World, initial: Ctx, c: Checkpoint ::
      c in RunAll(Calm(loop, w), bs, Start(initial)).saved ==>
        CoreOf(RunAll(Calm(loop, w), bs, Restore(c))) == CoreOf(RunAll(Calm(loop, w), bs, Start(initial)))
  }

  /** From the start, the witness world walks along `h`, and a cut after `k` steps is a prefix. */
  lemma FirstWalks(bs: seq<Block>, h: Choice, c: Condition, z: string, k: nat)
    requires WellNamed(bs) && Independent(bs) && NotAfter(bs, c, z) && k <= |Path(h, bs)|
    ensures var w := FlipWorld(h, c, z);
            var cut := WalkAll(w, bs, Walk(Begin(map[]), false), k).core;
            && Complete(w, bs, Begin(map[])).executed == Path(h, bs)
            && cut.executed == Path(h, bs)[..k] && Synced(cut)
  {
    PathInside(h, bs);
    assert [] + Path(h, bs) == Path(h, bs);
    FirstWalk(FlipWorld(h, c, z), h, c, z, bs, Begin(map[]), Longest(bs));
    FirstWalk(FlipWorld(h, c, z), h, c, z, bs, Begin(map[]), k);
  }

  /** A flaw seen on walks: continuing after `k` steps ends with other steps executed. */
  lemma FlawInWalks(bs: seq<Block>, h: Choice, c: Condition, k: nat)
    requires WellNamed(bs) && Independent(bs) && BreaksAt(bs, h, c, k)
    ensures var w := FlipWorld(h, c, Path(h, bs)[k - 1]);
            var cut := WalkAll(w, bs, Walk(Begin(map[]), false), k).core;
            && k <= |Complete(w, bs, Begin(map[])).executed|
            && Complete(w, bs, cut) != Complete(w, bs, Begin(map[]))
  {
    var p := Path(h, bs);
    var z := p[k - 1];
    var w := FlipWorld(h, c, z);
    FirstWalks(bs, h, c, z, k);
    var cut := WalkAll(w, bs, Walk(Begin(map[]), false), k).core;
    assert p[..k][k - 1] == z;
    var end := Complete(w, bs, cut);
    assert Elements(end.executed) == Elements(p[..k]) + Elements(Path(Flip(h, c), bs)) by {
      ResumedWalk(h, c, z, bs, cut, |cut.executed| + Longest(bs));
    }
  }

  /** Every cut of the undisturbed run is one of its checkpoints. */
  lemma CutIsSaved(loop: LoopId, w: World, bs: seq<Block>, initial: Ctx, k: nat) returns (cp: Checkpoint)
    requires 0 < k <= |Complete(w, bs, Begin(initial)).executed|
    ensures cp in RunAll(Calm(loop, w), bs, Start(initial)).saved
    ensures Kept(cp) == WalkAll(w, bs, Walk(Begin(initial), false), k).core
    ensures CoreOf(RunAll(Calm(loop, w), bs, Restore(cp))) == Complete(w, bs, Kept(cp))
    ensures CoreOf(RunAll(Calm(loop, w), bs, Start(initial))) == Complete(w, bs, Begin(initial))
  {
    var calm, m := Calm(loop, w), Start(initial);
    assert CoreOf(m) == Begin(initial);
    CalmGoes(loop, w, bs, m);
    UnstoppedRun(calm, bs, m);
    RunIsWalk(calm, bs, m);
    assert |RunAll(calm, bs, m).executed| == |CoreOf(RunAll(calm, bs, m)).executed|;
    CalmSaves(loop, w, bs, m, k);
    cp :| cp in RunAll(calm, bs, m).saved && |cp.executed| == k;
    WalkStores(w, bs, Walk(Begin(initial), false), k);
    assert CoreOf(Restore(cp)) == Kept(cp);
    CalmGoes(loop, w, bs, Restore(cp));
    UnstoppedRun(calm, bs, Restore(cp));
  }

  lemma FlawShows(loop: LoopId, bs: seq<Block>, h: Choice, c: Condition, k: nat)
    requires WellNamed(bs) && Independent(bs) && BreaksAt(bs, h, c, k)
    ensures !AlwaysFaithful(loop, bs)
  {
    var w := FlipWorld(h, c, Path(h, bs)[k - 1]);
    FlawInWalks(bs, h, c, k);
    var cp := CutIsSaved(loop, w, bs, map[], k);
  }

  /**
   * `Resumable` can be read off the tree before the run, and it makes resuming reproduce the
   * uninterrupted run for all step results and condition values. If the conditions are pairwise
   * different expressions, nothing less does.
   */
  lemma PlainResumableExactly(loop: LoopId, bs: seq<Block>)
    requires WellNamed(bs)
    ensures Resumable(bs, false) ==> AlwaysFaithful(loop, bs)
    ensures Independent(bs) ==> (AlwaysFaithful(loop, bs) <==> Resumable(bs, false))
  {
    if Resumable(bs, false) {
      forall w: World, initial: Ctx, c: Checkpoint | c in RunAll(Calm(loop, w), bs, Start(initial)).saved
        ensures CoreOf(RunAll(Calm(loop, w), bs, Restore(c))) == CoreOf(RunAll(Calm(loop, w), bs, Start(initial)))
      {
        CrashResumeEquivalence(loop, w, bs, initial, [Session(Calm(loop, w), None)], 0);
      }
    } else if Independent(bs) {
      var h, c, k := FindFlaw(bs, false);
      FlawShows(loop, bs, h, c, k);
    }
  }

  lemma SingleStep(name: string, a: Action)
    ensures var bs := [Step(name, a, false)];
            Names(bs) == [name] && Conditions(bs) == [] && GroupNames(bs) == {} && Anchored(bs) && Resumable(bs, false)
  {
    var bs := [Step(name, a, false)];
    assert bs[1..] == [] && Resumable(bs[1..], false) && Resumable(bs[1..], true);
    assert NamesOf(bs[0]) == [name] && ConditionsOf(bs[0]) == [] && GroupNamesOf(bs[0]) == {};
    assert Names(bs[1..]) == [] && Conditions(bs[1..]) == [] && GroupNames(bs[1..]) == {};
  }

  /** An `if` without else that is followed by a step: resuming may decide it again. */
  lemma IfWithoutElseUnfaithful(loop: LoopId, c: string, a: Action)
    ensures var bs := [Conditional("if", Expression(c), [Step("then", a, false)], []), Step("after", a, false)];
            WellNamed(bs) && Independent(bs) && !AlwaysFaithful(loop, bs)
  {
    var t, after := [Step("then", a, false)], [Step("after", a, false)];
    var bs := [Conditional("if", Expression(c), t, []), Step("after", a, false)];
    SingleStep("then", a);
    SingleStep("after", a);
    assert bs[1..] == after && NamesOf(bs[0]) == ["then"];
    assert ConditionsOf(bs[0]) == [Expression(c)] && GroupNamesOf(bs[0]) == {"if"};
    assert Names(bs) == ["then", "after"] && Conditions(bs) == [Expression(c)] && GroupNames(bs) == {"if"};
    PlainResumableExactly(loop, bs);
  }
}
