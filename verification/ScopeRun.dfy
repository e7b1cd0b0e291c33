/**
 * Scoping soundness at run time: in the tree built from an accepted document, whatever a step may
 * read without a condition in between has been executed before the step runs, in every history of
 * interrupted and resumed runs and whatever the steps return.
 */
module ScopeRun {
  import opened Values
  import opened Blocks
  import opened Engine
  import opened Resume
  import opened Safety
  import opened LoopSpec
  import opened Scope

  /** No branch is entered on the way. */
  predicate Unconditional(loc: Loc) {
    forall j :: 0 <= j < |loc| ==> loc[j] != Then && loc[j] != Else
  }

  /** `d` is visible at `r`, and every branch around `d` is also around `r`. */
  ghost predicate Certain(d: Loc, r: Loc) {
    exists k :: 0 <= k < |d| && k < |r| && PartAt(d, r, k) && Unconditional(d[k..])
  }

  /** Whenever `b` was executed, `a` had been executed before it. */
  predicate Precedes(ex: seq<string>, a: string, b: string) {
    forall j :: 0 <= j < |ex| && ex[j] == b ==> a in ex[..j]
  }

  predicate LeafNamed(n: Option<Node>, x: string) {
    n.Some? && n.value.Leaf? && n.value.name == x
  }

  /** A leaf in a group that can be built is one of its children. */
  lemma LeafOfGroup(n: Node, deny: set<string>, loc: Loc, x: string)
    requires n.Group? && Build(n, deny).Some? && LeafNamed(Below(n, loc), x)
    ensures |loc| == 1 && loc[0].Child? && loc[0].j < |n.steps|
    ensures n.steps[loc[0].j].Leaf? && n.steps[loc[0].j].name == x
  {
    assert loc != [];
    assert At(n.steps, loc, true) == Below(n, loc);
    assert At(n.steps, loc, true) == Below(n.steps[loc[0].j], loc[1..]);
    assert n.steps[loc[0].j].Leaf?;
  }

  // ---------- Building, position by position ----------

  lemma {:induction false} BuildAt(ns: seq<Node>, deny: set<string>, k: nat)
    requires BuildAll(ns, deny).Some? && k < |ns|
    ensures |BuildAll(ns, deny).value| == |ns|
    ensures Build(ns[k], deny) == Some(BuildAll(ns, deny).value[k])
  {
    BuildKeepsNames(ns, deny);
    if k > 0 {
      BuildAt(ns[1..], deny, k - 1);
    }
  }

  lemma {:induction false} BuiltNamed(ns: seq<Node>, deny: set<string>, loc: Loc, par: bool, x: string)
    requires BuildAll(ns, deny).Some? && LeafNamed(At(ns, loc, par), x)
    ensures var k := if par then loc[0].j else loc[0].i;
            |BuildAll(ns, deny).value| == |ns| && x in NamesOf(BuildAll(ns, deny).value[k])
    ensures x in Names(BuildAll(ns, deny).value)
    decreases ns
  {
    var k := if par then loc[0].j else loc[0].i;
    BuildAt(ns, deny, k);
    BuiltNamedBelow(ns[k], deny, loc[1..], x);
    NamesAt(BuildAll(ns, deny).value, k);
  }

  lemma {:induction false} BuiltNamedBelow(n: Node, deny: set<string>, loc: Loc, x: string)
    requires Build(n, deny).Some? && LeafNamed(Below(n, loc), x)
    ensures x in NamesOf(Build(n, deny).value)
    decreases n
  {
    match n
    case Leaf(_, _) =>
    case Group(_, steps) => BuiltNamed(steps, deny, loc, true, x);
    case Branch(_, _, t, e) => BuiltNamed(if loc[0] == Then then t else e, deny, loc[1..], false, x);
  }

  /** The names of a list are those before, in, and after its `k`-th block. */
  lemma NamesAt(bs: seq<Block>, k: nat)
    requires k < |bs|
    ensures Names(bs) == Names(bs[..k]) + (NamesOf(bs[k]) + Names(bs[k + 1..]))
  {
    NamesSum(bs[..k], bs[k..]);
    assert bs == bs[..k] + bs[k..] && bs[k..][1..] == bs[k + 1..];
  }

  /** A walk of a list, up to and after its `k`-th block. */
  lemma WalkAt(w: World, bs: seq<Block>, k: nat, s: Walk, limit: int)
    requires k < |bs|
    ensures WalkAll(w, bs, s, limit) ==
            WalkAll(w, bs[k + 1..], WalkOne(w, bs[k], WalkAll(w, bs[..k], s, limit), limit), limit)
  {
    assert bs == bs[..k] + bs[k..] && bs[k..][1..] == bs[k + 1..];
    WalkSum(w, bs[..k], bs[k..], s, limit);
  }

  // ---------- Order is kept ----------

  /** Appending names other than `b`, or anything once `a` is there, keeps the order. */
  lemma PrecedesAppend(ex: seq<string>, ex2: seq<string>, a: string, b: string, names: set<string>)
    requires Precedes(ex, a, b) && AppendsFrom(names, ex, ex2) && (b !in names || a in ex)
    ensures Precedes(ex2, a, b)
  {
    forall j | 0 <= j < |ex2| && ex2[j] == b ensures a in ex2[..j] {
      if j < |ex| {
        assert ex[j] == b && ex2[..j] == ex[..j];
      } else {
        assert a in ex;
        var i :| 0 <= i < |ex| && ex[i] == a;
        assert ex2[..j][i] == a;
      }
    }
  }

  /** A completed walk has executed every step it cannot have jumped over. */
  lemma {:induction false} UnconditionalRuns(
      w: World, n: Node, deny: set<string>, d: Loc, a: string, s: Walk, limit: int)
    requires Build(n, deny).Some? && LeafNamed(Below(n, d), a) && Unconditional(d)
    requires !WalkOne(w, Build(n, deny).value, s, limit).halted
    ensures a in WalkOne(w, Build(n, deny).value, s, limit).core.executed
  {
    match n
    case Leaf(_, _) =>
    case Group(_, steps) =>
      LeafOfGroup(n, deny, d, a);
      var k := d[0].j;
      BuildAt(steps, deny, k);
      StepInListRuns(w, BuildAll(steps, deny).value, k, s, limit);
  }

  lemma StepInListRuns(w: World, bs: seq<Block>, k: nat, s: Walk, limit: int)
    requires k < |bs| && bs[k].Step? && !WalkAll(w, bs, s, limit).halted
    ensures bs[k].name in WalkAll(w, bs, s, limit).core.executed
  {
    WalkAt(w, bs, k, s, limit);
    var mid := WalkOne(w, bs[k], WalkAll(w, bs[..k], s, limit), limit);
    if mid.halted { HaltedStays(w, bs[k + 1..], mid, limit); }
    WalkExtends(w, bs[k + 1..], mid, limit);
    assert bs[k].name in mid.core.executed;
  }

  /** One pass over a list keeps the order of a pair of which one is certain at the other. */
  lemma {:induction false} OrderKept(
      w: World, ns: seq<Node>, deny: set<string>, d: Loc, r: Loc, a: string, b: string, c: Core, limit: int)
    requires BuildAll(ns, deny).Some? && Distinct(Names(BuildAll(ns, deny).value))
    requires LeafNamed(At(ns, d, false), a) && LeafNamed(At(ns, r, false), b) && Certain(d, r)
    requires Precedes(c.executed, a, b)
    ensures Precedes(WalkAll(w, BuildAll(ns, deny).value, Walk(c, false), limit).core.executed, a, b)
    decreases ns
  {
    var bs, k := BuildAll(ns, deny).value, r[0].i;
    var s := Walk(c, false);
    BuiltNamed(ns, deny, r, false, b);
    WalkAt(w, bs, k, s, limit);
    NamesAt(bs, k);
    var s1 := WalkAll(w, bs[..k], s, limit);
    var s2 := WalkOne(w, bs[k], s1, limit);
    var s3 := WalkAll(w, bs[k + 1..], s2, limit);
    DistinctParts(Names(bs[..k]), NamesOf(bs[k]) + Names(bs[k + 1..]));
    DistinctParts(NamesOf(bs[k]), Names(bs[k + 1..]));
    assert b in Elements(NamesOf(bs[k])) && b in Elements(NamesOf(bs[k]) + Names(bs[k + 1..]));
    WalkAppends(w, bs[..k], s, limit);
    WalkAppends(w, [bs[k]], s1, limit);
    WalkAppends(w, bs[k + 1..], s2, limit);
    PrecedesAppend(c.executed, s1.core.executed, a, b, NameSet(bs[..k]));
    if s1.halted {
      HaltedStays(w, [bs[k]], s1, limit);
    } else {
      OrderKeptAt(w, ns, deny, d, r, a, b, c, limit);
    }
    PrecedesAppend(s2.core.executed, s3.core.executed, a, b, NameSet(bs[k + 1..]));
  }

  /** The step of `OrderKept` at the block that holds the reader. */
  lemma {:induction false} OrderKeptAt(
      w: World, ns: seq<Node>, deny: set<string>, d: Loc, r: Loc, a: string, b: string, c: Core, limit: int)
    requires BuildAll(ns, deny).Some? && Distinct(Names(BuildAll(ns, deny).value))
    requires LeafNamed(At(ns, d, false), a) && LeafNamed(At(ns, r, false), b) && Certain(d, r)
    requires var bs := BuildAll(ns, deny).value;
             |bs| == |ns| && var s1 := WalkAll(w, bs[..r[0].i], Walk(c, false), limit);
             !s1.halted && Precedes(s1.core.executed, a, b)
    ensures var bs := BuildAll(ns, deny).value;
            var s1 := WalkAll(w, bs[..r[0].i], Walk(c, false), limit);
            Precedes(WalkOne(w, bs[r[0].i], s1, limit).core.executed, a, b)
    decreases ns, 0
  {
    var bs, k := BuildAll(ns, deny).value, r[0].i;
    var s1 := WalkAll(w, bs[..k], Walk(c, false), limit);
    WalkAppends(w, [bs[k]], s1, limit);
    BuildAt(ns, deny, k);
    var p :| 0 <= p < |d| && p < |r| && PartAt(d, r, p) && Unconditional(d[p..]);
    if p == 0 {
      // the declaration is in an earlier node, which has completed
      var i := d[0].i;
      BuildAt(ns, deny, i);
      WalkAt(w, bs[..k], i, Walk(c, false), limit);
      var before := WalkAll(w, bs[..k][..i], Walk(c, false), limit);
      var here := WalkOne(w, bs[i], before, limit);
      if here.halted { HaltedStays(w, bs[..k][i + 1..], here, limit); }
      assert Unconditional(d[1..]) by { assert forall j :: 0 <= j < |d[1..]| ==> d[1..][j] == d[0..][j + 1]; }
      UnconditionalRuns(w, ns[i], deny, d[1..], a, before, limit);
      WalkExtends(w, bs[..k][i + 1..], here, limit);
      PrecedesAppend(s1.core.executed, WalkOne(w, bs[k], s1, limit).core.executed, a, b, Elements(NamesOf(bs[k])));
    } else {
      PartLater(d, r, p);
      NamesAt(bs, k);
      DistinctParts(Names(bs[..k]), NamesOf(bs[k]) + Names(bs[k + 1..]));
      DistinctParts(NamesOf(bs[k]), Names(bs[k + 1..]));
      CertainBelow(d, r, p);
      OrderKeptBelow(w, ns[k], deny, d[1..], r[1..], a, b, s1.core, limit);
    }
  }

  lemma CertainBelow(d: Loc, r: Loc, p: nat)
    requires 0 < p < |d| && p < |r| && PartAt(d, r, p) && Unconditional(d[p..])
    ensures Certain(d[1..], r[1..])
  {
    assert d[1..][..p - 1] == d[..p][1..] && r[1..][..p - 1] == r[..p][1..];
    assert PartAt(d[1..], r[1..], p - 1) && d[1..][p - 1..] == d[p..];
  }

  lemma {:induction false} OrderKeptBelow(
      w: World, n: Node, deny: set<string>, d: Loc, r: Loc, a: string, b: string, c: Core, limit: int)
    requires Build(n, deny).Some? && Distinct(NamesOf(Build(n, deny).value))
    requires LeafNamed(Below(n, d), a) && LeafNamed(Below(n, r), b) && Certain(d, r)
    requires Precedes(c.executed, a, b)
    ensures Precedes(WalkOne(w, Build(n, deny).value, Walk(c, false), limit).core.executed, a, b)
    decreases n
  {
    var p :| 0 <= p < |d| && p < |r| && PartAt(d, r, p) && Unconditional(d[p..]);
    match n
    case Group(_, steps) =>
      // the children of a group are leaves, so two locations in it cannot part in a sequence
      LeafOfGroup(n, deny, d, a);
      assert false;
    case Branch(_, _, t, e) =>
      assert p > 0;
      PartLater(d, r, p);
      CertainBelow(d, r, p);
      var bt, be := BuildAll(t, deny).value, BuildAll(e, deny).value;
      DistinctParts(Names(bt), Names(be));
      var (side, other) := if r[0] == Then then (t, be) else (e, bt);
      OrderKept(w, side, deny, d[1..], r[1..], a, b, c, limit);
      BuiltNamed(side, deny, r[1..], false, b);
      assert b in NameSet(if r[0] == Then then bt else be);
      WalkAppends(w, other, Walk(c, false), limit);
      PrecedesAppend(c.executed, WalkAll(w, other, Walk(c, false), limit).core.executed, a, b, NameSet(other));
  }

  // ---------- The theorem ----------

  /**
   * Scoping soundness. In an accepted document with distinct step names, every placeholder root of
   * every step is a context key or a visible declaration; and in any history of runs of the built
   * tree, a step that is certain at its reader was executed before the reader.
   */
  lemma ScopingSound(
      rd: Reader, ns: seq<Node>, context: Known, deny: set<string>, initial: Ctx, ss: seq<Session>, i: nat)
    requires Errors(rd, ns, context) == [] && BuildAll(ns, deny).Some? && Distinct(LeafNames(ns))
    requires History(BuildAll(ns, deny).value, initial, ss) && i < |ss|
    ensures forall r: Loc :: Resolved(rd, ns, context, r)
    ensures forall d: Loc, r: Loc ::
              Certain(d, r) && At(ns, d, false).Some? && At(ns, d, false).value.Leaf?
              && At(ns, r, false).Some? && At(ns, r, false).value.Leaf? ==>
                Precedes(Outcome(BuildAll(ns, deny).value, initial, ss[i]).executed,
                         At(ns, d, false).value.name, At(ns, r, false).value.name)
  {
    ScopeExactly(rd, ns, context);
    BuildKeepsNames(ns, deny);
    var bs := BuildAll(ns, deny).value;
    forall d: Loc, r: Loc |
        Certain(d, r) && At(ns, d, false).Some? && At(ns, d, false).value.Leaf?
        && At(ns, r, false).Some? && At(ns, r, false).value.Leaf?
      ensures Precedes(Outcome(bs, initial, ss[i]).executed, At(ns, d, false).value.name, At(ns, r, false).value.name)
    {
      var a, b := At(ns, d, false).value.name, At(ns, r, false).value.name;
      forall w: World, c: Core, limit: int | Precedes(c.executed, a, b)
        ensures Precedes(WalkAll(w, bs, Walk(c, false), limit).core.executed, a, b)
      {
        OrderKept(w, ns, deny, d, r, a, b, c, limit);
      }
      HistoryKeeps(bs, initial, ss, i, ex => Precedes(ex, a, b));
    }
  }
}
