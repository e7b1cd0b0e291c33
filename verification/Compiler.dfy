/**
 * Compiling a DSL tree into a LoopSpec document (src/loopmaster/spec/compiler.py) and loading it
 * back: what the round trip keeps, and exactly when it keeps everything that matters to a run.
 */
module Compiler {
  import opened Values
  import opened Blocks
  import opened Engine
  import opened LoopSpec
  import opened Versions

  /** A leaf of the document, or None where the compiler raises. An executor hides a custom policy. */
  function CompileStep(b: Block): Option<Node>
    requires b.Step?
  {
    match b.action
    case Execute(kind, payload, _) =>
      if kind == Unsupported then None else Some(Leaf(b.name, Execute(kind, payload, {})))
    case Tool(_) => None
    case Bare => None
    case Prompt(model, prompt) =>
      if b.custom || model == "" || prompt == "" then None else Some(Leaf(b.name, Prompt(model, prompt)))
  }

  /** Compile the block at position `index` of its list. */
  function CompileNode(b: Block, index: nat): Option<Node> {
    match b
    case Step(_, _, _) => CompileStep(b)
    case Parallel(steps) =>
      if exists i :: 0 <= i < |steps| && !steps[i].Step? then None
      else
        var ns := CompileAll(steps, 0);
        if ns.None? then None else Some(Group("group-" + Decimal(index), ns.value))
    case Conditional(name, condition, t, e) =>
      if !condition.Expression? then None
      else
        var nt, ne := CompileAll(t, 0), CompileAll(e, 0);
        if nt.None? || ne.None? then None
        else Some(Branch(if name == "" then "branch-" + Decimal(index) else name, condition.source, nt.value, ne.value))
  }

  function CompileAll(bs: seq<Block>, index: nat): Option<seq<Node>> {
    if bs == [] then Some([])
    else
      match (CompileNode(bs[0], index), CompileAll(bs[1..], index + 1))
      case (Some(n), Some(ns)) => Some([n] + ns)
      case _ => None
  }

  // ---------- What compiles, and into what ----------

  /**
   * What the compiler accepts, read off the written tree: groups of steps only, conditions that
   * are expressions, the five supported executors, and otherwise prompts with a model and a text
   * and no policy of their own.
   */
  predicate Accepted(bs: seq<Block>) {
    bs != [] ==> AcceptedOne(bs[0]) && Accepted(bs[1..])
  }

  predicate AcceptedOne(b: Block) {
    match b
    case Step(_, Execute(kind, _, _), _) =>
      kind == Shell || kind == Http || kind == Mcp || kind == Code || kind == Human
    case Step(_, Prompt(model, prompt), custom) => model != "" && prompt != "" && !custom
    case Step(_, Tool(_), _) => false
    case Step(_, Bare, _) => false
    case Parallel(steps) => (forall i :: 0 <= i < |steps| ==> steps[i].Step?) && Accepted(steps)
    case Conditional(_, condition, t, e) => condition.Expression? && Accepted(t) && Accepted(e)
  }

  /** The document nodes say what the blocks say, those of a list in order from `index` on. */
  predicate Written(bs: seq<Block>, ns: seq<Node>, index: nat) {
    |ns| == |bs| && (bs != [] ==> WrittenOne(bs[0], ns[0], index) && Written(bs[1..], ns[1..], index + 1))
  }

  predicate WrittenOne(b: Block, n: Node, index: nat) {
    match b
    case Step(name, Execute(kind, payload, _), _) => n == Leaf(name, Execute(kind, payload, {}))
    case Step(name, action, _) => n == Leaf(name, action)
    case Parallel(steps) => n.Group? && n.name == "group-" + Decimal(index) && Written(steps, n.steps, 0)
    case Conditional(name, condition, t, e) =>
      && n.Branch? && condition.Expression? && n.condition == condition.source
      && (name != "" ==> n.name == name) && (name == "" ==> n.name == "branch-" + Decimal(index))
      && Written(t, n.thenNodes, 0) && Written(e, n.elseNodes, 0)
  }

  /** The compiler accepts exactly the accepted trees, and writes each as exactly one document. */
  lemma {:induction false} CompilesExactly(bs: seq<Block>, index: nat, ns: seq<Node>)
    ensures CompileAll(bs, index).Some? <==> Accepted(bs)
    ensures CompileAll(bs, index) == Some(ns) <==> Accepted(bs) && Written(bs, ns, index)
    decreases bs
  {
    if bs != [] {
      var n, rest := CompileNode(bs[0], index), CompileAll(bs[1..], index + 1);
      CompilesOneExactly(bs[0], index, if n.Some? then n.value else Group("", []));
      CompilesExactly(bs[1..], index + 1, if rest.Some? then rest.value else []);
      if ns != [] {
        CompilesOneExactly(bs[0], index, ns[0]);
        CompilesExactly(bs[1..], index + 1, ns[1..]);
        assert ns == [ns[0]] + ns[1..];
      }
    }
  }

  lemma {:induction false} CompilesOneExactly(b: Block, index: nat, n: Node)
    ensures CompileNode(b, index).Some? <==> AcceptedOne(b)
    ensures CompileNode(b, index) == Some(n) <==> AcceptedOne(b) && WrittenOne(b, n, index)
    decreases b
  {
    match b
    case Step(_, _, _) =>
    case Parallel(steps) =>
      CompilesExactly(steps, 0, if n.Group? then n.steps else []);
    case Conditional(_, _, t, e) =>
      CompilesExactly(t, 0, if n.Branch? then n.thenNodes else []);
      CompilesExactly(e, 0, if n.Branch? then n.elseNodes else []);
  }

  /** The capabilities denied anywhere in the tree, which the document denies everywhere. */
  function DenyUnion(bs: seq<Block>): set<string> {
    if bs == [] then {} else DenyUnionOf(bs[0]) + DenyUnion(bs[1..])
  }

  function DenyUnionOf(b: Block): set<string> {
    match b
    case Step(_, action, _) => if action.Execute? && action.kind == Code then action.deny else {}
    case Parallel(steps) => DenyUnion(steps)
    case Conditional(_, _, t, e) => DenyUnion(t) + DenyUnion(e)
  }

  /** The steps of a tree, in declaration order. */
  function StepsOf(bs: seq<Block>): seq<Block> {
    if bs == [] then [] else StepsOfOne(bs[0]) + StepsOf(bs[1..])
  }

  function StepsOfOne(b: Block): seq<Block> {
    match b
    case Step(_, _, _) => [b]
    case Parallel(steps) => StepsOf(steps)
    case Conditional(_, _, t, e) => StepsOf(t) + StepsOf(e)
  }

  /** The step is a code block that denies the capability. */
  predicate Denies(b: Block, capability: string) {
    b.Step? && b.action.Execute? && b.action.kind == Code && capability in b.action.deny
  }

  /** The document denies a capability exactly when some code block, wherever it stands, does. */
  lemma {:induction false} DeniedSomewhere(bs: seq<Block>, capability: string)
    ensures capability in DenyUnion(bs) <==> exists b :: b in StepsOf(bs) && Denies(b, capability)
    decreases bs
  {
    if bs != [] {
      DeniedSomewhereOne(bs[0], capability);
      DeniedSomewhere(bs[1..], capability);
      assert StepsOf(bs) == StepsOfOne(bs[0]) + StepsOf(bs[1..]);
    }
  }

  lemma {:induction false} DeniedSomewhereOne(b: Block, capability: string)
    ensures capability in DenyUnionOf(b) <==> exists s :: s in StepsOfOne(b) && Denies(s, capability)
    decreases b
  {
    match b
    case Step(_, _, _) => assert b in StepsOfOne(b);
    case Parallel(steps) => DeniedSomewhere(steps, capability);
    case Conditional(_, _, t, e) => DeniedSomewhere(t, capability); DeniedSomewhere(e, capability);
  }

  /** The compiler at work: it gathers the denials while it goes through the tree. */
  class SpecCompiler {
    var denied: set<string>

    constructor ()
      ensures denied == {}
    {
      denied := {};
    }

    /** Compile the blocks of one list; None stands for the compile error raised on the way. */
    method CompileBlocks(bs: seq<Block>) returns (ns: Option<seq<Node>>)
      modifies this
      ensures ns == CompileAll(bs, 0)
      ensures ns.Some? <==> Accepted(bs)
      ensures ns.Some? ==> Written(bs, ns.value, 0)
      ensures ns.Some? ==> denied == old(denied) + DenyUnion(bs)
      decreases bs, 1
    {
      var done: seq<Node> := [];
      var i := 0;
      BeforeEmpty(CompileAll(bs, 0));
      CompilesExactly(bs, 0, if CompileAll(bs, 0).Some? then CompileAll(bs, 0).value else []);
      assert bs[0..] == bs;
      while i < |bs|
        invariant 0 <= i <= |bs|
        invariant CompileAll(bs, 0) == Before(done, CompileAll(bs[i..], i))
        invariant denied + DenyUnion(bs[i..]) == old(denied) + DenyUnion(bs)
      {
        assert bs[i..][0] == bs[i] && bs[i..][1..] == bs[i + 1..];
        var n := CompileBlock(bs[i], i);
        if n.None? { return None; }
        BeforeSum(done, n.value, CompileAll(bs[i + 1..], i + 1));
        done := done + [n.value];
        i := i + 1;
      }
      assert done + [] == done;
      ns := Some(done);
    }

    method CompileBlock(b: Block, index: nat) returns (n: Option<Node>)
      modifies this
      ensures n == CompileNode(b, index)
      ensures n.Some? <==> AcceptedOne(b)
      ensures n.Some? ==> WrittenOne(b, n.value, index)
      ensures n.Some? ==> denied == old(denied) + DenyUnionOf(b)
      decreases b, 0
    {
      CompilesOneExactly(b, index, if CompileNode(b, index).Some? then CompileNode(b, index).value else Group("", []));
      match b
      case Step(_, action, _) =>
        if action.Execute? && action.kind == Code { denied := denied + action.deny; }
        n := CompileStep(b);
      case Parallel(steps) =>
        if exists i :: 0 <= i < |steps| && !steps[i].Step? { return None; }
        var ns := CompileBlocks(steps);
        n := if ns.None? then None else Some(Group("group-" + Decimal(index), ns.value));
      case Conditional(name, condition, t, e) =>
        if !condition.Expression? { return None; }
        var nt := CompileBlocks(t);
        if nt.None? { return None; }
        var ne := CompileBlocks(e);
        if ne.None? { return None; }
        var branchName := if name == "" then "branch-" + Decimal(index) else name;
        n := Some(Branch(branchName, condition.source, nt.value, ne.value));
    }
  }

  function Before(done: seq<Node>, rest: Option<seq<Node>>): Option<seq<Node>> {
    if rest.None? then None else Some(done + rest.value)
  }

  lemma BeforeEmpty(rest: Option<seq<Node>>)
    ensures Before([], rest) == rest
  {
    if rest.Some? { assert [] + rest.value == rest.value; }
  }

  lemma BeforeSum(done: seq<Node>, n: Node, rest: Option<seq<Node>>)
    ensures rest.Some? ==> Before(done, Some([n] + rest.value)) == Before(done + [n], rest)
  {
    if rest.Some? { SumAssociates(done, [n], rest.value); }
  }

  /** Compile and load back. */
  function RoundTrip(bs: seq<Block>): Option<seq<Block>> {
    match CompileAll(bs, 0)
    case None => None
    case Some(ns) => BuildAll(ns, DenyUnion(bs))
  }

  // ---------- Trees that run alike ----------

  /** The same tree up to the names of conditionals and, unless `exact`, what the steps do. */
  predicate Alike(bs: seq<Block>, cs: seq<Block>, exact: bool) {
    |bs| == |cs| && (bs != [] ==> AlikeOne(bs[0], cs[0], exact) && Alike(bs[1..], cs[1..], exact))
  }

  predicate AlikeOne(b: Block, c: Block, exact: bool) {
    match b
    case Step(name, _, _) => c.Step? && c.name == name && (exact ==> c == b)
    case Parallel(steps) => c.Parallel? && Alike(steps, c.steps, exact)
    case Conditional(_, condition, t, e) =>
      c.Conditional? && c.condition == condition && Alike(t, c.thenSteps, exact) && Alike(e, c.elseSteps, exact)
  }

  /** Every code block denies exactly `deny`, and no executor step has a policy of its own. */
  predicate Uniform(bs: seq<Block>, deny: set<string>) {
    bs != [] ==> UniformOne(bs[0], deny) && Uniform(bs[1..], deny)
  }

  predicate UniformOne(b: Block, deny: set<string>) {
    match b
    case Step(_, action, custom) =>
      action.Execute? ==> !custom && action.deny == if action.kind == Code then deny else {}
    case Parallel(steps) => Uniform(steps, deny)
    case Conditional(_, _, t, e) => Uniform(t, deny) && Uniform(e, deny)
  }

  lemma {:induction false} CompiledLeaves(bs: seq<Block>, index: nat)
    requires CompileAll(bs, index).Some? && forall i :: 0 <= i < |bs| ==> bs[i].Step?
    ensures forall i :: 0 <= i < |CompileAll(bs, index).value| ==> CompileAll(bs, index).value[i].Leaf?
  {
    if bs != [] { CompiledLeaves(bs[1..], index + 1); }
  }

  /** Whatever the compiler accepts can be built again, into a tree of the same shape. */
  lemma {:induction false} CompiledBuilds(bs: seq<Block>, index: nat, deny: set<string>)
    requires CompileAll(bs, index).Some?
    ensures var built := BuildAll(CompileAll(bs, index).value, deny);
            built.Some? && Alike(bs, built.value, false) && (Alike(bs, built.value, true) <==> Uniform(bs, deny))
    decreases bs
  {
    if bs != [] {
      CompiledBuildsOne(bs[0], index, deny);
      CompiledBuilds(bs[1..], index + 1, deny);
    }
  }

  lemma {:induction false} CompiledBuildsOne(b: Block, index: nat, deny: set<string>)
    requires CompileNode(b, index).Some?
    ensures var built := Build(CompileNode(b, index).value, deny);
            built.Some? && AlikeOne(b, built.value, false) && (AlikeOne(b, built.value, true) <==> UniformOne(b, deny))
    decreases b
  {
    match b
    case Step(_, _, _) =>
    case Parallel(steps) =>
      CompiledLeaves(steps, 0);
      CompiledBuilds(steps, 0, deny);
    case Conditional(_, _, t, e) =>
      CompiledBuilds(t, 0, deny);
      CompiledBuilds(e, 0, deny);
  }

  /**
   * Loading a compiled document back gives the tree one started from, up to the names of
   * conditionals, exactly when no executor step had its own retry or on_error and all code blocks
   * denied the same capabilities. The shape, the step names and resumability always survive.
   */
  lemma RoundTripExactly(bs: seq<Block>)
    requires CompileAll(bs, 0).Some?
    ensures RoundTrip(bs).Some? && Alike(bs, RoundTrip(bs).value, false)
    ensures Alike(bs, RoundTrip(bs).value, true) <==> Uniform(bs, DenyUnion(bs))
    ensures Names(RoundTrip(bs).value) == Names(bs)
    ensures Resumable(RoundTrip(bs).value, false) == Resumable(bs, false)
  {
    CompiledBuilds(bs, 0, DenyUnion(bs));
    AlikeStatic(bs, RoundTrip(bs).value, false);
    AlikeResumable(bs, RoundTrip(bs).value, false, false);
  }

  // ---------- Meaning ----------

  lemma {:induction false} AlikeStatic(bs: seq<Block>, cs: seq<Block>, exact: bool)
    requires Alike(bs, cs, exact)
    ensures Names(bs) == Names(cs) && Longest(bs) == Longest(cs) && Anchored(bs) == Anchored(cs)
    ensures bs != [] ==> NamesOf(bs[0]) == NamesOf(cs[0]) && LongestOf(bs[0]) == LongestOf(cs[0])
  {
    if bs != [] {
      match bs[0] {
        case Step(_, _, _) =>
        case Parallel(steps) => AlikeStatic(steps, cs[0].steps, exact);
        case Conditional(_, _, t, e) =>
          AlikeStatic(t, cs[0].thenSteps, exact);
          AlikeStatic(e, cs[0].elseSteps, exact);
      }
      AlikeStatic(bs[1..], cs[1..], exact);
    }
  }

  /** Compiling never changes whether a loop can be resumed faithfully. */
  lemma {:induction false} AlikeResumable(bs: seq<Block>, cs: seq<Block>, exact: bool, followed: bool)
    requires Alike(bs, cs, exact)
    ensures Resumable(bs, followed) == Resumable(cs, followed)
  {
    if bs != [] {
      var after := followed || Names(bs[1..]) != [];
      AlikeStatic(bs[1..], cs[1..], exact);
      match bs[0] {
        case Step(_, _, _) =>
        case Parallel(steps) => AlikeResumable(steps, cs[0].steps, exact, after);
        case Conditional(_, _, t, e) =>
          AlikeStatic(t, cs[0].thenSteps, exact);
          AlikeStatic(e, cs[0].elseSteps, exact);
          AlikeResumable(t, cs[0].thenSteps, exact, after);
          AlikeResumable(e, cs[0].elseSteps, exact, after);
      }
      AlikeResumable(bs[1..], cs[1..], exact, followed);
    }
  }

  /** The executed names that can be direct children are those of steps, in both trees. */
  lemma {:induction false} AlikeDirect(bs: seq<Block>, cs: seq<Block>, executed: seq<string>)
    requires Alike(bs, cs, false) && Avoids(executed, GroupNames(bs) + GroupNames(cs))
    ensures AnyIn(DirectNames(bs), executed) == AnyIn(DirectNames(cs), executed)
  {
    if bs != [] {
      AlikeDirect(bs[1..], cs[1..], executed);
      DirectSplit(bs);
      DirectSplit(cs);
    }
  }

  /** In the two environments the steps of the two trees return the same, place by place. */
  ghost predicate Matched(e: Env, f: Env, bs: seq<Block>, cs: seq<Block>)
    requires Alike(bs, cs, false)
  {
    bs != [] ==> MatchedOne(e, f, bs[0], cs[0]) && Matched(e, f, bs[1..], cs[1..])
  }

  ghost predicate MatchedOne(e: Env, f: Env, b: Block, c: Block)
    requires AlikeOne(b, c, false)
  {
    match b
    case Step(_, _, _) => forall ctx: Ctx :: f.world.result(c, ctx) == e.world.result(b, ctx)
    case Parallel(steps) => Matched(e, f, steps, c.steps)
    case Conditional(_, _, t, o) => Matched(e, f, t, c.thenSteps) && Matched(e, f, o, c.elseSteps)
  }

  /** The environments differ in what steps return, and in nothing else. */
  ghost predicate SameButResults(e: Env, f: Env) {
    && f.loop == e.loop && f.fault == e.fault && f.budget == e.budget && f.protection == e.protection
    && f.world.holds == e.world.holds
  }

  lemma {:induction false} AlikeRunsAll(e: Env, f: Env, bs: seq<Block>, cs: seq<Block>, m: Run, groups: set<string>)
    requires Alike(bs, cs, false) && Matched(e, f, bs, cs) && SameButResults(e, f)
    requires GroupNames(bs) + GroupNames(cs) <= groups && Avoids(m.executed, groups) && Avoids(Names(bs), groups)
    ensures RunAll(e, bs, m) == RunAll(f, cs, m) && Avoids(RunAll(e, bs, m).executed, groups)
    decreases bs
  {
    if bs != [] {
      AlikeRunsOne(e, f, bs[0], cs[0], m, groups);
      AlikeRunsAll(e, f, bs[1..], cs[1..], RunOne(e, bs[0], m), groups);
    }
  }

  lemma ExecuteAlike(e: Env, f: Env, b: Block, c: Block, m: Run)
    requires b.Step? && c.Step? && c.name == b.name && SameButResults(e, f)
    requires forall ctx: Ctx :: f.world.result(c, ctx) == e.world.result(b, ctx)
    ensures ExecuteStep(e, b, m) == ExecuteStep(f, c, m)
  {
    var m1 := if CheckpointBefore(e.protection) then Remember(e, m) else m;
    RememberAlike(e, f, m);
    RememberAlike(e, f, m1);
    if !e.fault(b.name).StepRaises? {
      assert f.world.result(c, m1.ctx) == e.world.result(b, m1.ctx);
      var r := e.world.result(b, m1.ctx);
      var m2 := Apply(b.name, r, m1);
      RememberAlike(e, f, m2);
      RememberAlike(e, f, m2.(cost := m2.cost + r.cost, tokens := m2.tokens + r.tokens));
    }
  }

  lemma RememberAlike(e: Env, f: Env, m: Run)
    requires SameButResults(e, f)
    ensures Remember(e, m) == Remember(f, m)
  {}

  lemma StepRunsAlike(e: Env, f: Env, b: Block, c: Block, m: Run)
    requires b.Step? && c.Step? && c.name == b.name && SameButResults(e, f)
    requires forall ctx: Ctx :: f.world.result(c, ctx) == e.world.result(b, ctx)
    ensures RunStep(e, b, m) == RunStep(f, c, m)
    ensures RunStep(e, b, m).executed == m.executed || RunStep(e, b, m).executed == m.executed + [b.name]
  {
    ExecuteAlike(e, f, b, c, m);
    StepExecutes(e, b, m);
  }

  lemma {:induction false} AlikeRunsOne(e: Env, f: Env, b: Block, c: Block, m: Run, groups: set<string>)
    requires AlikeOne(b, c, false) && MatchedOne(e, f, b, c) && SameButResults(e, f)
    requires GroupNamesOf(b) + GroupNamesOf(c) <= groups && Avoids(m.executed, groups) && Avoids(NamesOf(b), groups)
    ensures RunOne(e, b, m) == RunOne(f, c, m) && Avoids(RunOne(e, b, m).executed, groups)
    decreases b
  {
    match b
    case Step(_, _, _) => StepRunsAlike(e, f, b, c, m);
    case Parallel(steps) => AlikeRunsAll(e, f, steps, c.steps, m, groups);
    case Conditional(_, _, t, o) =>
      AlikeDirect(t, c.thenSteps, m.executed);
      AlikeDirect(o, c.elseSteps, m.executed);
      AlikeRunsAll(e, f, t, c.thenSteps, m, groups);
      AlikeRunsAll(e, f, o, c.elseSteps, m, groups);
  }

  /** Block names, written or generated, are kept apart from step names, as a run of either tree needs. */
  predicate KeptApart(bs: seq<Block>, m: Run) {
    && RoundTrip(bs).Some?
    && Avoids(Names(bs) + m.executed, GroupNames(bs) + GroupNames(RoundTrip(bs).value))
  }

  lemma LoadedRunsAlike(e: Env, f: Env, bs: seq<Block>, m: Run)
    requires CompileAll(bs, 0).Some? && KeptApart(bs, m) && SameButResults(e, f)
    requires Alike(bs, RoundTrip(bs).value, false) && Matched(e, f, bs, RoundTrip(bs).value)
    ensures RunAll(f, RoundTrip(bs).value, m) == RunAll(e, bs, m)
  {
    var cs := RoundTrip(bs).value;
    assert forall n :: n in Names(bs) || n in m.executed ==> n in Names(bs) + m.executed;
    AlikeRunsAll(e, f, bs, cs, m, GroupNames(bs) + GroupNames(cs));
  }

  /** The step of that name in a tree. */
  function StepNamed(bs: seq<Block>, name: string): Option<Block> {
    if bs == [] then None
    else
      var first := StepNamedOf(bs[0], name);
      if first.Some? then first else StepNamed(bs[1..], name)
  }

  function StepNamedOf(b: Block, name: string): Option<Block> {
    match b
    case Step(n, _, _) => if n == name then Some(b) else None
    case Parallel(steps) => StepNamed(steps, name)
    case Conditional(_, _, t, o) => if StepNamed(t, name).Some? then StepNamed(t, name) else StepNamed(o, name)
  }

  lemma {:induction false} StepNamedInside(bs: seq<Block>, name: string)
    ensures StepNamed(bs, name).Some? ==> name in Names(bs)
    ensures bs != [] && StepNamedOf(bs[0], name).Some? ==> name in NamesOf(bs[0])
  {
    if bs != [] {
      match bs[0] {
        case Step(_, _, _) =>
        case Parallel(steps) => StepNamedInside(steps, name);
        case Conditional(_, _, t, o) => StepNamedInside(t, name); StepNamedInside(o, name);
      }
      StepNamedInside(bs[1..], name);
      ElementsOfSum(NamesOf(bs[0]), Names(bs[1..]));
      if StepNamedOf(bs[0], name).Some? {
        assert name in Elements(NamesOf(bs[0]));
        assert name in Elements(Names(bs));
      } else if StepNamed(bs, name).Some? {
        assert StepNamed(bs[1..], name).Some?;
        assert name in Elements(Names(bs[1..]));
        assert name in Elements(Names(bs));
      }
    }
  }

  /** The environment of the loaded tree: a step returns what the written step of its name does. */
  function LoadedEnv(e: Env, bs: seq<Block>): Env {
    e.(world := World(
      (c: Block, ctx: Ctx) =>
        if c.Step? && StepNamed(bs, c.name).Some? then e.world.result(StepNamed(bs, c.name).value, ctx)
        else e.world.result(c, ctx),
      e.world.holds))
  }

  /** `all` finds the steps of `bs` by name. */
  ghost predicate Finds(all: seq<Block>, bs: seq<Block>) {
    forall x :: StepNamed(bs, x).Some? ==> StepNamed(all, x) == StepNamed(bs, x)
  }

  lemma FindsParts(all: seq<Block>, bs: seq<Block>)
    requires bs != [] && Finds(all, bs) && Distinct(Names(bs))
    ensures Finds(all, [bs[0]]) && Finds(all, bs[1..])
    ensures Distinct(NamesOf(bs[0])) && Distinct(Names(bs[1..]))
  {
    DistinctParts(NamesOf(bs[0]), Names(bs[1..]));
    forall x | StepNamed(bs[1..], x).Some? ensures StepNamed(all, x) == StepNamed(bs[1..], x) {
      StepNamedInside(bs, x);
      StepNamedInside(bs[1..], x);
      assert x in Elements(Names(bs[1..]));
      assert x !in Elements(NamesOf(bs[0]));
      assert StepNamed(bs, x) == StepNamed(bs[1..], x);
    }
    forall x | StepNamed([bs[0]], x).Some? ensures StepNamed(all, x) == StepNamed([bs[0]], x) {
      assert StepNamed([bs[0]], x) == StepNamedOf(bs[0], x);
      assert StepNamed(bs, x) == StepNamedOf(bs[0], x);
    }
  }

  lemma FindsBranches(all: seq<Block>, b: Block)
    requires b.Conditional? && Finds(all, [b]) && Distinct(NamesOf(b))
    ensures Finds(all, b.thenSteps) && Finds(all, b.elseSteps)
    ensures Distinct(Names(b.thenSteps)) && Distinct(Names(b.elseSteps))
  {
    var t, o := b.thenSteps, b.elseSteps;
    DistinctParts(Names(t), Names(o));
    forall x | StepNamed(t, x).Some? ensures StepNamed(all, x) == StepNamed(t, x) {
      assert StepNamed([b], x) == StepNamedOf(b, x);
    }
    forall x | StepNamed(o, x).Some? ensures StepNamed(all, x) == StepNamed(o, x) {
      StepNamedInside(t, x);
      StepNamedInside(o, x);
      assert x in Elements(Names(o));
      assert x !in Elements(Names(t));
      assert StepNamed([b], x) == StepNamedOf(b, x);
    }
  }

  lemma {:induction false} LoadedMatches(e: Env, all: seq<Block>, bs: seq<Block>, cs: seq<Block>)
    requires Alike(bs, cs, false) && Finds(all, bs) && Distinct(Names(bs))
    ensures Matched(e, LoadedEnv(e, all), bs, cs)
    decreases bs
  {
    if bs != [] {
      FindsParts(all, bs);
      LoadedMatchesOne(e, all, bs[0], cs[0]);
      LoadedMatches(e, all, bs[1..], cs[1..]);
    }
  }

  lemma {:induction false} LoadedMatchesOne(e: Env, all: seq<Block>, b: Block, c: Block)
    requires AlikeOne(b, c, false) && Finds(all, [b]) && Distinct(NamesOf(b))
    ensures MatchedOne(e, LoadedEnv(e, all), b, c)
    decreases b
  {
    match b
    case Step(name, _, _) =>
      assert StepNamed([b], name) == Some(b);
    case Parallel(steps) =>
      forall x ensures StepNamed([b], x) == StepNamed(steps, x) {
        assert StepNamed([b], x) == if StepNamedOf(b, x).Some? then StepNamedOf(b, x) else StepNamed([b][1..], x);
      }
      LoadedMatches(e, all, steps, c.steps);
    case Conditional(_, _, t, o) =>
      FindsBranches(all, b);
      LoadedMatches(e, all, t, c.thenSteps);
      LoadedMatches(e, all, o, c.elseSteps);
  }

  /**
   * Compiling preserves meaning, for every tree the compiler accepts whose step names are distinct
   * and apart from block names: for whatever the written steps return, the loaded tree, whose
   * steps return the same by name, runs the same steps in the same order, evaluates the same
   * conditions and leaves the same checkpoints, from every state a run of it can reach.
   */
  lemma CompilingKeepsMeaning(e: Env, bs: seq<Block>, m: Run)
    requires CompileAll(bs, 0).Some? && Distinct(Names(bs)) && KeptApart(bs, m)
    ensures RunAll(LoadedEnv(e, bs), RoundTrip(bs).value, m) == RunAll(e, bs, m)
  {
    RoundTripExactly(bs);
    LoadedMatches(e, bs, bs, RoundTrip(bs).value);
    LoadedRunsAlike(e, LoadedEnv(e, bs), bs, m);
  }

  /** What a step returns depends on its name and the context only. */
  ghost predicate ResultsByName(e: Env) {
    forall b: Block, c: Block, ctx: Ctx ::
      b.Step? && c.Step? && b.name == c.name ==> e.world.result(b, ctx) == e.world.result(c, ctx)
  }

  lemma {:induction false} AlikeMatches(e: Env, bs: seq<Block>, cs: seq<Block>)
    requires Alike(bs, cs, false) && (ResultsByName(e) || Alike(bs, cs, true))
    ensures Matched(e, e, bs, cs)
    ensures bs != [] ==> MatchedOne(e, e, bs[0], cs[0])
  {
    if bs != [] {
      match bs[0] {
        case Step(_, _, _) =>
        case Parallel(steps) => AlikeMatches(e, steps, cs[0].steps);
        case Conditional(_, _, t, o) =>
          AlikeMatches(e, t, cs[0].thenSteps);
          AlikeMatches(e, o, cs[0].elseSteps);
      }
      AlikeMatches(e, bs[1..], cs[1..]);
    }
  }

  /**
   * In one and the same environment the two trees run alike when results depend on step names
   * only, or when the tree is uniform, so that the steps themselves come back.
   */
  lemma CompilingKeepsRuns(e: Env, bs: seq<Block>, m: Run)
    requires CompileAll(bs, 0).Some? && KeptApart(bs, m)
    requires ResultsByName(e) || Uniform(bs, DenyUnion(bs))
    ensures RunAll(e, RoundTrip(bs).value, m) == RunAll(e, bs, m)
  {
    RoundTripExactly(bs);
    AlikeMatches(e, bs, RoundTrip(bs).value);
    LoadedRunsAlike(e, e, bs, m);
  }

  /** A shell step with its own retry policy compiles without an error and loads back without the policy. */
  lemma PolicyDropped(name: string, payload: string)
    ensures var bs := [Step(name, Execute(Shell, payload, {}), true)];
            RoundTrip(bs) == Some([Step(name, Execute(Shell, payload, {}), false)])
  {
    var b := Step(name, Execute(Shell, payload, {}), true);
    var n := Leaf(name, Execute(Shell, payload, {}));
    assert [b][1..] == [] && [n][1..] == [] && [n] + [] == [n] && [b.(custom := false)] + [] == [b.(custom := false)];
    assert CompileNode(b, 0) == Some(n) && CompileAll([b][1..], 1) == Some([]);
    assert CompileAll([b], 0) == Some([n]);
    assert Build(n, DenyUnion([b])) == Some(b.(custom := false)) && BuildAll([n][1..], DenyUnion([b])) == Some([]);
    assert BuildAll([n], DenyUnion([b])) == Some([Step(name, Execute(Shell, payload, {}), false)]);
  }

  /** The denials of one code block come back on every code block. */
  lemma DenialsSpread(a: string, b: string, payload: string, capability: string)
    ensures var bs := [Step(a, Execute(Code, payload, {capability}), false),
                       Step(b, Execute(Code, payload, {}), false)];
            RoundTrip(bs) == Some([bs[0], Step(b, Execute(Code, payload, {capability}), false)])
  {
    var x, y := Step(a, Execute(Code, payload, {capability}), false), Step(b, Execute(Code, payload, {}), false);
    var bs := [x, y];
    var n, k := Leaf(a, Execute(Code, payload, {})), Leaf(b, Execute(Code, payload, {}));
    assert bs[1..] == [y] && [y][1..] == [] && [n, k][1..] == [k] && [k][1..] == [];
    assert DenyUnionOf(x) == {capability} && DenyUnion([y]) == DenyUnionOf(y) + DenyUnion([y][1..]);
    assert DenyUnion(bs) == {capability};
    SingleCompiles(y, 1);
    assert CompileAll(bs, 0) == Some([n] + [k]);
    assert [n] + [k] == [n, k];
    var z := Step(b, Execute(Code, payload, {capability}), false);
    assert BuildAll([k], {capability}) == Some([z]) by {
      assert Build(k, {capability}) == Some(z) && BuildAll([k][1..], {capability}) == Some([]);
      assert [z] + [] == [z];
    }
    assert Build(n, {capability}) == Some(x);
    assert BuildAll([n, k], {capability}) == Some([x] + [z]);
    assert [x] + [z] == [x, z];
  }

  lemma SingleCompiles(b: Block, index: nat)
    requires b.Step? && CompileStep(b).Some?
    ensures CompileAll([b], index) == Some([CompileStep(b).value])
  {
    assert [b][1..] == [] && CompileAll([b][1..], index + 1) == Some([]);
    assert [CompileStep(b).value] + [] == [CompileStep(b).value];
  }
}
