/** LoopSpec v1 documents and their building into runtime trees (src/loopmaster/spec/loader.py). */
module LoopSpec {
  import opened Values
  import opened Blocks

  /** A node of a spec. Capability denials sit at the top of the document, not on the leaves. */
  datatype Node =
    | Leaf(name: string, action: Action)
    | Group(name: string, steps: seq<Node>)
    | Branch(name: string, condition: string, thenNodes: seq<Node>, elseNodes: seq<Node>)

  /** The six leaf types; only code blocks take the document's denials. */
  function BuildLeaf(n: Node, deny: set<string>): Option<Block>
    requires n.Leaf?
  {
    match n.action
    case Prompt(_, _) => Some(Step(n.name, n.action, false))
    case Execute(kind, payload, _) =>
      if kind == Unsupported then None
      else Some(Step(n.name, Execute(kind, payload, if kind == Code then deny else {}), false))
    case _ => None
  }

  /** A runtime block, or None where the source raises: an unknown type, or a block inside a group. */
  function Build(n: Node, deny: set<string>): Option<Block> {
    match n
    case Leaf(_, _) => BuildLeaf(n, deny)
    case Group(_, steps) =>
      if exists i :: 0 <= i < |steps| && !steps[i].Leaf? then None
      else
        var built := BuildAll(steps, deny);
        if built.None? then None else Some(Parallel(built.value))
    case Branch(name, condition, t, e) =>
      var bt, be := BuildAll(t, deny), BuildAll(e, deny);
      if bt.None? || be.None? then None else Some(Conditional(name, Expression(condition), bt.value, be.value))
  }

  function BuildAll(ns: seq<Node>, deny: set<string>): Option<seq<Block>> {
    if ns == [] then Some([])
    else
      match (Build(ns[0], deny), BuildAll(ns[1..], deny))
      case (Some(b), Some(bs)) => Some([b] + bs)
      case _ => None
  }

  // ---------- What can be built, and into what ----------

  /** Nodes that build: leaves of the six types, groups of leaves, branches of such nodes. */
  predicate Buildable(ns: seq<Node>) {
    ns != [] ==> BuildableOne(ns[0]) && Buildable(ns[1..])
  }

  predicate BuildableOne(n: Node) {
    match n
    case Leaf(_, Prompt(_, _)) => true
    case Leaf(_, Execute(kind, _, _)) => kind == Shell || kind == Http || kind == Mcp || kind == Code || kind == Human
    case Leaf(_, _) => false
    case Group(_, steps) => (forall i :: 0 <= i < |steps| ==> steps[i].Leaf?) && Buildable(steps)
    case Branch(_, _, t, e) => Buildable(t) && Buildable(e)
  }

  /** The blocks do what the nodes say, and exactly the code blocks deny `deny`. */
  predicate Means(ns: seq<Node>, bs: seq<Block>, deny: set<string>) {
    |ns| == |bs| && (ns != [] ==> MeansOne(ns[0], bs[0], deny) && Means(ns[1..], bs[1..], deny))
  }

  predicate MeansOne(n: Node, b: Block, deny: set<string>) {
    match n
    case Leaf(name, Execute(Code, payload, _)) => b == Step(name, Execute(Code, payload, deny), false)
    case Leaf(name, Execute(kind, payload, _)) => b == Step(name, Execute(kind, payload, {}), false)
    case Leaf(name, action) => b == Step(name, action, false)
    case Group(_, steps) => b.Parallel? && Means(steps, b.steps, deny)
    case Branch(name, condition, t, e) =>
      && b.Conditional? && b.name == name && b.condition == Expression(condition)
      && Means(t, b.thenSteps, deny) && Means(e, b.elseSteps, deny)
  }

  /** The loader builds exactly the buildable documents, and each into exactly one tree. */
  lemma {:induction false} BuildsExactly(ns: seq<Node>, deny: set<string>, bs: seq<Block>)
    ensures BuildAll(ns, deny).Some? <==> Buildable(ns)
    ensures BuildAll(ns, deny) == Some(bs) <==> Buildable(ns) && Means(ns, bs, deny)
    decreases ns
  {
    if ns != [] {
      var b, rest := Build(ns[0], deny), BuildAll(ns[1..], deny);
      BuildsOneExactly(ns[0], deny, if b.Some? then b.value else Parallel([]));
      BuildsExactly(ns[1..], deny, if rest.Some? then rest.value else []);
      if bs != [] {
        BuildsOneExactly(ns[0], deny, bs[0]);
        BuildsExactly(ns[1..], deny, bs[1..]);
        assert bs == [bs[0]] + bs[1..];
      }
    }
  }

  lemma {:induction false} BuildsOneExactly(n: Node, deny: set<string>, b: Block)
    ensures Build(n, deny).Some? <==> BuildableOne(n)
    ensures Build(n, deny) == Some(b) <==> BuildableOne(n) && MeansOne(n, b, deny)
    decreases n
  {
    match n
    case Leaf(_, _) =>
    case Group(_, steps) => BuildsExactly(steps, deny, if b.Parallel? then b.steps else []);
    case Branch(_, _, t, e) =>
      BuildsExactly(t, deny, if b.Conditional? then b.thenSteps else []);
      BuildsExactly(e, deny, if b.Conditional? then b.elseSteps else []);
  }

  /** The step names of a document, as the loader collects them before checking for duplicates. */
  function LeafNames(ns: seq<Node>): seq<string> {
    if ns == [] then []
    else
      (match ns[0]
       case Leaf(name, _) => [name]
       case Group(_, steps) => LeafNames(steps)
       case Branch(_, _, t, e) => LeafNames(t) + LeafNames(e)) + LeafNames(ns[1..])
  }

  /** Building keeps the step names and their order, so the duplicate check speaks about the built tree. */
  lemma {:induction false} BuildKeepsNames(ns: seq<Node>, deny: set<string>)
    requires BuildAll(ns, deny).Some?
    ensures Names(BuildAll(ns, deny).value) == LeafNames(ns)
    ensures |BuildAll(ns, deny).value| == |ns|
  {
    if ns != [] {
      match ns[0] {
        case Leaf(_, _) =>
        case Group(_, steps) => BuildKeepsNames(steps, deny);
        case Branch(_, _, t, e) => BuildKeepsNames(t, deny); BuildKeepsNames(e, deny);
      }
      BuildKeepsNames(ns[1..], deny);
    }
  }

  // ---------- The duplicate check ----------

  /** The names that were seen before, in order. */
  function Repeats(seen: set<string>, names: seq<string>): seq<string>
    decreases |names|
  {
    if names == [] then []
    else (if names[0] in seen then [names[0]] else []) + Repeats(seen + {names[0]}, names[1..])
  }

  lemma {:induction false} RepeatsOfSum(seen: set<string>, s: seq<string>, t: seq<string>)
    ensures Repeats(seen, s + t) == Repeats(seen, s) + Repeats(seen + Elements(s), t)
    decreases |s|
  {
    if s == [] {
      assert s + t == t && seen + Elements(s) == seen;
    } else {
      assert (s + t)[1..] == s[1..] + t;
      RepeatsOfSum(seen + {s[0]}, s[1..], t);
      ElementsOfSum([s[0]], s[1..]);
      assert [s[0]] + s[1..] == s;
      assert seen + {s[0]} + Elements(s[1..]) == seen + Elements(s);
    }
  }

  /** Nothing is reported exactly when the names are distinct and new. */
  lemma {:induction false} RepeatsNothing(seen: set<string>, names: seq<string>)
    ensures Repeats(seen, names) == [] <==> Distinct(names) && Avoids(names, seen)
    decreases |names|
  {
    if names != [] {
      RepeatsNothing(seen + {names[0]}, names[1..]);
      DistinctParts([names[0]], names[1..]);
      assert [names[0]] + names[1..] == names;
      assert forall x :: x in names <==> x == names[0] || x in names[1..];
    }
  }

  /** The walk over the built tree that reports duplicate step names. */
  class NameChecker {
    var seen: set<string>
    var errors: seq<string>

    constructor ()
      ensures seen == {} && errors == []
    {
      seen, errors := {}, [];
    }

    method CheckNames(bs: seq<Block>)
      modifies this
      ensures errors == old(errors) + Repeats(old(seen), Names(bs))
      ensures seen == old(seen) + NameSet(bs)
      decreases bs, 1
    {
      var i := 0;
      assert bs[..0] == [];
      while i < |bs|
        invariant 0 <= i <= |bs|
        invariant errors + Repeats(seen, Names(bs[i..])) == old(errors) + Repeats(old(seen), Names(bs))
        invariant seen + NameSet(bs[i..]) == old(seen) + NameSet(bs)
      {
        assert bs[i..][0] == bs[i] && bs[i..][1..] == bs[i + 1..];
        RepeatsOfSum(seen, NamesOf(bs[i]), Names(bs[i + 1..]));
        ElementsOfSum(NamesOf(bs[i]), Names(bs[i + 1..]));
        SumAssociates(errors, Repeats(seen, NamesOf(bs[i])),
            Repeats(seen + Elements(NamesOf(bs[i])), Names(bs[i + 1..])));
        CheckName(bs[i]);
        i := i + 1;
      }
    }

    method CheckName(b: Block)
      modifies this
      ensures errors == old(errors) + Repeats(old(seen), NamesOf(b))
      ensures seen == old(seen) + Elements(NamesOf(b))
      decreases b, 0
    {
      match b
      case Step(name, _, _) =>
        if name in seen { errors := errors + [name]; }
        seen := seen + {name};
      case Parallel(steps) =>
        CheckNames(steps);
      case Conditional(_, _, t, e) =>
        RepeatsOfSum(seen, Names(t), Names(e));
        ElementsOfSum(Names(t), Names(e));
        SumAssociates(errors, Repeats(seen, Names(t)), Repeats(seen + NameSet(t), Names(e)));
        CheckNames(t);
        CheckNames(e);
    }
  }

  /** The loader accepts the names of a document exactly when they are pairwise different. */
  method NamesAreDistinct(ns: seq<Node>, deny: set<string>) returns (ok: bool)
    requires BuildAll(ns, deny).Some?
    ensures ok <==> Distinct(LeafNames(ns))
  {
    var checker := new NameChecker();
    checker.CheckNames(BuildAll(ns, deny).value);
    BuildKeepsNames(ns, deny);
    RepeatsNothing({}, LeafNames(ns));
    ok := checker.errors == [];
  }
}
