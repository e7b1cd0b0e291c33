/**
 * How a loop body, an ordinary function, becomes a tree: every constructor call registers its node
 * in the current list and takes the nodes it contains out of it (src/loopmaster/core/types.py,
 * engine.py).
 */
module Collect {
  import opened Values
  import opened Blocks

  // ---------- Any series of constructor calls ----------

  /** `history[i]` lists the nodes, numbered by creation, that node `i` contains: none for a step. */
  type History = seq<seq<nat>>

  /** Without the elements of `gone`, in order. */
  function Without<T(==)>(s: seq<T>, gone: seq<T>): seq<T> {
    if s == [] then [] else (if s[0] in gone then [] else [s[0]]) + Without(s[1..], gone)
  }

  lemma {:induction false} WithoutOfSum<T>(s: seq<T>, t: seq<T>, gone: seq<T>)
    ensures Without(s + t, gone) == Without(s, gone) + Without(t, gone)
    decreases |s|
  {
    if s == [] {
      assert s + t == t;
    } else {
      assert (s + t)[1..] == s[1..] + t;
      WithoutOfSum(s[1..], t, gone);
    }
  }

  lemma {:induction false} WithoutKept<T>(s: seq<T>, gone: seq<T>)
    ensures (forall x :: x in s ==> x !in gone) ==> Without(s, gone) == s
    ensures (forall x :: x in s ==> x in gone) ==> Without(s, gone) == []
    ensures forall x :: x in Without(s, gone) <==> x in s && x !in gone
    decreases |s|
  {
    if s != [] { WithoutKept(s[1..], gone); }
  }

  /** The current list after the first `n` constructor calls. */
  function Collected(history: History, n: nat): seq<nat>
    requires n <= |history|
  {
    if n == 0 then [] else Without<nat>(Collected(history, n - 1), history[n - 1]) + [n - 1]
  }

  /** Some of the first `n` nodes contains `i`. */
  predicate HasParent(history: History, n: nat, i: nat)
    requires n <= |history|
  {
    exists j | 0 <= j < n :: i in history[j]
  }

  /** The nodes below `n` that no node below `m` contains, in creation order. */
  function Roots(history: History, m: nat, n: nat): seq<nat>
    requires m <= |history|
  {
    if n == 0 then [] else Roots(history, m, n - 1) + (if HasParent(history, m, n - 1) then [] else [n - 1])
  }

  /** A node contains only nodes created before it. */
  predicate Earlier(history: History) {
    forall i, c :: 0 <= i < |history| && c in history[i] ==> c < i
  }

  lemma OneMoreParent(history: History, m: nat, i: nat)
    requires m < |history|
    ensures HasParent(history, m + 1, i) <==> HasParent(history, m, i) || i in history[m]
  {
    if j :| 0 <= j < m + 1 && i in history[j] && j != m { assert HasParent(history, m, i); }
  }

  lemma {:induction false} RootsShrink(history: History, m: nat, n: nat)
    requires m < |history|
    ensures Roots(history, m + 1, n) == Without<nat>(Roots(history, m, n), history[m])
  {
    if n > 0 {
      RootsShrink(history, m, n - 1);
      var last: seq<nat> := if HasParent(history, m, n - 1) then [] else [n - 1];
      WithoutOfSum<nat>(Roots(history, m, n - 1), last, history[m]);
      OneMoreParent(history, m, n - 1);
      assert Without<nat>(last, history[m]) == if HasParent(history, m + 1, n - 1) then [] else [n - 1];
    }
  }

  /** After any calls, the list holds exactly the nodes without a parent, in creation order. */
  lemma {:induction false} CollectedAreRoots(history: History, n: nat)
    requires Earlier(history) && n <= |history|
    ensures Collected(history, n) == Roots(history, n, n)
  {
    if n > 0 {
      CollectedAreRoots(history, n - 1);
      RootsShrink(history, n - 1, n - 1);
      forall j | 0 <= j < n ensures n - 1 !in history[j] {
        assert forall c :: c in history[j] ==> c < j;
      }
    }
  }

  // ---------- Evaluating a written tree ----------

  /** A node object: two nodes of the same content are still different. */
  class Node {
    const block: Block

    constructor (block: Block)
      ensures this.block == block
    {
      this.block := block;
    }
  }

  function BlocksOf(nodes: seq<Node>): seq<Block> {
    seq(|nodes|, i requires 0 <= i < |nodes| => nodes[i].block)
  }

  lemma BlocksOfSum(s: seq<Node>, t: seq<Node>)
    ensures BlocksOf(s + t) == BlocksOf(s) + BlocksOf(t)
  {}

  class Collector {
    var current: seq<Node>

    constructor ()
      ensures current == []
    {
      current := [];
    }

    /** A step registers itself. */
    method NewStep(name: string, action: Action, custom: bool) returns (n: Node)
      modifies this
      ensures fresh(n) && n.block == Step(name, action, custom)
      ensures current == old(current) + [n]
    {
      n := new Node(Step(name, action, custom));
      current := current + [n];
    }

    /** Take the contained nodes out of the list. */
    method Absorb(contained: seq<Node>)
      modifies this
      ensures current == Without(old(current), contained)
    {
      var kept: seq<Node> := [];
      var i := 0;
      while i < |current|
        invariant 0 <= i <= |current| && current == old(current)
        invariant kept == Without(current[..i], contained)
      {
        assert current[..i + 1] == current[..i] + [current[i]];
        WithoutOfSum(current[..i], [current[i]], contained);
        if current[i] !in contained { kept := kept + [current[i]]; }
        i := i + 1;
      }
      assert current[..|current|] == current;
      current := kept;
    }

    method NewParallel(steps: seq<Node>) returns (n: Node)
      modifies this
      ensures fresh(n) && n.block == Parallel(BlocksOf(steps))
      ensures current == Without(old(current), steps) + [n]
    {
      Absorb(steps);
      n := new Node(Parallel(BlocksOf(steps)));
      current := current + [n];
    }

    method NewConditional(name: string, condition: Condition, thenSteps: seq<Node>, elseSteps: seq<Node>)
      returns (n: Node)
      modifies this
      ensures fresh(n) && n.block == Conditional(name, condition, BlocksOf(thenSteps), BlocksOf(elseSteps))
      ensures current == Without(old(current), thenSteps + elseSteps) + [n]
    {
      Absorb(thenSteps + elseSteps);
      n := new Node(Conditional(name, condition, BlocksOf(thenSteps), BlocksOf(elseSteps)));
      current := current + [n];
    }

    /** Evaluate one written expression: its parts first, then its constructor. */
    method Evaluate(b: Block) returns (n: Node)
      modifies this
      ensures fresh(n) && n.block == b
      ensures current == old(current) + [n]
      decreases b, 0
    {
      match b
      case Step(name, action, custom) =>
        n := NewStep(name, action, custom);
      case Parallel(steps) =>
        var nodes := EvaluateAll(steps);
        WithoutOfSum(old(current), nodes, nodes);
        WithoutKept(old(current), nodes);
        WithoutKept(nodes, nodes);
        n := NewParallel(nodes);
      case Conditional(name, condition, thenSteps, elseSteps) =>
        var t := EvaluateAll(thenSteps);
        var e := EvaluateAll(elseSteps);
        SumAssociates(old(current), t, e);
        WithoutOfSum(old(current), t + e, t + e);
        WithoutKept(old(current), t + e);
        WithoutKept(t + e, t + e);
        n := NewConditional(name, condition, t, e);
    }

    method EvaluateAll(bs: seq<Block>) returns (nodes: seq<Node>)
      modifies this
      ensures forall n :: n in nodes ==> fresh(n)
      ensures BlocksOf(nodes) == bs
      ensures current == old(current) + nodes
      decreases bs, 1
    {
      nodes := [];
      var i := 0;
      while i < |bs|
        invariant 0 <= i <= |bs|
        invariant forall n :: n in nodes ==> fresh(n)
        invariant BlocksOf(nodes) == bs[..i]
        invariant current == old(current) + nodes
      {
        var n := Evaluate(bs[i]);
        SumAssociates(old(current), nodes, [n]);
        BlocksOfSum(nodes, [n]);
        nodes := nodes + [n];
        i := i + 1;
      }
    }
  }

  /** Evaluating a loop body collects the tree that was written. */
  method CollectBody(body: seq<Block>) returns (collected: seq<Block>)
    ensures collected == body
  {
    var c := new Collector();
    var nodes := c.EvaluateAll(body);
    assert c.current == nodes;
    collected := BlocksOf(c.current);
  }
}
