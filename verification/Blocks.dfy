/**
 * The loop tree: steps, parallel groups and conditionals (src/loopmaster/core/types.py),
 * and the static facts about a tree that decide whether an interrupted run can be resumed.
 */
module Blocks {
  import opened Values

  datatype Condition = Expression(source: string) | Callable(id: nat) | Constant(truth: bool)

  datatype Kind = Shell | Http | Mcp | Code | Human | Unsupported

  /** What a step does. `deny` is the capability list that only code blocks carry. */
  datatype Action =
    | Prompt(model: string, prompt: string)
    | Tool(tool: string)
    | Execute(kind: Kind, payload: string, deny: set<string>)
    | Bare

  /** `custom` is set when the step carries its own retry or on_error. */
  datatype Block =
    | Step(name: string, action: Action, custom: bool)
    | Parallel(steps: seq<Block>)
    | Conditional(name: string, condition: Condition, thenSteps: seq<Block>, elseSteps: seq<Block>)

  /** All step names in declaration order, parallel children and both branches inline. */
  function Names(bs: seq<Block>): seq<string> {
    if bs == [] then [] else NamesOf(bs[0]) + Names(bs[1..])
  }

  function NamesOf(b: Block): seq<string> {
    match b
    case Step(name, _, _) => [name]
    case Parallel(steps) => Names(steps)
    case Conditional(_, _, t, e) => Names(t) + Names(e)
  }

  /** The names of all conditionals. */
  function GroupNames(bs: seq<Block>): set<string> {
    if bs == [] then {} else GroupNamesOf(bs[0]) + GroupNames(bs[1..])
  }

  function GroupNamesOf(b: Block): set<string> {
    match b
    case Step(_, _, _) => {}
    case Parallel(steps) => GroupNames(steps)
    case Conditional(name, _, t, e) => {name} + GroupNames(t) + GroupNames(e)
  }

  /** Names of the direct children that have one: a parallel group has none. */
  function DirectNames(bs: seq<Block>): set<string> {
    set b | b in bs && !b.Parallel? :: b.name
  }

  function NameSet(bs: seq<Block>): set<string> {
    Elements(Names(bs))
  }

  /** The hygiene the loader enforces for step names, plus names of groups kept apart from them. */
  ghost predicate WellNamed(bs: seq<Block>) {
    Distinct(Names(bs)) && NameSet(bs) !! GroupNames(bs)
  }

  /** The first child that holds a step is itself a step. */
  predicate Anchored(bs: seq<Block>) {
    bs != [] && (if NamesOf(bs[0]) != [] then bs[0].Step? else Anchored(bs[1..]))
  }

  /** The largest number of steps one pass can execute. */
  function Longest(bs: seq<Block>): nat {
    if bs == [] then 0 else LongestOf(bs[0]) + Longest(bs[1..])
  }

  function LongestOf(b: Block): nat {
    match b
    case Step(_, _, _) => 1
    case Parallel(steps) => Longest(steps)
    case Conditional(_, _, t, e) => if Longest(t) < Longest(e) then Longest(e) else Longest(t)
  }

  /**
   * The static condition under which branch stickiness is enough. `followed` says that some
   * step may run after these blocks. Two branches that both hold steps must each be anchored;
   * a conditional with steps in one branch only must come last, and that branch must be
   * anchored unless it can run one step at most.
   */
  predicate Resumable(bs: seq<Block>, followed: bool) {
    bs != [] ==>
      && ResumableOf(bs[0], followed || Names(bs[1..]) != [])
      && Resumable(bs[1..], followed)
  }

  predicate ResumableOf(b: Block, followed: bool) {
    match b
    case Step(_, _, _) => true
    case Parallel(steps) => Resumable(steps, followed)
    case Conditional(_, _, t, e) =>
      && Resumable(t, followed)
      && Resumable(e, followed)
      && BranchesKept(t, e, followed)
  }

  predicate BranchesKept(t: seq<Block>, e: seq<Block>, followed: bool) {
    if Names(t) != [] && Names(e) != [] then Anchored(t) && Anchored(e)
    else if Names(t) != [] then !followed && (Anchored(t) || Longest(t) <= 1)
    else if Names(e) != [] then !followed && (Anchored(e) || Longest(e) <= 1)
    else true
  }

  lemma WellNamedParts(bs: seq<Block>)
    requires WellNamed(bs) && bs != []
    ensures WellNamed([bs[0]]) && WellNamed(bs[1..])
    ensures NameSet(bs) == Elements(NamesOf(bs[0])) + NameSet(bs[1..])
    ensures NameSet(bs[1..]) !! Elements(NamesOf(bs[0])) + GroupNamesOf(bs[0])
    ensures GroupNames(bs[1..]) !! Elements(NamesOf(bs[0]))
  {
    DistinctParts(NamesOf(bs[0]), Names(bs[1..]));
    ElementsOfSum(NamesOf(bs[0]), Names(bs[1..]));
    assert Names([bs[0]]) == NamesOf(bs[0]);
    assert GroupNames([bs[0]]) == GroupNamesOf(bs[0]);
  }

  lemma WellNamedBranches(b: Block)
    requires WellNamed([b]) && b.Conditional?
    ensures WellNamed(b.thenSteps) && WellNamed(b.elseSteps)
    ensures Elements(NamesOf(b)) == NameSet(b.thenSteps) + NameSet(b.elseSteps)
    ensures NameSet(b.thenSteps) !! NameSet(b.elseSteps) + GroupNames(b.elseSteps)
    ensures NameSet(b.elseSteps) !! GroupNames(b.thenSteps)
  {
    assert Names([b]) == NamesOf(b);
    assert GroupNames([b]) == GroupNamesOf(b);
    DistinctParts(Names(b.thenSteps), Names(b.elseSteps));
    ElementsOfSum(Names(b.thenSteps), Names(b.elseSteps));
  }

  lemma WellNamedGroup(b: Block)
    requires WellNamed([b]) && b.Parallel?
    ensures WellNamed(b.steps)
  {
    assert Names([b]) == NamesOf(b);
    assert GroupNames([b]) == GroupNamesOf(b);
  }

  lemma {:induction false} DirectNamesInside(bs: seq<Block>)
    ensures DirectNames(bs) <= NameSet(bs) + GroupNames(bs)
  {
    if bs != [] {
      DirectNamesInside(bs[1..]);
      ElementsOfSum(NamesOf(bs[0]), Names(bs[1..]));
      forall n | n in DirectNames(bs) ensures n in NameSet(bs) + GroupNames(bs) {
        var b :| b in bs && !b.Parallel? && b.name == n;
        if b != bs[0] {
          assert b in bs[1..];
          assert n in DirectNames(bs[1..]);
        }
      }
    }
  }

  lemma DirectSplit(bs: seq<Block>)
    requires bs != []
    ensures DirectNames(bs) == (if bs[0].Parallel? then {} else {bs[0].name}) + DirectNames(bs[1..])
    ensures bs[0].Conditional? ==> bs[0].name in GroupNames(bs)
  {}
}
