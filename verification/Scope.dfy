/**
 * The scope checker for placeholders (src/loopmaster/spec/loader.py, `_walk_semantics`): it
 * accepts a document exactly when every reference is in scope. What that means for runs is in
 * `ScopeRun`.
 */
module Scope {
  import opened Values
  import opened Blocks
  import opened LoopSpec
  import opened Strings

  /**
   * A placeholder: its first component, and whether a field of it is taken; or a text in braces
   * that looks like one and is none.
   */
  datatype Ref = Ref(root: string, field: bool) | Malformed(text: string)

  /**
   * The placeholders found in a leaf's templates and in a condition, and whether a condition is an
   * expression the engine evaluates.
   */
  datatype Reader = Reader(refs: Action -> seq<Ref>, roots: string -> seq<string>, evaluable: string -> bool)

  /** What a known name stands for. */
  datatype Origin = FromContext | FromPrompt | FromExecutor(kind: Kind) | FromGroup | FromBranch

  type Known = map<string, Origin>

  datatype ScopeError =
    | UnknownRef(root: string)
    | RawRef(root: string)
    | MalformedRef(text: string)
    | UnknownInCondition(root: string)
    | InvalidCondition(condition: string)

  function OriginOf(n: Node): Origin {
    match n
    case Leaf(_, action) => if action.Execute? then FromExecutor(action.kind) else FromPrompt
    case Group(_, _) => FromGroup
    case Branch(_, _, _, _) => FromBranch
  }

  predicate Named(n: Node) {
    Strip(n.name) != ""
  }

  predicate Raw(o: Origin) {
    o.FromExecutor? && (o.kind == Shell || o.kind == Http || o.kind == Mcp)
  }

  function RefError(known: Known, r: Ref): seq<ScopeError> {
    if r.Malformed? then [MalformedRef(r.text)]
    else if r.root !in known then [UnknownRef(r.root)]
    else if Raw(known[r.root]) && !r.field then [RawRef(r.root)]
    else []
  }

  function RefErrors(known: Known, refs: seq<Ref>): seq<ScopeError> {
    if refs == [] then [] else RefError(known, refs[0]) + RefErrors(known, refs[1..])
  }

  function RootErrors(known: Known, roots: seq<string>): seq<ScopeError> {
    if roots == [] then []
    else (if roots[0] in known then [] else [UnknownInCondition(roots[0])]) + RootErrors(known, roots[1..])
  }

  function ConditionErrors(rd: Reader, known: Known, condition: string): seq<ScopeError> {
    RootErrors(known, rd.roots(condition)) + (if rd.evaluable(condition) then [] else [InvalidCondition(condition)])
  }

  /**
   * What is reported when a declared name is referred to: a bare reference to a shell, HTTP or MCP
   * leaf, and nothing else; an undeclared name always.
   */
  lemma BareReported(known: Known, n: Node, root: string)
    requires root in known && known[root] == OriginOf(n)
    ensures RefError(known, Ref(root, true)) == []
    ensures n.Leaf? && n.action.Execute?
              && (n.action.kind == Shell || n.action.kind == Http || n.action.kind == Mcp) ==>
              RefError(known, Ref(root, false)) == [RawRef(root)]
    ensures n.Leaf? && n.action.Execute? && (n.action.kind == Code || n.action.kind == Human) ==>
              RefError(known, Ref(root, false)) == []
    ensures n.Leaf? && !n.action.Execute? ==> RefError(known, Ref(root, false)) == []
    ensures n.Group? || n.Branch? ==> RefError(known, Ref(root, false)) == []
  {}

  lemma AlwaysReported(known: Known, root: string, field: bool, text: string)
    ensures root !in known ==> RefError(known, Ref(root, field)) == [UnknownRef(root)]
    ensures root in known && known[root] == FromContext ==> RefError(known, Ref(root, field)) == []
    ensures RefError(known, Malformed(text)) == [MalformedRef(text)]
  {}

  // ---------- The checker on values ----------

  /** The names a list of nodes registers, later ones overriding earlier ones. */
  function Registers(ns: seq<Node>): Known {
    if ns == [] then map[] else RegistersOf(ns[0]) + Registers(ns[1..])
  }

  function RegistersOf(n: Node): Known {
    var inside: Known :=
      match n
      case Leaf(_, _) => map[]
      case Group(_, steps) => Registers(steps)
      case Branch(_, _, t, e) => Registers(t) + Registers(e);
    if Named(n) then inside[n.name := OriginOf(n)] else inside
  }

  /** A node registers its name, unless that is white space only, as what the node is. */
  lemma NameRegistered(n: Node)
    ensures Blank(n.name) && n.Leaf? ==> RegistersOf(n) == map[]
    ensures !Blank(n.name) ==> n.name in RegistersOf(n) && RegistersOf(n)[n.name] == OriginOf(n)
    ensures n.Leaf? && n.action.Execute? ==> OriginOf(n) == FromExecutor(n.action.kind)
    ensures n.Leaf? && !n.action.Execute? ==> OriginOf(n) == FromPrompt
    ensures n.Group? ==> OriginOf(n) == FromGroup
    ensures n.Branch? ==> OriginOf(n) == FromBranch
  {
    StripSum(n.name, "");
  }

  /** The errors reported for a list of nodes when the names in `known` are in scope. */
  function Errors(rd: Reader, ns: seq<Node>, known: Known): seq<ScopeError> {
    if ns == [] then []
    else ErrorsOf(rd, ns[0], known) + Errors(rd, ns[1..], known + RegistersOf(ns[0]))
  }

  function ErrorsOf(rd: Reader, n: Node, known: Known): seq<ScopeError> {
    match n
    case Leaf(_, action) => RefErrors(known, rd.refs(action))
    case Group(_, steps) => SiblingErrors(rd, steps, known)
    case Branch(_, condition, t, e) =>
      ConditionErrors(rd, known, condition) + (Errors(rd, t, known) + Errors(rd, e, known))
  }

  /** Children of a group see the enclosing scope only, not each other. */
  function SiblingErrors(rd: Reader, ns: seq<Node>, known: Known): seq<ScopeError> {
    if ns == [] then [] else ErrorsOf(rd, ns[0], known) + SiblingErrors(rd, ns[1..], known)
  }

  // ---------- The checker, updating its maps and its error list ----------

  class Checker {
    const rd: Reader
    var errors: seq<ScopeError>

    constructor (rd: Reader)
      ensures this.rd == rd && errors == []
    {
      this.rd := rd;
      errors := [];
    }

    method CheckRefs(known: Known, refs: seq<Ref>)
      modifies this
      ensures errors == old(errors) + RefErrors(known, refs)
    {
      var i := 0;
      while i < |refs|
        invariant 0 <= i <= |refs|
        invariant errors + RefErrors(known, refs[i..]) == old(errors) + RefErrors(known, refs)
      {
        assert refs[i..][0] == refs[i] && refs[i..][1..] == refs[i + 1..];
        SumAssociates(errors, RefError(known, refs[i]), RefErrors(known, refs[i + 1..]));
        if refs[i].Malformed? {
          errors := errors + [MalformedRef(refs[i].text)];
        } else if refs[i].root !in known {
          errors := errors + [UnknownRef(refs[i].root)];
        } else if Raw(known[refs[i].root]) && !refs[i].field {
          errors := errors + [RawRef(refs[i].root)];
        }
        i := i + 1;
      }
    }

    /** The placeholders of a condition, then its syntax. */
    method CheckCondition(known: Known, condition: string)
      modifies this
      ensures errors == old(errors) + ConditionErrors(rd, known, condition)
    {
      var roots := rd.roots(condition);
      var i := 0;
      while i < |roots|
        invariant 0 <= i <= |roots|
        invariant errors + RootErrors(known, roots[i..]) == old(errors) + RootErrors(known, roots)
      {
        assert roots[i..][0] == roots[i] && roots[i..][1..] == roots[i + 1..];
        if roots[i] !in known { errors := errors + [UnknownInCondition(roots[i])]; }
        i := i + 1;
      }
      ghost var syntax := if rd.evaluable(condition) then [] else [InvalidCondition(condition)];
      SumAssociates(old(errors), RootErrors(known, roots), syntax);
      if !rd.evaluable(condition) { errors := errors + [InvalidCondition(condition)]; }
    }

    /** One node against the names in scope; returns what it registers. */
    method WalkNode(n: Node, known: Known) returns (registered: Known)
      modifies this
      ensures registered == RegistersOf(n)
      ensures errors == old(errors) + ErrorsOf(rd, n, known)
      decreases n
    {
      match n {
        case Leaf(_, action) =>
          CheckRefs(known, rd.refs(action));
          registered := map[];
        case Group(_, steps) =>
          registered := WalkSiblings(steps, known);
        case Branch(_, condition, t, e) =>
          ghost var c, et, ee := ConditionErrors(rd, known, condition), Errors(rd, t, known), Errors(rd, e, known);
          SumAssociates(errors + c, et, ee);
          SumAssociates(errors, c, et + ee);
          CheckCondition(known, condition);
          var _, inThen := WalkSemantics(t, known);
          var _, inElse := WalkSemantics(e, known);
          registered := inThen + inElse;
      }
      if Strip(n.name) != "" { registered := registered[n.name := OriginOf(n)]; }
    }

    /** Walk a list in declaration order; `known` grows as names are registered. */
    method WalkSemantics(ns: seq<Node>, known0: Known) returns (known: Known, registered: Known)
      modifies this
      ensures registered == Registers(ns) && known == known0 + registered
      ensures errors == old(errors) + Errors(rd, ns, known0)
      decreases ns
    {
      known, registered := known0, map[];
      var i := 0;
      while i < |ns|
        invariant 0 <= i <= |ns|
        invariant known == known0 + registered
        invariant registered + Registers(ns[i..]) == Registers(ns)
        invariant errors + Errors(rd, ns[i..], known) == old(errors) + Errors(rd, ns, known0)
      {
        assert ns[i..][0] == ns[i] && ns[i..][1..] == ns[i + 1..];
        ghost var errors1 := errors;
        var added := WalkNode(ns[i], known);
        MapSumAssociates(known0, registered, added);
        MapSumAssociates(registered, added, Registers(ns[i + 1..]));
        SumAssociates(errors1, ErrorsOf(rd, ns[i], known), Errors(rd, ns[i + 1..], known + added));
        known, registered := known + added, registered + added;
        i := i + 1;
      }
    }

    /** The children of a group, each against a copy of the enclosing scope. */
    method WalkSiblings(ns: seq<Node>, known: Known) returns (merged: Known)
      modifies this
      ensures merged == Registers(ns)
      ensures errors == old(errors) + SiblingErrors(rd, ns, known)
      decreases ns
    {
      merged := map[];
      var j := 0;
      while j < |ns|
        invariant 0 <= j <= |ns|
        invariant merged + Registers(ns[j..]) == Registers(ns)
        invariant errors + SiblingErrors(rd, ns[j..], known) == old(errors) + SiblingErrors(rd, ns, known)
      {
        assert ns[j..][0] == ns[j] && ns[j..][1..] == ns[j + 1..];
        ghost var errors1 := errors;
        var child := WalkNode(ns[j], known);
        MapSumAssociates(merged, child, Registers(ns[j + 1..]));
        SumAssociates(errors1, ErrorsOf(rd, ns[j], known), SiblingErrors(rd, ns[j + 1..], known));
        merged := merged + child;
        j := j + 1;
      }
    }
  }

  // ---------- Locations and visibility ----------

  /** One turn on the way into a document: into a sequence, a group, or a branch. */
  datatype Turn = Item(i: nat) | Child(j: nat) | Then | Else

  type Loc = seq<Turn>

  /** The node at a location in a list, which is a group's if `par`. */
  function At(ns: seq<Node>, loc: Loc, par: bool): Option<Node> {
    if loc == [] then None
    else
      match loc[0]
      case Item(k) => if !par && k < |ns| then Below(ns[k], loc[1..]) else None
      case Child(k) => if par && k < |ns| then Below(ns[k], loc[1..]) else None
      case _ => None
  }

  function Below(n: Node, loc: Loc): Option<Node> {
    if loc == [] then Some(n)
    else
      match n
      case Leaf(_, _) => None
      case Group(_, steps) => At(steps, loc, true)
      case Branch(_, _, t, e) =>
        if loc[0] == Then then At(t, loc[1..], false)
        else if loc[0] == Else then At(e, loc[1..], false)
        else None
  }

  /**
   * What is declared at `d` is in scope at `r`: where the two locations part, both are in one
   * sequence and `d` comes first. So neither a parallel sibling nor the opposite branch is visible.
   */
  ghost predicate Visible(d: Loc, r: Loc) {
    exists k :: 0 <= k < |d| && k < |r| && PartAt(d, r, k)
  }

  predicate PartAt(d: Loc, r: Loc, k: nat)
    requires k < |d| && k < |r|
  {
    d[..k] == r[..k] && d[k].Item? && r[k].Item? && d[k].i < r[k].i
  }

  ghost predicate Declares(ns: seq<Node>, d: Loc, par: bool, x: string) {
    At(ns, d, par).Some? && Named(At(ns, d, par).value) && At(ns, d, par).value.name == x
  }

  ghost predicate DeclaresBelow(n: Node, d: Loc, x: string) {
    Below(n, d).Some? && Named(Below(n, d).value) && Below(n, d).value.name == x
  }

  /** The names in scope at a location, as the walk computes them. */
  function KnownAt(ns: seq<Node>, loc: Loc, par: bool, known: Known): Known
    requires At(ns, loc, par).Some?
  {
    match loc[0]
    case Item(k) => KnownBelow(ns[k], loc[1..], known + Registers(ns[..k]))
    case Child(k) => KnownBelow(ns[k], loc[1..], known)
  }

  function KnownBelow(n: Node, loc: Loc, known: Known): Known
    requires Below(n, loc).Some?
  {
    if loc == [] then known
    else
      match n
      case Group(_, steps) => KnownAt(steps, loc, true, known)
      case Branch(_, _, t, e) =>
        if loc[0] == Then then KnownAt(t, loc[1..], false, known) else KnownAt(e, loc[1..], false, known)
  }

  lemma PartLater(d: Loc, r: Loc, p: nat)
    requires p < |d| && p < |r| && PartAt(d, r, p)
    ensures p > 0 ==> d[0] == r[0]
  {
    if p > 0 { assert d[..p][0] == d[0] && r[..p][0] == r[0]; }
  }

  lemma VisibleBelow(t: Turn, d: Loc, r: Loc)
    ensures Visible([t] + d, [t] + r) <==> Visible(d, r)
  {
    var d1, r1 := [t] + d, [t] + r;
    if Visible(d, r) {
      var k :| 0 <= k < |d| && k < |r| && PartAt(d, r, k);
      assert d1[..k + 1] == [t] + d[..k] && r1[..k + 1] == [t] + r[..k];
      assert PartAt(d1, r1, k + 1);
    }
    if Visible(d1, r1) {
      var k :| 0 <= k < |d1| && k < |r1| && PartAt(d1, r1, k);
      assert d1[0] == t && r1[0] == t;
      assert k > 0;
      assert d == d1[1..] && r == r1[1..];
      assert d[..k - 1] == d1[..k][1..] && r[..k - 1] == r1[..k][1..];
      assert PartAt(d, r, k - 1);
    }
  }

  lemma {:induction false} RegistersPrefix(ns: seq<Node>, k: nat, x: string)
    requires k <= |ns|
    ensures x in Registers(ns[..k]) <==> exists i :: 0 <= i < k && x in RegistersOf(ns[i])
  {
    if k > 0 {
      assert ns[..k][0] == ns[0] && ns[..k][1..] == ns[1..][..k - 1];
      RegistersPrefix(ns[1..], k - 1, x);
      if x in Registers(ns[1..][..k - 1]) {
        var i :| 0 <= i < k - 1 && x in RegistersOf(ns[1..][i]);
        assert x in RegistersOf(ns[i + 1]);
      }
      if i :| 0 < i < k && x in RegistersOf(ns[i]) {
        assert x in RegistersOf(ns[1..][i - 1]);
      }
    }
  }

  function Enter(k: nat, par: bool): Turn {
    if par then Child(k) else Item(k)
  }

  /** A list registers exactly the names declared somewhere in it. */
  lemma {:induction false} RegistersDeclared(ns: seq<Node>, par: bool, x: string)
    ensures x in Registers(ns) <==> exists d :: Declares(ns, d, par, x)
    decreases ns
  {
    RegistersPrefix(ns, |ns|, x);
    assert ns[..|ns|] == ns;
    if x in Registers(ns) {
      var i :| 0 <= i < |ns| && x in RegistersOf(ns[i]);
      RegistersDeclaredOf(ns[i], x);
      var d: Loc :| DeclaresBelow(ns[i], d, x);
      assert ([Enter(i, par)] + d)[1..] == d;
      assert Declares(ns, [Enter(i, par)] + d, par, x);
    }
    if d: Loc :| Declares(ns, d, par, x) {
      var k := if par then d[0].j else d[0].i;
      assert DeclaresBelow(ns[k], d[1..], x);
      RegistersDeclaredOf(ns[k], x);
    }
  }

  lemma {:induction false} RegistersDeclaredOf(n: Node, x: string)
    ensures x in RegistersOf(n) <==> exists d :: DeclaresBelow(n, d, x)
    decreases n
  {
    if Named(n) && n.name == x { assert DeclaresBelow(n, [], x); }
    match n
    case Leaf(_, _) =>
    case Group(_, steps) =>
      RegistersDeclared(steps, true, x);
      if d: Loc :| Declares(steps, d, true, x) { assert DeclaresBelow(n, d, x); }
      if d: Loc :| DeclaresBelow(n, d, x) && d != [] { assert Declares(steps, d, true, x); }
    case Branch(_, _, t, e) =>
      RegistersDeclared(t, false, x);
      RegistersDeclared(e, false, x);
      if d: Loc :| Declares(t, d, false, x) { assert ([Then] + d)[1..] == d; assert DeclaresBelow(n, [Then] + d, x); }
      if d: Loc :| Declares(e, d, false, x) { assert ([Else] + d)[1..] == d; assert DeclaresBelow(n, [Else] + d, x); }
      if d: Loc :| DeclaresBelow(n, d, x) && d != [] {
        assert Declares(if d[0] == Then then t else e, d[1..], false, x);
      }
  }

  /** In scope at `r`: known from outside, or declared at a visible location. */
  ghost predicate InScope(ns: seq<Node>, par: bool, r: Loc, x: string) {
    exists d :: Declares(ns, d, par, x) && Visible(d, r)
  }

  ghost predicate InScopeBelow(n: Node, r: Loc, x: string) {
    exists d :: DeclaresBelow(n, d, x) && Visible(d, r)
  }

  /** Declared in an earlier node of the same sequence: visible. */
  lemma EarlierIsInScope(ns: seq<Node>, r: Loc, i: nat, x: string)
    requires At(ns, r, false).Some? && i < r[0].i && x in RegistersOf(ns[i])
    ensures InScope(ns, false, r, x)
  {
    RegistersDeclaredOf(ns[i], x);
    var d :| DeclaresBelow(ns[i], d, x);
    var d1 := [Item(i)] + d;
    assert d1[1..] == d && Declares(ns, d1, false, x);
    assert PartAt(d1, r, 0);
    assert Visible(d1, r);
  }

  /** Visible in a list: declared in an earlier node of a sequence, or visible within the same node. */
  lemma InScopeSplit(ns: seq<Node>, par: bool, r: Loc, x: string)
    requires At(ns, r, par).Some?
    ensures var k := if par then r[0].j else r[0].i;
            InScope(ns, par, r, x) <==>
              InScopeBelow(ns[k], r[1..], x) || (!par && exists i :: 0 <= i < k && x in RegistersOf(ns[i]))
  {
    var k := if par then r[0].j else r[0].i;
    assert r == [Enter(k, par)] + r[1..];
    if InScopeBelow(ns[k], r[1..], x) {
      var d :| DeclaresBelow(ns[k], d, x) && Visible(d, r[1..]);
      var d1 := [Enter(k, par)] + d;
      assert d1[1..] == d && Declares(ns, d1, par, x);
      VisibleBelow(Enter(k, par), d, r[1..]);
    }
    if !par && exists i :: 0 <= i < k && x in RegistersOf(ns[i]) {
      var i :| 0 <= i < k && x in RegistersOf(ns[i]);
      EarlierIsInScope(ns, r, i, x);
    }
    if InScope(ns, par, r, x) {
      var d: Loc :| Declares(ns, d, par, x) && Visible(d, r);
      if d[0] == r[0] {
        assert d == [r[0]] + d[1..];
        VisibleBelow(r[0], d[1..], r[1..]);
        assert DeclaresBelow(ns[k], d[1..], x);
      } else {
        var p :| 0 <= p < |d| && p < |r| && PartAt(d, r, p);
        PartLater(d, r, p);
        assert DeclaresBelow(ns[d[0].i], d[1..], x);
        RegistersDeclaredOf(ns[d[0].i], x);
      }
    }
  }

  /** The walk knows a name at a location exactly when it is in scope there. */
  lemma {:induction false} KnownIsInScope(ns: seq<Node>, par: bool, r: Loc, known: Known, x: string)
    requires At(ns, r, par).Some?
    ensures x in KnownAt(ns, r, par, known) <==> x in known || InScope(ns, par, r, x)
    decreases ns
  {
    var k := if par then r[0].j else r[0].i;
    KnownIsInScopeBelow(ns[k], r[1..], if par then known else known + Registers(ns[..k]), x);
    RegistersPrefix(ns, k, x);
    InScopeSplit(ns, par, r, x);
  }

  lemma {:induction false} KnownIsInScopeBelow(n: Node, r: Loc, known: Known, x: string)
    requires Below(n, r).Some?
    ensures x in KnownBelow(n, r, known) <==> x in known || InScopeBelow(n, r, x)
    decreases n
  {
    if r != [] {
      match n
      case Group(_, steps) =>
        KnownIsInScope(steps, true, r, known, x);
        if InScope(steps, true, r, x) {
          var d: Loc :| Declares(steps, d, true, x) && Visible(d, r);
          assert DeclaresBelow(n, d, x);
        }
        if InScopeBelow(n, r, x) {
          var d: Loc :| DeclaresBelow(n, d, x) && Visible(d, r);
          assert Declares(steps, d, true, x);
        }
      case Branch(_, _, t, e) =>
        KnownInBranch(n, r, known, x);
    }
  }

  lemma {:induction false} KnownInBranch(n: Node, r: Loc, known: Known, x: string)
    requires n.Branch? && r != [] && Below(n, r).Some?
    ensures x in KnownBelow(n, r, known) <==> x in known || InScopeBelow(n, r, x)
    decreases n, 0
  {
    var side := if r[0] == Then then n.thenNodes else n.elseNodes;
    var r1 := r[1..];
    assert r == [r[0]] + r1;
    KnownIsInScope(side, false, r1, known, x);
    if InScope(side, false, r1, x) {
      var d: Loc :| Declares(side, d, false, x) && Visible(d, r1);
      var d1 := [r[0]] + d;
      assert d1[1..] == d && DeclaresBelow(n, d1, x);
      VisibleBelow(r[0], d, r1);
    }
    if InScopeBelow(n, r, x) {
      var d: Loc :| DeclaresBelow(n, d, x) && Visible(d, r);
      var p :| 0 <= p < |d| && p < |r| && PartAt(d, r, p);
      assert p > 0;
      assert d[..p][0] == r[..p][0];
      assert d == [r[0]] + d[1..];
      VisibleBelow(r[0], d[1..], r1);
      assert Declares(side, d[1..], false, x);
    }
  }

  // ---------- The checker reports exactly the references out of scope ----------

  /** No complaint about the node's own references when `known` is in scope. */
  predicate Clean(rd: Reader, n: Node, known: Known) {
    match n
    case Leaf(_, action) =>
      forall i :: 0 <= i < |rd.refs(action)| ==>
        Accepted(known, rd.refs(action)[i])
    case Group(_, _) => true
    case Branch(_, condition, _, _) =>
      && rd.evaluable(condition)
      && forall i :: 0 <= i < |rd.roots(condition)| ==> rd.roots(condition)[i] in known
  }

  predicate Accepted(known: Known, ref: Ref) {
    ref.Ref? && ref.root in known && (Raw(known[ref.root]) ==> ref.field)
  }

  lemma {:induction false} RefErrorsEmpty(known: Known, refs: seq<Ref>)
    ensures RefErrors(known, refs) == [] <==> forall i :: 0 <= i < |refs| ==> Accepted(known, refs[i])
  {
    if refs != [] {
      RefErrorsEmpty(known, refs[1..]);
      assert RefErrors(known, refs) == [] <==> RefError(known, refs[0]) == [] && RefErrors(known, refs[1..]) == [];
      assert forall i :: 0 < i < |refs| ==> refs[i] == refs[1..][i - 1];
      if RefErrors(known, refs) == [] {
        forall i | 0 <= i < |refs| ensures Accepted(known, refs[i]) {
          if i > 0 { assert refs[i] == refs[1..][i - 1]; }
        }
      }
    }
  }

  lemma {:induction false} RootErrorsEmpty(known: Known, roots: seq<string>)
    ensures RootErrors(known, roots) == [] <==> forall i :: 0 <= i < |roots| ==> roots[i] in known
  {
    if roots != [] {
      RootErrorsEmpty(known, roots[1..]);
      if RootErrors(known, roots) == [] {
        forall i | 0 <= i < |roots| ensures roots[i] in known {
          if i > 0 { assert roots[i] == roots[1..][i - 1]; }
        }
      }
      assert forall i :: 0 < i < |roots| ==> roots[i] == roots[1..][i - 1];
    }
  }

  /** The errors of a list are those of its nodes, each with the names registered before it. */
  lemma {:induction false} ErrorsByNode(rd: Reader, ns: seq<Node>, known: Known)
    ensures Errors(rd, ns, known) == [] <==>
              forall k :: 0 <= k < |ns| ==> ErrorsOf(rd, ns[k], known + Registers(ns[..k])) == []
  {
    if ns != [] {
      var next := known + RegistersOf(ns[0]);
      ErrorsByNode(rd, ns[1..], next);
      assert known + Registers(ns[..0]) == known;
      forall k | 0 < k < |ns|
        ensures known + Registers(ns[..k]) == next + Registers(ns[1..][..k - 1]) && ns[1..][k - 1] == ns[k]
      {
        assert ns[..k][0] == ns[0] && ns[..k][1..] == ns[1..][..k - 1];
        MapSumAssociates(known, RegistersOf(ns[0]), Registers(ns[1..][..k - 1]));
      }
      if forall k :: 0 <= k < |ns| ==> ErrorsOf(rd, ns[k], known + Registers(ns[..k])) == [] {
        forall k | 0 <= k < |ns[1..]| ensures ErrorsOf(rd, ns[1..][k], next + Registers(ns[1..][..k])) == [] {
          assert ns[1..][k] == ns[k + 1];
        }
      }
    }
  }

  lemma {:induction false} SiblingErrorsByNode(rd: Reader, ns: seq<Node>, known: Known)
    ensures SiblingErrors(rd, ns, known) == [] <==> forall k :: 0 <= k < |ns| ==> ErrorsOf(rd, ns[k], known) == []
  {
    if ns != [] {
      SiblingErrorsByNode(rd, ns[1..], known);
      assert forall k :: 0 < k < |ns| ==> ns[k] == ns[1..][k - 1];
      if SiblingErrors(rd, ns, known) == [] {
        forall k | 0 <= k < |ns| ensures ErrorsOf(rd, ns[k], known) == [] {
          if k > 0 { assert ns[k] == ns[1..][k - 1]; }
        }
      }
    }
  }

  ghost predicate CleanAt(rd: Reader, ns: seq<Node>, r: Loc, par: bool, known: Known) {
    At(ns, r, par).Some? ==> Clean(rd, At(ns, r, par).value, KnownAt(ns, r, par, known))
  }

  ghost predicate CleanBelow(rd: Reader, n: Node, r: Loc, known: Known) {
    Below(n, r).Some? ==> Clean(rd, Below(n, r).value, KnownBelow(n, r, known))
  }

  ghost predicate AllClean(rd: Reader, ns: seq<Node>, par: bool, known: Known) {
    forall r: Loc :: CleanAt(rd, ns, r, par, known)
  }

  ghost predicate AllCleanBelow(rd: Reader, n: Node, known: Known) {
    forall r: Loc :: CleanBelow(rd, n, r, known)
  }

  /** What is known outside the `k`-th node of a list. */
  function Outside(ns: seq<Node>, k: nat, par: bool, known: Known): Known
    requires k <= |ns|
  {
    if par then known else known + Registers(ns[..k])
  }

  /** Everything in a list is clean if and only if everything below each of its nodes is. */
  lemma AllCleanByNode(rd: Reader, ns: seq<Node>, par: bool, known: Known)
    ensures AllClean(rd, ns, par, known) <==>
              forall k :: 0 <= k < |ns| ==> AllCleanBelow(rd, ns[k], Outside(ns, k, par, known))
  {
    if AllClean(rd, ns, par, known) {
      forall k | 0 <= k < |ns| ensures AllCleanBelow(rd, ns[k], Outside(ns, k, par, known)) {
        forall r: Loc ensures CleanBelow(rd, ns[k], r, Outside(ns, k, par, known)) {
          assert ([Enter(k, par)] + r)[1..] == r;
          assert CleanAt(rd, ns, [Enter(k, par)] + r, par, known);
        }
      }
    }
    if forall k :: 0 <= k < |ns| ==> AllCleanBelow(rd, ns[k], Outside(ns, k, par, known)) {
      forall r: Loc ensures CleanAt(rd, ns, r, par, known) {
        if At(ns, r, par).Some? {
          var k := if par then r[0].j else r[0].i;
          assert CleanBelow(rd, ns[k], r[1..], Outside(ns, k, par, known));
        }
      }
    }
  }

  lemma {:induction false} ErrorsExact(rd: Reader, ns: seq<Node>, known: Known)
    ensures Errors(rd, ns, known) == [] <==> AllClean(rd, ns, false, known)
    decreases ns
  {
    forall k | 0 <= k < |ns| { ErrorsOfExact(rd, ns[k], known + Registers(ns[..k])); }
    ErrorsByNode(rd, ns, known);
    AllCleanByNode(rd, ns, false, known);
  }

  lemma {:induction false} SiblingErrorsExact(rd: Reader, ns: seq<Node>, known: Known)
    ensures SiblingErrors(rd, ns, known) == [] <==> AllClean(rd, ns, true, known)
    decreases ns
  {
    forall k | 0 <= k < |ns| { ErrorsOfExact(rd, ns[k], known); }
    SiblingErrorsByNode(rd, ns, known);
    AllCleanByNode(rd, ns, true, known);
  }

  lemma {:induction false} ErrorsOfExact(rd: Reader, n: Node, known: Known)
    ensures ErrorsOf(rd, n, known) == [] <==> AllCleanBelow(rd, n, known)
    decreases n
  {
    assert CleanBelow(rd, n, [], known) <==> Clean(rd, n, known);
    match n
    case Leaf(_, action) =>
      RefErrorsEmpty(known, rd.refs(action));
      assert Clean(rd, n, known) ==> forall r: Loc :: CleanBelow(rd, n, r, known);
    case Group(_, steps) =>
      SiblingErrorsExact(rd, steps, known);
      forall r: Loc | r != [] ensures CleanBelow(rd, n, r, known) <==> CleanAt(rd, steps, r, true, known) {}
      assert forall r: Loc :: r == [] ==> CleanAt(rd, steps, r, true, known);
    case Branch(_, condition, t, e) =>
      RootErrorsEmpty(known, rd.roots(condition));
      ErrorsExact(rd, t, known);
      ErrorsExact(rd, e, known);
      BranchClean(rd, n, known);
  }

  lemma BranchClean(rd: Reader, n: Node, known: Known)
    requires n.Branch?
    ensures AllCleanBelow(rd, n, known) <==>
              Clean(rd, n, known) && AllClean(rd, n.thenNodes, false, known) && AllClean(rd, n.elseNodes, false, known)
  {
    if AllCleanBelow(rd, n, known) {
      assert CleanBelow(rd, n, [], known);
      forall r: Loc ensures CleanAt(rd, n.thenNodes, r, false, known) && CleanAt(rd, n.elseNodes, r, false, known) {
        assert ([Then] + r)[1..] == r && ([Else] + r)[1..] == r;
        assert CleanBelow(rd, n, [Then] + r, known) && CleanBelow(rd, n, [Else] + r, known);
      }
    }
    if Clean(rd, n, known) && AllClean(rd, n.thenNodes, false, known) && AllClean(rd, n.elseNodes, false, known) {
      forall r: Loc ensures CleanBelow(rd, n, r, known) {
        if r != [] && Below(n, r).Some? {
          assert CleanAt(rd, n.thenNodes, r[1..], false, known) && CleanAt(rd, n.elseNodes, r[1..], false, known);
        }
      }
    }
  }

  // ---------- Which declaration a name refers to ----------

  predicate TurnBefore(a: Turn, b: Turn) {
    || (a.Item? && b.Item? && a.i < b.i)
    || (a.Child? && b.Child? && a.j < b.j)
    || (a.Then? && b.Else?)
  }

  /** What is declared at `a` is registered before what is declared at `b`: earlier, or inside it. */
  predicate Sooner(a: Loc, b: Loc) {
    a != [] && (b == [] || TurnBefore(a[0], b[0]) || (a[0] == b[0] && Sooner(a[1..], b[1..])))
  }

  lemma {:induction false} SoonerAsymmetric(a: Loc, b: Loc)
    ensures !(Sooner(a, b) && Sooner(b, a))
    decreases |a|
  {
    if a != [] && b != [] { SoonerAsymmetric(a[1..], b[1..]); }
  }

  /** The last declaration of a name in a list or below a node. */
  ghost predicate LastDeclares(ns: seq<Node>, d: Loc, par: bool, x: string) {
    Declares(ns, d, par, x) && forall c :: Declares(ns, c, par, x) && c != d ==> Sooner(c, d)
  }

  ghost predicate LastDeclaresBelow(n: Node, d: Loc, x: string) {
    DeclaresBelow(n, d, x) && forall c :: DeclaresBelow(n, c, x) && c != d ==> Sooner(c, d)
  }

  lemma DeclaresStep(ns: seq<Node>, d: Loc, par: bool, x: string)
    requires Declares(ns, d, par, x)
    ensures d != [] && d == [d[0]] + d[1..]
    ensures var k := if par then d[0].j else d[0].i;
            d[0] == Enter(k, par) && k < |ns| && DeclaresBelow(ns[k], d[1..], x) && x in RegistersOf(ns[k])
  {
    var k := if par then d[0].j else d[0].i;
    assert DeclaresBelow(ns[k], d[1..], x);
    RegistersDeclaredOf(ns[k], x);
  }

  lemma DeclaresUp(ns: seq<Node>, k: nat, d: Loc, par: bool, x: string)
    requires k < |ns|
    ensures At(ns, [Enter(k, par)] + d, par) == Below(ns[k], d)
    ensures Declares(ns, [Enter(k, par)] + d, par, x) <==> DeclaresBelow(ns[k], d, x)
  {
    assert ([Enter(k, par)] + d)[1..] == d;
  }

  /** A registered name stands for what its last declaration is. */
  lemma {:induction false} RegistersLast(ns: seq<Node>, n: nat, par: bool, x: string) returns (d: Loc)
    requires n <= |ns| && x in Registers(ns[..n])
    ensures LastDeclares(ns[..n], d, par, x) && Registers(ns[..n])[x] == OriginOf(At(ns[..n], d, par).value)
    decreases ns, n
  {
    var k := n - 1;
    RegistersSnoc(ns, n);
    if x in RegistersOf(ns[k]) {
      var e := RegistersLastOf(ns[k], x);
      d := [Enter(k, par)] + e;
      LastInLast(ns[..n], par, x, e);
    } else {
      d := RegistersLast(ns, k, par, x);
      LastInFront(ns, n, par, x, d);
    }
  }

  lemma LastInLast(ns: seq<Node>, par: bool, x: string, e: Loc)
    requires ns != [] && LastDeclaresBelow(ns[|ns| - 1], e, x)
    ensures var d := [Enter(|ns| - 1, par)] + e;
            LastDeclares(ns, d, par, x) && At(ns, d, par) == Below(ns[|ns| - 1], e)
  {
    var k := |ns| - 1;
    var d := [Enter(k, par)] + e;
    DeclaresUp(ns, k, e, par, x);
    forall c | Declares(ns, c, par, x) && c != d ensures Sooner(c, d) {
      DeclaresStep(ns, c, par, x);
      assert d[1..] == e;
    }
  }

  lemma LastInFront(ns: seq<Node>, n: nat, par: bool, x: string, d: Loc)
    requires 0 < n <= |ns| && LastDeclares(ns[..n - 1], d, par, x) && x !in RegistersOf(ns[n - 1])
    ensures LastDeclares(ns[..n], d, par, x) && At(ns[..n], d, par) == At(ns[..n - 1], d, par)
  {
    DeclaresStep(ns[..n - 1], d, par, x);
    DeclaresFront(ns, n - 1, n, d, par, x);
    forall c | Declares(ns[..n], c, par, x) && c != d ensures Sooner(c, d) {
      DeclaresStep(ns[..n], c, par, x);
      DeclaresFront(ns, n - 1, n, c, par, x);
    }
  }

  lemma {:induction false} RegistersSnoc(ns: seq<Node>, n: nat)
    requires 0 < n <= |ns|
    ensures Registers(ns[..n]) == Registers(ns[..n - 1]) + RegistersOf(ns[n - 1])
    decreases n
  {
    if n > 1 {
      assert ns[..n][0] == ns[0] && ns[..n][1..] == ns[1..][..n - 1];
      assert ns[..n - 1][0] == ns[0] && ns[..n - 1][1..] == ns[1..][..n - 2];
      RegistersSnoc(ns[1..], n - 1);
      MapSumAssociates(RegistersOf(ns[0]), Registers(ns[1..][..n - 2]), RegistersOf(ns[n - 1]));
    } else {
      assert ns[..1][0] == ns[0] && ns[..1][1..] == [] && ns[..0] == [];
      assert RegistersOf(ns[0]) + map[] == map[] + RegistersOf(ns[0]);
    }
  }

  lemma DeclaresFront(ns: seq<Node>, k: nat, n: nat, d: Loc, par: bool, x: string)
    requires k <= n <= |ns| && d != []
    ensures var i := if d[0].Child? then d[0].j else if d[0].Item? then d[0].i else k;
            i < k ==> At(ns[..k], d, par) == At(ns[..n], d, par)
    ensures var i := if d[0].Child? then d[0].j else if d[0].Item? then d[0].i else k;
            Declares(ns[..k], d, par, x) <==> Declares(ns[..n], d, par, x) && i < k
  {}

  lemma {:induction false} RegistersLastOf(n: Node, x: string) returns (d: Loc)
    requires x in RegistersOf(n)
    ensures LastDeclaresBelow(n, d, x) && RegistersOf(n)[x] == OriginOf(Below(n, d).value)
    decreases n
  {
    if Named(n) && n.name == x {
      d := [];
    } else {
      match n
      case Group(_, steps) =>
        assert steps[..|steps|] == steps;
        d := RegistersLast(steps, |steps|, true, x);
        forall c | DeclaresBelow(n, c, x) && c != d ensures Sooner(c, d) {
          assert Declares(steps, c, true, x);
        }
      case Branch(_, _, t, e) =>
        d := RegistersLastInBranch(n, x);
    }
  }

  lemma {:induction false} RegistersLastInBranch(n: Node, x: string) returns (d: Loc)
    requires n.Branch? && x in RegistersOf(n) && !(Named(n) && n.name == x)
    ensures LastDeclaresBelow(n, d, x) && RegistersOf(n)[x] == OriginOf(Below(n, d).value)
    decreases n, 0
  {
    var t, e := n.thenNodes, n.elseNodes;
    assert t[..|t|] == t && e[..|e|] == e;
    var inElse := x in Registers(e);
    var side := if inElse then e else t;
    var turn := if inElse then Else else Then;
    var f := RegistersLast(side, |side|, false, x);
    assert side[..|side|] == side;
    d := [turn] + f;
    assert d[1..] == f && DeclaresBelow(n, d, x);
    forall c | DeclaresBelow(n, c, x) && c != d ensures Sooner(c, d) {
      assert c != [] && c == [c[0]] + c[1..];
      assert Declares(if c[0] == Then then t else e, c[1..], false, x);
      if c[0] == Else { RegistersDeclared(e, false, x); }
    }
  }

  /** The declaration a name refers to at `r`: the last visible one. */
  ghost predicate RefersTo(ns: seq<Node>, par: bool, r: Loc, x: string, d: Loc) {
    && Declares(ns, d, par, x) && Visible(d, r)
    && forall c :: Declares(ns, c, par, x) && Visible(c, r) && c != d ==> Sooner(c, d)
  }

  ghost predicate RefersToBelow(n: Node, r: Loc, x: string, d: Loc) {
    && DeclaresBelow(n, d, x) && Visible(d, r)
    && forall c :: DeclaresBelow(n, c, x) && Visible(c, r) && c != d ==> Sooner(c, d)
  }

  /** A visible declaration in a list lies in the reader's own node, or in an earlier one of a sequence. */
  lemma VisibleStep(ns: seq<Node>, par: bool, r: Loc, x: string, c: Loc)
    requires At(ns, r, par).Some? && Declares(ns, c, par, x) && Visible(c, r)
    ensures var k := if par then r[0].j else r[0].i;
            if c[0] == r[0] then DeclaresBelow(ns[k], c[1..], x) && Visible(c[1..], r[1..])
            else !par && c[0].i < k && Declares(ns[..k], c, par, x)
  {
    DeclaresStep(ns, c, par, x);
    var k := if par then r[0].j else r[0].i;
    assert r == [r[0]] + r[1..];
    if c[0] == r[0] {
      VisibleBelow(r[0], c[1..], r[1..]);
    } else {
      var p :| 0 <= p < |c| && p < |r| && PartAt(c, r, p);
      PartLater(c, r, p);
      DeclaresFront(ns, k, |ns|, c, par, x);
      assert ns[..|ns|] == ns;
    }
  }

  /** What the walk knows of a name is what the name refers to. */
  lemma {:induction false} KnownRefers(ns: seq<Node>, par: bool, r: Loc, known: Known, x: string) returns (d: Loc)
    requires At(ns, r, par).Some? && x in KnownAt(ns, r, par, known)
    ensures if InScope(ns, par, r, x)
            then RefersTo(ns, par, r, x, d) && KnownAt(ns, r, par, known)[x] == OriginOf(At(ns, d, par).value)
            else x in known && KnownAt(ns, r, par, known)[x] == known[x]
    decreases ns
  {
    var k := if par then r[0].j else r[0].i;
    var outside := if par then known else known + Registers(ns[..k]);
    KnownIsInScope(ns, par, r, known, x);
    InScopeSplit(ns, par, r, x);
    RegistersPrefix(ns, k, x);
    var inner := KnownRefersBelow(ns[k], r[1..], outside, x);
    d := [];
    if InScopeBelow(ns[k], r[1..], x) {
      d := [r[0]] + inner;
      DeclaresUp(ns, k, inner, par, x);
      VisibleBelow(r[0], inner, r[1..]);
      assert r == [r[0]] + r[1..] && d[1..] == inner;
      forall c | Declares(ns, c, par, x) && Visible(c, r) && c != d ensures Sooner(c, d) {
        VisibleStep(ns, par, r, x, c);
        DeclaresStep(ns, c, par, x);
      }
    } else if !par && x in Registers(ns[..k]) {
      d := RegistersLast(ns, k, par, x);
      EarlierRefers(ns, r, k, x, d);
    }
  }

  lemma EarlierRefers(ns: seq<Node>, r: Loc, k: nat, x: string, d: Loc)
    requires At(ns, r, false).Some? && r[0].i == k && LastDeclares(ns[..k], d, false, x)
    requires !InScopeBelow(ns[k], r[1..], x)
    ensures RefersTo(ns, false, r, x, d) && At(ns, d, false) == At(ns[..k], d, false)
  {
    DeclaresStep(ns[..k], d, false, x);
    DeclaresFront(ns, k, |ns|, d, false, x);
    assert ns[..|ns|] == ns;
    assert PartAt(d, r, 0);
    forall c | Declares(ns, c, false, x) && Visible(c, r) && c != d ensures Sooner(c, d) {
      VisibleStep(ns, false, r, x, c);
    }
  }

  lemma {:induction false} KnownRefersBelow(n: Node, r: Loc, known: Known, x: string) returns (d: Loc)
    requires Below(n, r).Some? && x in KnownBelow(n, r, known)
    ensures if InScopeBelow(n, r, x)
            then RefersToBelow(n, r, x, d) && KnownBelow(n, r, known)[x] == OriginOf(Below(n, d).value)
            else x in known && KnownBelow(n, r, known)[x] == known[x]
    decreases n
  {
    d := [];
    KnownIsInScopeBelow(n, r, known, x);
    if r != [] {
      match n
      case Group(_, steps) =>
        d := KnownRefers(steps, true, r, known, x);
        GroupRefers(n, r, x, d);
      case Branch(_, _, t, e) =>
        var side := if r[0] == Then then t else e;
        var f := KnownRefers(side, false, r[1..], known, x);
        d := [r[0]] + f;
        BranchRefers(n, r, x, f);
    }
  }

  lemma GroupRefers(n: Node, r: Loc, x: string, d: Loc)
    requires n.Group? && r != [] && Below(n, r).Some?
    ensures InScopeBelow(n, r, x) <==> InScope(n.steps, true, r, x)
    ensures RefersTo(n.steps, true, r, x, d) ==> RefersToBelow(n, r, x, d) && Below(n, d) == At(n.steps, d, true)
  {
    forall c | DeclaresBelow(n, c, x) && Visible(c, r) ensures Declares(n.steps, c, true, x) {}
    forall c | Declares(n.steps, c, true, x) ensures DeclaresBelow(n, c, x) {}
  }

  /** Inside a branch, only the branch itself is visible. */
  lemma BranchVisible(n: Node, r: Loc, x: string, c: Loc)
    requires n.Branch? && r != [] && Below(n, r).Some? && DeclaresBelow(n, c, x) && Visible(c, r)
    ensures c == [r[0]] + c[1..] && Visible(c[1..], r[1..])
    ensures Declares(if r[0] == Then then n.thenNodes else n.elseNodes, c[1..], false, x)
  {
    var p :| 0 <= p < |c| && p < |r| && PartAt(c, r, p);
    assert p > 0;
    assert c[..p][0] == r[..p][0];
    assert r == [r[0]] + r[1..];
    assert c == [r[0]] + c[1..];
    VisibleBelow(r[0], c[1..], r[1..]);
  }

  lemma BranchRefers(n: Node, r: Loc, x: string, f: Loc)
    requires n.Branch? && r != [] && Below(n, r).Some?
    ensures var side := if r[0] == Then then n.thenNodes else n.elseNodes;
            && (InScopeBelow(n, r, x) <==> InScope(side, false, r[1..], x))
            && (RefersTo(side, false, r[1..], x, f) ==>
                  RefersToBelow(n, r, x, [r[0]] + f) && Below(n, [r[0]] + f) == At(side, f, false))
  {
    var side := if r[0] == Then then n.thenNodes else n.elseNodes;
    assert r == [r[0]] + r[1..];
    forall c | Declares(side, c, false, x) && Visible(c, r[1..])
      ensures DeclaresBelow(n, [r[0]] + c, x) && Visible([r[0]] + c, r)
    {
      assert ([r[0]] + c)[1..] == c;
      VisibleBelow(r[0], c, r[1..]);
    }
    forall c | DeclaresBelow(n, c, x) && Visible(c, r)
      ensures c == [r[0]] + c[1..] && Declares(side, c[1..], false, x) && Visible(c[1..], r[1..])
    {
      BranchVisible(n, r, x, c);
    }
    if RefersTo(side, false, r[1..], x, f) {
      var d := [r[0]] + f;
      assert d[1..] == f;
      forall c | DeclaresBelow(n, c, x) && Visible(c, r) && c != d ensures Sooner(c, d) {
        assert c[1..] != f;
      }
    }
  }

  // ---------- The theorem ----------

  /** A root that may be read at `r`: a context key, or a name declared at a visible location. */
  ghost predicate Readable(ns: seq<Node>, context: Known, r: Loc, root: string) {
    root in context || InScope(ns, false, r, root)
  }

  /** The name refers to a raw result object at `r`. */
  ghost predicate RawAt(ns: seq<Node>, context: Known, r: Loc, x: string) {
    if InScope(ns, false, r, x) then exists d :: RefersTo(ns, false, r, x, d) && Raw(OriginOf(At(ns, d, false).value))
    else x in context && Raw(context[x])
  }

  /** Every reference of the node at `r` is well formed and readable, and a bare one is no raw result object. */
  ghost predicate Resolved(rd: Reader, ns: seq<Node>, context: Known, r: Loc) {
    At(ns, r, false).Some? ==>
      match At(ns, r, false).value
      case Leaf(_, action) =>
        forall i :: 0 <= i < |rd.refs(action)| ==> ResolvedRef(ns, context, r, rd.refs(action)[i])
      case Group(_, _) => true
      case Branch(_, condition, _, _) =>
        && rd.evaluable(condition)
        && forall i :: 0 <= i < |rd.roots(condition)| ==> Readable(ns, context, r, rd.roots(condition)[i])
  }

  ghost predicate ResolvedRef(ns: seq<Node>, context: Known, r: Loc, ref: Ref) {
    ref.Ref? && Readable(ns, context, r, ref.root) && (RawAt(ns, context, r, ref.root) ==> ref.field)
  }

  lemma KnownIsRaw(ns: seq<Node>, context: Known, r: Loc, x: string)
    requires At(ns, r, false).Some? && x in KnownAt(ns, r, false, context)
    ensures Raw(KnownAt(ns, r, false, context)[x]) <==> RawAt(ns, context, r, x)
  {
    var d := KnownRefers(ns, false, r, context, x);
    if InScope(ns, false, r, x) && RawAt(ns, context, r, x) {
      var c :| RefersTo(ns, false, r, x, c) && Raw(OriginOf(At(ns, c, false).value));
      SoonerAsymmetric(c, d);
    }
  }

  lemma CleanIsResolved(rd: Reader, ns: seq<Node>, context: Known, r: Loc)
    ensures CleanAt(rd, ns, r, false, context) <==> Resolved(rd, ns, context, r)
  {
    if At(ns, r, false).Some? {
      var known := KnownAt(ns, r, false, context);
      forall x: string
        ensures x in known <==> Readable(ns, context, r, x)
        ensures x in known ==> (Raw(known[x]) <==> RawAt(ns, context, r, x))
      {
        KnownIsInScope(ns, false, r, context, x);
        if x in known { KnownIsRaw(ns, context, r, x); }
      }
      assert forall ref: Ref :: Accepted(known, ref) <==> ResolvedRef(ns, context, r, ref);
    }
  }

  /**
   * The checker accepts a document if and only if every condition can be evaluated and every
   * reference resolves: it is well formed, names a context key or something declared earlier and
   * neither in a parallel sibling nor in the opposite branch, and is not, taken bare, the raw
   * result object that the last such declaration stands for.
   */
  lemma ScopeExactly(rd: Reader, ns: seq<Node>, context: Known)
    ensures Errors(rd, ns, context) == [] <==> forall r: Loc :: Resolved(rd, ns, context, r)
  {
    ErrorsExact(rd, ns, context);
    forall r: Loc ensures CleanAt(rd, ns, r, false, context) <==> Resolved(rd, ns, context, r) {
      CleanIsResolved(rd, ns, context, r);
    }
  }
}
