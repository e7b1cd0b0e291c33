/** What a budget guarantees about one run, whatever faults and results it meets. */
module BudgetBounds {
  import opened Values
  import opened Blocks
  import opened Engine

  datatype Bill = Bill(cost: real, tokens: int)

  /** The recorded cost and tokens of the named steps. */
  function Spent(results: map<string, StepResult>, names: seq<string>): Bill {
    if names == [] then Bill(0.0, 0)
    else
      var rest := Spent(results, names[..|names| - 1]);
      var n := names[|names| - 1];
      if n in results then Bill(rest.cost + results[n].cost, rest.tokens + results[n].tokens) else rest
  }

  predicate UnderLimits(e: Env, bill: Bill) {
    e.budget.Some? ==>
      && (e.budget.value.maxCost.Some? ==> bill.cost < e.budget.value.maxCost.value)
      && (e.budget.value.maxTokens.Some? ==> bill.tokens < e.budget.value.maxTokens.value)
  }

  predicate StepLimited(e: Env, from: nat, to: nat) {
    e.budget.Some? && e.budget.value.maxSteps.Some? ==> to <= from || to <= e.budget.value.maxSteps.value
  }

  /** The results of the steps executed before `m` are untouched in `r`. */
  predicate ResultsKept(m: Run, r: Run) {
    forall n :: n in m.executed ==>
      (n in m.results <==> n in r.results) && (n in m.results ==> r.results[n] == m.results[n])
  }

  /** The totals after the first `k` steps that `r` executed on top of `m`. */
  function BillAfter(m: Run, r: Run, k: nat): Bill
    requires |m.executed| + k <= |r.executed|
  {
    var spent := Spent(r.results, r.executed[|m.executed|..][..k]);
    Bill(m.cost + spent.cost, m.tokens + spent.tokens)
  }

  /**
   * From `m` to `r` in one run: the totals grew by what the new steps recorded (a callback that
   * raised leaves the last one out), and were under both limits before each new step.
   */
  ghost predicate Metered(e: Env, m: Run, r: Run) {
    && m.executed <= r.executed
    && ResultsKept(m, r)
    && StepLimited(e, |m.executed|, |r.executed|)
    && (r.stop == CallbackRaised ==> |m.executed| < |r.executed|)
    && Bill(r.cost, r.tokens) ==
         BillAfter(m, r, |r.executed| - |m.executed| - if r.stop == CallbackRaised then 1 else 0)
    && forall k :: 0 <= k < |r.executed| - |m.executed| ==> UnderLimits(e, BillAfter(m, r, k))
  }

  lemma {:induction false} SpentSum(results: map<string, StepResult>, s: seq<string>, t: seq<string>)
    ensures Spent(results, s + t) ==
            Bill(Spent(results, s).cost + Spent(results, t).cost, Spent(results, s).tokens + Spent(results, t).tokens)
  {
    if t == [] {
      assert s + t == s;
    } else {
      assert (s + t)[..|s + t| - 1] == s + t[..|t| - 1];
      SpentSum(results, s, t[..|t| - 1]);
    }
  }

  lemma {:induction false} SpentLocal(a: map<string, StepResult>, b: map<string, StepResult>, s: seq<string>)
    requires forall n :: n in s ==> (n in a <==> n in b) && (n in a ==> a[n] == b[n])
    ensures Spent(a, s) == Spent(b, s)
  {
    if s != [] { SpentLocal(a, b, s[..|s| - 1]); }
  }

  lemma BillFirstPart(m: Run, mid: Run, r: Run, k: nat)
    requires m.executed <= mid.executed <= r.executed && ResultsKept(mid, r) && |m.executed| + k <= |mid.executed|
    ensures BillAfter(m, r, k) == BillAfter(m, mid, k)
  {
    var names := mid.executed[|m.executed|..][..k];
    assert r.executed[|m.executed|..][..k] == names;
    forall n | n in names ensures n in mid.executed {
      var i :| 0 <= i < |names| && names[i] == n;
      assert mid.executed[|m.executed| + i] == n;
    }
    SpentLocal(r.results, mid.results, names);
  }

  lemma BillSecondPart(m: Run, mid: Run, r: Run, k: nat)
    requires m.executed <= mid.executed <= r.executed && ResultsKept(mid, r) && |mid.executed| + k <= |r.executed|
    requires Bill(mid.cost, mid.tokens) == BillAfter(m, mid, |mid.executed| - |m.executed|)
    ensures BillAfter(m, r, |mid.executed| - |m.executed| + k) == BillAfter(mid, r, k)
  {
    var first := |mid.executed| - |m.executed|;
    var names, more := r.executed[|m.executed|..][..first], r.executed[|mid.executed|..][..k];
    BillFirstPart(m, mid, r, first);
    assert r.executed[|m.executed|..][..first + k] == names + more;
    SpentSum(r.results, names, more);
  }

  lemma MeteredJoin(e: Env, m: Run, mid: Run, r: Run)
    requires Metered(e, m, mid) && Metered(e, mid, r) && mid.stop == Going
    ensures Metered(e, m, r)
  {
    var first := |mid.executed| - |m.executed|;
    assert ResultsKept(m, r) by { assert forall n :: n in m.executed ==> n in mid.executed; }
    BillSecondPart(m, mid, r, |r.executed| - |mid.executed| - if r.stop == CallbackRaised then 1 else 0);
    forall k | 0 <= k < |r.executed| - |m.executed| ensures UnderLimits(e, BillAfter(m, r, k)) {
      if k < first { BillFirstPart(m, mid, r, k); } else { BillSecondPart(m, mid, r, k - first); }
    }
  }

  /** The two runs look the same to the budget and to the next step. */
  predicate SameAccount(m: Run, r: Run) {
    m.executed == r.executed && m.results == r.results && m.ctx == r.ctx && m.cost == r.cost && m.tokens == r.tokens
  }

  lemma RememberSame(e: Env, m: Run)
    ensures SameAccount(m, Remember(e, m)) && Remember(e, m).stop == m.stop
    ensures SameAccount(m, Save(e, m))
  {}

  /** One step recorded and, unless its callback raised, billed. */
  predicate Billed(b: Block, x: StepResult, m: Run, r: Run)
    requires b.Step?
  {
    && r.executed == m.executed + [b.name] && r.results == m.results[b.name := x]
    && (if r.stop == CallbackRaised then r.cost == m.cost && r.tokens == m.tokens
        else r.cost == m.cost + x.cost && r.tokens == m.tokens + x.tokens)
  }

  lemma ExecuteEffect(e: Env, b: Block, m: Run)
    requires b.Step? && m.stop == Going
    ensures var r := ExecuteStep(e, b, m);
            (SameAccount(m, r) && r.stop == StepRaised) || Billed(b, e.world.result(b, m.ctx), m, r)
  {
    var m1 := if CheckpointBefore(e.protection) then Remember(e, m) else m;
    RememberSame(e, m);
    RememberSame(e, m1);
    assert SameAccount(m, m1) && m1.stop == Going;
    var x := e.world.result(b, m.ctx);
    var m2 := Apply(b.name, x, m1);
    var m3 := m2.(cost := m2.cost + x.cost, tokens := m2.tokens + x.tokens);
    RememberSame(e, m2);
    RememberSame(e, m3);
  }

  /** What one step does to the parts a budget looks at. */
  lemma StepEffect(e: Env, b: Block, m: Run)
    requires b.Step? && m.stop == Going
    ensures var r := RunStep(e, b, m);
            || (SameAccount(m, r) && r.stop != CallbackRaised)
            || (&& b.name !in m.executed && Billed(b, e.world.result(b, m.ctx), m, r)
                && LimitHit(e, e.fault(b.name).HeartbeatLost?, |m.executed|, m.cost, m.tokens) == Going)
  {
    RememberSame(e, m);
    ExecuteEffect(e, b, m);
  }

  lemma StepMetered(e: Env, b: Block, m: Run)
    requires b.Step? && m.stop == Going
    ensures Metered(e, m, RunStep(e, b, m))
  {
    var r := RunStep(e, b, m);
    StepEffect(e, b, m);
    var added := r.executed[|m.executed|..];
    assert added[..0] == [];
    assert BillAfter(m, r, 0) == Bill(m.cost, m.tokens);
    if r.executed != m.executed {
      assert added == [b.name] && added[..1] == [b.name] && [b.name][..0] == [];
      assert Spent(r.results, []) == Bill(0.0, 0);
    }
  }

  lemma MeteredSelf(e: Env, m: Run)
    requires m.stop == Going
    ensures Metered(e, m, m)
  {
    assert m.executed[|m.executed|..] == [];
  }

  /**
   * One run stays within its budget: executed steps never exceed the larger of max_steps and the
   * count it started from, the totals are the sums over its own steps, and before every step it
   * executed they were strictly below max_cost and max_tokens.
   */
  lemma {:induction false} RunMetered(e: Env, bs: seq<Block>, m: Run)
    requires m.stop == Going
    ensures Metered(e, m, RunAll(e, bs, m))
    ensures bs != [] ==> Metered(e, m, RunOne(e, bs[0], m))
  {
    MeteredSelf(e, m);
    if bs != [] {
      match bs[0] {
        case Step(_, _, _) => StepMetered(e, bs[0], m);
        case Parallel(steps) => RunMetered(e, steps, m);
        case Conditional(_, _, t, f) => RunMetered(e, t, m); RunMetered(e, f, m);
      }
      var mid := RunOne(e, bs[0], m);
      if mid.stop == Going {
        RunMetered(e, bs[1..], mid);
        MeteredJoin(e, m, mid, RunAll(e, bs[1..], mid));
      } else {
        StoppedStays(e, bs[1..], mid);
      }
    }
  }

  /** A run stopped by the budget had really used it up. */
  lemma {:induction false} StopIsJustified(e: Env, bs: seq<Block>, m: Run)
    requires m.stop == Going
    ensures Justified(e, RunAll(e, bs, m))
    ensures bs != [] ==> Justified(e, RunOne(e, bs[0], m))
  {
    if bs != [] {
      match bs[0] {
        case Step(_, _, _) =>
        case Parallel(steps) => StopIsJustified(e, steps, m);
        case Conditional(_, _, t, f) => StopIsJustified(e, t, m); StopIsJustified(e, f, m);
      }
      var mid := RunOne(e, bs[0], m);
      if mid.stop == Going {
        StopIsJustified(e, bs[1..], mid);
      } else {
        StoppedStays(e, bs[1..], mid);
      }
    }
  }

  predicate Justified(e: Env, r: Run) {
    match r.stop
    case StepsExceeded => e.budget.Some? && e.budget.value.maxSteps.Some?
        && |r.executed| >= e.budget.value.maxSteps.value
    case CostExceeded => e.budget.Some? && e.budget.value.maxCost.Some? && r.cost >= e.budget.value.maxCost.value
    case TokensExceeded => e.budget.Some? && e.budget.value.maxTokens.Some?
        && r.tokens >= e.budget.value.maxTokens.value
    case HeartbeatTimeout => Protected(e.protection)
    case _ => true
  }
}
