/**
 * Runs that share memory. A run resumed from a checkpoint object works on that object's own context
 * dictionary (src/loopmaster/core/state.py, `init_run_state`), and a fresh run on the caller's. A
 * checkpoint reloaded from disk is a new object. This module says when runs that share dictionaries
 * are the independent sessions of `Resume`, and what happens otherwise.
 */
module Sharing {
  import opened Values
  import opened Blocks
  import opened Engine
  import opened Resume
  import opened Literals

  /** Where a launch starts: the initial dictionary, a stored copy, or the `k`-th checkpoint object. */
  datatype Source = FromStart | FromStored(k: nat) | FromObject(k: nat)

  datatype Launch = Launch(env: Env, source: Source)

  /** The caller's initial dictionary, the checkpoint objects made so far, and their stored copies. */
  datatype Memory = Memory(initial: Ctx, objects: seq<Checkpoint>, stored: seq<Checkpoint>)

  predicate Exists(mem: Memory, s: Source) {
    match s
    case FromStart => true
    case FromStored(k) => k < |mem.stored|
    case FromObject(k) => k < |mem.objects|
  }

  function StartingPoint(mem: Memory, s: Source): Run
    requires Exists(mem, s)
  {
    match s
    case FromStart => Start(mem.initial)
    case FromStored(k) => Restore(mem.stored[k])
    case FromObject(k) => Restore(mem.objects[k])
  }

  /** The dictionary of the source ends with the run's context, as `RunLoop` says; checkpoints are new objects. */
  function Left(mem: Memory, s: Source, r: Run): Memory
    requires Exists(mem, s)
  {
    var objects := if s.FromObject? then mem.objects[s.k := mem.objects[s.k].(context := r.ctx)] else mem.objects;
    Memory(if s.FromStart? && mem.initial != map[] then r.ctx else mem.initial, objects + r.saved, mem.stored + r.saved)
  }

  /** The memory after all launches; a launch from something that does not exist is not made. */
  function After(bs: seq<Block>, initial: Ctx, ls: seq<Launch>): Memory {
    if ls == [] then Memory(initial, [], [])
    else
      var before, last := After(bs, initial, ls[..|ls| - 1]), ls[|ls| - 1];
      if Exists(before, last.source) then
        Left(before, last.source, RunAll(last.env, bs, StartingPoint(before, last.source)))
      else before
  }

  /**
   * What one launch leaves: the object it started from keeps its names and holds the final context,
   * a non-empty initial dictionary likewise, and every checkpoint is a new object with a copy.
   */
  lemma LaunchLeaves(bs: seq<Block>, initial: Ctx, ls: seq<Launch>, l: Launch)
    requires Exists(After(bs, initial, ls), l.source)
    ensures var before, after := After(bs, initial, ls), After(bs, initial, ls + [l]);
            var start := if l.source.FromStart? then Start(before.initial)
                         else if l.source.FromStored? then Restore(before.stored[l.source.k])
                         else Restore(before.objects[l.source.k]);
            var end := RunAll(l.env, bs, start);
            && |after.objects| == |before.objects| + |end.saved| && after.objects[|before.objects|..] == end.saved
            && after.stored == before.stored + end.saved
            && (forall k: nat :: k < |before.objects| && l.source != FromObject(k) ==>
                  after.objects[k] == before.objects[k])
            && (l.source.FromObject? ==>
                  after.objects[l.source.k] == before.objects[l.source.k].(context := end.ctx))
            && (l.source.FromStart? && before.initial != map[] ==> after.initial == end.ctx)
            && (!l.source.FromStart? || before.initial == map[] ==> after.initial == before.initial)
  {
    assert (ls + [l])[..|ls + [l]| - 1] == ls;
  }

  predicate Possible(bs: seq<Block>, initial: Ctx, ls: seq<Launch>) {
    forall i :: 0 <= i < |ls| ==> Exists(After(bs, initial, ls[..i]), ls[i].source)
  }

  function StartOf(bs: seq<Block>, initial: Ctx, ls: seq<Launch>, i: nat): Run
    requires i < |ls| && Exists(After(bs, initial, ls[..i]), ls[i].source)
  {
    StartingPoint(After(bs, initial, ls[..i]), ls[i].source)
  }

  function EndOf(bs: seq<Block>, initial: Ctx, ls: seq<Launch>, i: nat): Run
    requires i < |ls| && Exists(After(bs, initial, ls[..i]), ls[i].source)
  {
    RunAll(ls[i].env, bs, StartOf(bs, initial, ls, i))
  }

  /** The launch executed a step. */
  predicate Moved(bs: seq<Block>, initial: Ctx, ls: seq<Launch>, i: nat)
    requires i < |ls| && Exists(After(bs, initial, ls[..i]), ls[i].source)
  {
    |EndOf(bs, initial, ls, i).executed| != |StartOf(bs, initial, ls, i).executed|
  }

  /**
   * What a caller can check before every launch: it starts from a reloaded checkpoint, or from an
   * object or a dictionary from which no earlier launch executed a step.
   */
  predicate Guarded(bs: seq<Block>, initial: Ctx, ls: seq<Launch>)
    requires Possible(bs, initial, ls)
  {
    forall j, i :: 0 <= j < i < |ls| && ls[i].source == ls[j].source && !ls[i].source.FromStored? ==>
      !Moved(bs, initial, ls, j) || (ls[i].source.FromStart? && initial == map[])
  }

  lemma PrefixPossible(bs: seq<Block>, initial: Ctx, ls: seq<Launch>, n: nat)
    requires n <= |ls| && Possible(bs, initial, ls)
    ensures Possible(bs, initial, ls[..n])
    ensures forall i :: 0 <= i < n ==> ls[..n][..i] == ls[..i]
    ensures Guarded(bs, initial, ls) ==> Guarded(bs, initial, ls[..n])
  {
    forall i | 0 <= i < n
      ensures ls[..n][..i] == ls[..i] && Exists(After(bs, initial, ls[..n][..i]), ls[..n][i].source)
    {
      assert ls[..n][..i] == ls[..i];
    }
    if Guarded(bs, initial, ls) {
      forall j, i | 0 <= j < i < n && ls[..n][i].source == ls[..n][j].source && !ls[..n][i].source.FromStored?
        ensures !Moved(bs, initial, ls[..n], j) || (ls[..n][i].source.FromStart? && initial == map[])
      {
        assert ls[i].source == ls[j].source;
        assert Moved(bs, initial, ls[..n], j) == Moved(bs, initial, ls, j);
      }
    }
  }

  /** A run that executes nothing leaves its context alone. */
  lemma UnmovedContext(e: Env, bs: seq<Block>, m: Run)
    requires m.stop == Going && |RunAll(e, bs, m).executed| == |m.executed|
    ensures RunAll(e, bs, m).ctx == m.ctx
  {
    var r := RunAll(e, bs, m);
    RunIsWalk(e, bs, m);
    WalkExtends(e.world, bs, Walk(CoreOf(m), false), |r.executed|);
    assert |CoreOf(r).executed| == |CoreOf(m).executed|;
  }

  /** The sources from which no launch so far executed a step. */
  ghost predicate Untouched(bs: seq<Block>, initial: Ctx, ls: seq<Launch>, s: Source)
    requires Possible(bs, initial, ls)
  {
    forall j :: 0 <= j < |ls| && ls[j].source == s ==> !Moved(bs, initial, ls, j)
  }

  /** What the last launch leaves untouched was untouched before. */
  lemma UntouchedBefore(bs: seq<Block>, initial: Ctx, ls: seq<Launch>, s: Source)
    requires Possible(bs, initial, ls) && ls != [] && Untouched(bs, initial, ls, s)
    ensures Possible(bs, initial, ls[..|ls| - 1]) && Untouched(bs, initial, ls[..|ls| - 1], s)
    ensures ls[|ls| - 1].source == s ==> !Moved(bs, initial, ls, |ls| - 1)
  {
    var n := |ls| - 1;
    PrefixPossible(bs, initial, ls, n);
    forall j | 0 <= j < n && ls[..n][j].source == s ensures !Moved(bs, initial, ls[..n], j) {
      assert Moved(bs, initial, ls[..n], j) == Moved(bs, initial, ls, j);
    }
  }

  /** A launch that executes nothing leaves its source as it found it. */
  lemma UnmovedMemory(e: Env, bs: seq<Block>, mem: Memory, s: Source)
    requires Exists(mem, s) && |RunAll(e, bs, StartingPoint(mem, s)).executed| == |StartingPoint(mem, s).executed|
    ensures var after := Left(mem, s, RunAll(e, bs, StartingPoint(mem, s)));
            after.initial == mem.initial && forall k :: 0 <= k < |mem.objects| ==> after.objects[k] == mem.objects[k]
  {
    UnmovedContext(e, bs, StartingPoint(mem, s));
  }

  /** Objects and copies pair up, and what is untouched holds what it held when it was made. */
  lemma {:induction false} UntouchedIntact(bs: seq<Block>, initial: Ctx, ls: seq<Launch>)
    requires Possible(bs, initial, ls)
    ensures var mem := After(bs, initial, ls);
            && |mem.objects| == |mem.stored|
            && (Untouched(bs, initial, ls, FromStart) || initial == map[] ==> mem.initial == initial)
            && forall k: nat :: k < |mem.objects| && Untouched(bs, initial, ls, FromObject(k)) ==>
               mem.objects[k] == mem.stored[k]
    decreases |ls|
  {
    if ls != [] {
      var n := |ls| - 1;
      PrefixPossible(bs, initial, ls, n);
      UntouchedIntact(bs, initial, ls[..n]);
      if Untouched(bs, initial, ls, FromStart) || initial == map[] {
        if Untouched(bs, initial, ls, FromStart) { UntouchedBefore(bs, initial, ls, FromStart); }
        InitialKept(bs, initial, ls);
      }
      forall k: nat | k < |After(bs, initial, ls).objects| && Untouched(bs, initial, ls, FromObject(k))
        ensures After(bs, initial, ls).objects[k] == After(bs, initial, ls).stored[k]
      {
        UntouchedBefore(bs, initial, ls, FromObject(k));
        ObjectKept(bs, initial, ls, k);
      }
    }
  }

  /** What one more launch makes of the initial dictionary. */
  lemma InitialKept(bs: seq<Block>, initial: Ctx, ls: seq<Launch>)
    requires Possible(bs, initial, ls) && ls != []
    requires ls[|ls| - 1].source.FromStart? ==>
               !Moved(bs, initial, ls, |ls| - 1) || After(bs, initial, ls[..|ls| - 1]).initial == map[]
    ensures After(bs, initial, ls).initial == After(bs, initial, ls[..|ls| - 1]).initial
  {
    var before, last := After(bs, initial, ls[..|ls| - 1]), ls[|ls| - 1];
    if !Moved(bs, initial, ls, |ls| - 1) { UnmovedMemory(last.env, bs, before, last.source); }
  }

  /** One more launch keeps every object it does not start from, or from which it executes nothing. */
  lemma ObjectKept(bs: seq<Block>, initial: Ctx, ls: seq<Launch>, k: nat)
    requires Possible(bs, initial, ls) && ls != [] && k < |After(bs, initial, ls).objects|
    requires var before := After(bs, initial, ls[..|ls| - 1]);
             |before.objects| == |before.stored| && (k < |before.objects| ==> before.objects[k] == before.stored[k])
    requires ls[|ls| - 1].source == FromObject(k) ==> !Moved(bs, initial, ls, |ls| - 1)
    ensures |After(bs, initial, ls).stored| == |After(bs, initial, ls).objects|
    ensures After(bs, initial, ls).objects[k] == After(bs, initial, ls).stored[k]
  {
    var before, last := After(bs, initial, ls[..|ls| - 1]), ls[|ls| - 1];
    if last.source == FromObject(k) { UnmovedMemory(last.env, bs, before, last.source); }
  }

  /** A stored copy was saved by some launch. */
  lemma {:induction false} StoredWasSaved(bs: seq<Block>, initial: Ctx, ls: seq<Launch>, k: nat) returns (j: nat)
    requires Possible(bs, initial, ls) && k < |After(bs, initial, ls).stored|
    ensures j < |ls| && After(bs, initial, ls).stored[k] in EndOf(bs, initial, ls, j).saved
    decreases |ls|
  {
    var n := |ls| - 1;
    PrefixPossible(bs, initial, ls, n);
    var before := After(bs, initial, ls[..n]);
    if k < |before.stored| {
      j := StoredWasSaved(bs, initial, ls[..n], k);
      assert EndOf(bs, initial, ls[..n], j) == EndOf(bs, initial, ls, j);
    } else {
      j := n;
      assert After(bs, initial, ls).stored[k] == EndOf(bs, initial, ls, n).saved[k - |before.stored|];
    }
  }

  /** The independent session a launch amounts to. */
  function SessionOf(bs: seq<Block>, initial: Ctx, ls: seq<Launch>, i: nat): Session
    requires i < |ls| && Possible(bs, initial, ls)
  {
    var stored := After(bs, initial, ls[..i]).stored;
    var s := ls[i].source;
    Session(ls[i].env, if s.FromStart? || s.k >= |stored| then None else Some(stored[s.k]))
  }

  function Sessions(bs: seq<Block>, initial: Ctx, ls: seq<Launch>): seq<Session>
    requires Possible(bs, initial, ls)
  {
    seq(|ls|, i requires 0 <= i < |ls| => SessionOf(bs, initial, ls, i))
  }

  /** A guarded launch starts where its session does. */
  lemma GuardedStart(bs: seq<Block>, initial: Ctx, ls: seq<Launch>, i: nat)
    requires Possible(bs, initial, ls) && Guarded(bs, initial, ls) && i < |ls|
    ensures EndOf(bs, initial, ls, i) == Outcome(bs, initial, SessionOf(bs, initial, ls, i))
    ensures ls[i].source.FromStart? <==> SessionOf(bs, initial, ls, i).from.None?
  {
    var s := ls[i].source;
    PrefixPossible(bs, initial, ls, i);
    UntouchedIntact(bs, initial, ls[..i]);
    if !s.FromStored? && !(s.FromStart? && initial == map[]) {
      forall j | 0 <= j < i && ls[..i][j].source == s ensures !Moved(bs, initial, ls[..i], j) {
        assert ls[j].source == ls[i].source;
        assert Moved(bs, initial, ls[..i], j) == Moved(bs, initial, ls, j);
      }
      assert Untouched(bs, initial, ls[..i], s);
    }
  }

  /** Guarded launches are a history of independent sessions. */
  lemma GuardedIsHistory(bs: seq<Block>, initial: Ctx, ls: seq<Launch>)
    requires Possible(bs, initial, ls) && Guarded(bs, initial, ls)
    ensures History(bs, initial, Sessions(bs, initial, ls))
    ensures forall i :: 0 <= i < |ls| ==>
              EndOf(bs, initial, ls, i) == Outcome(bs, initial, Sessions(bs, initial, ls)[i])
  {
    var ss := Sessions(bs, initial, ls);
    forall i | 0 <= i < |ls| ensures EndOf(bs, initial, ls, i) == Outcome(bs, initial, ss[i]) {
      GuardedStart(bs, initial, ls, i);
    }
    forall i | 0 <= i < |ss| && ss[i].from.Some?
      ensures exists j :: 0 <= j < i && ss[i].from.value in Outcome(bs, initial, ss[j]).saved
    {
      GuardedStart(bs, initial, ls, i);
      PrefixPossible(bs, initial, ls, i);
      var j := StoredWasSaved(bs, initial, ls[..i], ls[i].source.k);
      assert EndOf(bs, initial, ls[..i], j) == EndOf(bs, initial, ls, j);
    }
  }

  /**
   * Crash/resume equivalence for runs that share memory: guarded launches, however many and from
   * wherever, end as one uninterrupted run does, and so does calmly reloading any checkpoint.
   */
  lemma SharedResumeEquivalence(loop: LoopId, w: World, bs: seq<Block>, initial: Ctx, ls: seq<Launch>, i: nat)
    requires WellNamed(bs) && Resumable(Prune(bs), false)
    requires Possible(bs, initial, ls) && Guarded(bs, initial, ls) && i < |ls|
    requires forall l :: l in ls ==> l.env.world == w
    ensures var uninterrupted := CoreOf(RunAll(Calm(loop, w), bs, Start(initial)));
            var r := EndOf(bs, initial, ls, i);
            && (r.stop == Going ==> CoreOf(r) == uninterrupted)
            && forall c :: c in r.saved ==> CoreOf(RunAll(Calm(loop, w), bs, Restore(c))) == uninterrupted
  {
    var ss := Sessions(bs, initial, ls);
    GuardedIsHistory(bs, initial, ls);
    forall s | s in ss ensures s.env.world == w {
      var k :| 0 <= k < |ss| && ss[k] == s;
      assert ls[k] in ls;
    }
    PrunedResumeEquivalence(loop, w, bs, initial, ss, i);
  }
}
