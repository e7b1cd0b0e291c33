/**
 * Checkpoint migration (src/loopmaster/checkpoint/migration.py): the registry of migration
 * functions, the breadth-first search for a path between two versions, and the application of
 * that path to a checkpoint.
 */
module Migration {
  import opened Values
  import opened Engine
  import opened Strings
  import opened Versions

  // ---------- Migration functions and the version graph ----------

  /** How a migration function comes back. */
  datatype Comeback = Raised | ReturnedArgument | ReturnedOther(other: Checkpoint) | ReturnedNoCheckpoint

  /** What a migration function does: it may change the object it is given, and then come back. */
  datatype Effect = Effect(argument: Checkpoint, comeback: Comeback)

  type MigrationFn = Checkpoint -> Effect

  datatype Edge = Edge(to: string, fn: MigrationFn)

  /** The registered steps of one loop, in registration order for each source version. */
  type Graph = map<string, seq<Edge>>

  datatype Hop = Hop(src: string, dst: string, fn: MigrationFn)

  ghost predicate Registered(g: Graph, h: Hop) {
    h.src in g && Edge(h.dst, h.fn) in g[h.src]
  }

  /** A contiguous chain of registered steps between two versions. */
  ghost predicate Chain(g: Graph, path: seq<Hop>, src: string, dst: string) {
    if path == [] then src == dst
    else
      var last := path[|path| - 1];
      last.dst == dst && Registered(g, last) && Chain(g, path[..|path| - 1], src, last.src)
  }

  ghost predicate Reachable(g: Graph, src: string, dst: string) {
    exists path :: Chain(g, path, src, dst)
  }

  function Targets(es: seq<Edge>): set<string> {
    set i | 0 <= i < |es| :: es[i].to
  }

  ghost function Nodes(g: Graph): set<string> {
    set v, t | v in g && t in Targets(g[v]) :: t
  }

  predicate DistinctTargets(es: seq<Edge>) {
    forall i, j :: 0 <= i < j < |es| ==> es[i].to != es[j].to
  }

  /** Insert or replace, keeping the position of a target that is there already. */
  function WithEdge(es: seq<Edge>, to: string, fn: MigrationFn): seq<Edge> {
    if es == [] then [Edge(to, fn)]
    else if es[0].to == to then [Edge(to, fn)] + es[1..]
    else [es[0]] + WithEdge(es[1..], to, fn)
  }

  /** Afterwards the target has exactly the new function, and every other target what it had. */
  lemma {:induction false} WithEdgeReplaces(es: seq<Edge>, to: string, fn: MigrationFn)
    requires DistinctTargets(es)
    ensures DistinctTargets(WithEdge(es, to, fn))
    ensures forall e :: e in WithEdge(es, to, fn) <==> e == Edge(to, fn) || (e in es && e.to != to)
  {
    if es != [] && es[0].to != to {
      var rest := WithEdge(es[1..], to, fn);
      WithEdgeReplaces(es[1..], to, fn);
      forall i | 0 <= i < |rest| ensures rest[i].to != es[0].to {
        assert rest[i] in rest;
      }
    }
  }

  /** A known target keeps its place, a new one comes last. */
  lemma {:induction false} WithEdgeOrder(es: seq<Edge>, to: string, fn: MigrationFn)
    ensures to in Targets(es) ==>
              |WithEdge(es, to, fn)| == |es| && forall i :: 0 <= i < |es| ==> WithEdge(es, to, fn)[i].to == es[i].to
    ensures to !in Targets(es) ==> WithEdge(es, to, fn) == es + [Edge(to, fn)]
    decreases |es|
  {
    if es != [] {
      TargetsSplit(es);
      WithEdgeOrder(es[1..], to, fn);
      assert es == [es[0]] + es[1..];
    }
  }

  ghost predicate ValidGraph(g: Graph) {
    forall v :: v in g ==> DistinctTargets(g[v])
  }

  /** `g2` is `g` with one more step, which replaces the one between the same versions. */
  ghost predicate Adds(g: Graph, g2: Graph, added: Hop) {
    forall h: Hop :: Registered(g2, h) <==>
      h == added || (Registered(g, h) && !(h.src == added.src && h.dst == added.dst))
  }

  lemma GraphWithEdge(g: Graph, src: string, dst: string, fn: MigrationFn)
    requires ValidGraph(g)
    ensures var g2 := g[src := WithEdge(if src in g then g[src] else [], dst, fn)];
            ValidGraph(g2) && Adds(g, g2, Hop(src, dst, fn))
  {
    WithEdgeReplaces(if src in g then g[src] else [], dst, fn);
  }

  // ---------- Breadth-first search ----------

  /** A queued version with the path that led to it. */
  datatype Entry = Entry(version: string, path: seq<Hop>)

  /** Every queued path leads from `src` to its version; lengths are sorted and between `d` and `d + 1`. */
  ghost predicate QueueOk(g: Graph, src: string, queue: seq<Entry>, dist: map<string, nat>, d: nat) {
    && (forall i :: 0 <= i < |queue| ==> EntryOk(g, src, queue[i], dist, d))
    && (forall i, j :: 0 <= i < j < |queue| ==> |queue[i].path| <= |queue[j].path|)
  }

  ghost predicate EntryOk(g: Graph, src: string, e: Entry, dist: map<string, nat>, d: nat) {
    && e.version in dist && dist[e.version] == |e.path| && d <= |e.path| <= d + 1
    && Chain(g, e.path, src, e.version)
  }

  predicate Queued(queue: seq<Entry>, v: string) {
    exists i :: 0 <= i < |queue| && queue[i].version == v
  }

  /** All successors of the versions done with are visited, at most one step further away. */
  ghost predicate DoneOk(g: Graph, dist: map<string, nat>, done: set<string>, d: nat) {
    forall v :: v in done ==> v in dist && dist[v] <= d && SuccessorsVisited(g, dist, v)
  }

  ghost predicate SuccessorsVisited(g: Graph, dist: map<string, nat>, v: string)
    requires v in dist
  {
    v in g ==> forall i :: 0 <= i < |g[v]| ==> g[v][i].to in dist && dist[g[v][i].to] <= dist[v] + 1
  }

  /**
   * The search frontier at depth `d`. `dist` maps the visited versions to their depth, `done` are
   * those whose successors were all visited; any other visited version is queued or in `excused`.
   */
  ghost predicate Frontier(
      g: Graph, src: string, queue: seq<Entry>, dist: map<string, nat>, done: set<string>, d: nat, excused: set<string>)
  {
    && src in dist && dist[src] == 0
    && QueueOk(g, src, queue, dist, d)
    && (forall v :: v in dist && v !in done && v !in excused ==> Queued(queue, v))
    && DoneOk(g, dist, done, d)
  }

  lemma QueuedDepth(g: Graph, src: string, queue: seq<Entry>, dist: map<string, nat>, d: nat, v: string)
    requires QueueOk(g, src, queue, dist, d) && Queued(queue, v)
    ensures v in dist && d <= dist[v] <= d + 1
  {
    var i :| 0 <= i < |queue| && queue[i].version == v;
    assert EntryOk(g, src, queue[i], dist, d);
  }

  /** Along any chain, every version within reach of the frontier has been visited soon enough. */
  lemma {:induction false} ChainVisited(
      g: Graph, src: string, queue: seq<Entry>, dist: map<string, nat>, done: set<string>, d: nat, path: seq<Hop>,
      dst: string)
    requires Frontier(g, src, queue, dist, done, d, {}) && Chain(g, path, src, dst)
    requires |path| <= d || queue == []
    ensures dst in dist && dist[dst] <= |path|
  {
    if path != [] {
      var last := path[|path| - 1];
      ChainVisited(g, src, queue, dist, done, d, path[..|path| - 1], last.src);
      assert last.src in done by {
        if Queued(queue, last.src) { QueuedDepth(g, src, queue, dist, d, last.src); }
      }
      assert SuccessorsVisited(g, dist, last.src);
      var k :| 0 <= k < |g[last.src]| && g[last.src][k] == Edge(last.dst, last.fn);
    }
  }

  /** The queue and the visited set once the unvisited targets of `es` are queued behind `head`. */
  function Discover(head: Entry, es: seq<Edge>, queue: seq<Entry>, visited: set<string>): (seq<Entry>, set<string>) {
    if es == [] then (queue, visited)
    else if es[0].to in visited then Discover(head, es[1..], queue, visited)
    else
      Discover(head, es[1..], queue + [Entry(es[0].to, head.path + [Hop(head.version, es[0].to, es[0].fn)])],
               visited + {es[0].to})
  }

  /** Discovering from the head of the queue keeps the frontier, visits every target and nothing else. */
  lemma {:induction false} DiscoverFrontier(
      g: Graph, src: string, head: Entry, es: seq<Edge>, queue: seq<Entry>, dist: map<string, nat>, done: set<string>,
      d: nat)
    returns (dist2: map<string, nat>)
    requires Frontier(g, src, queue, dist, done, d, {head.version}) && EntryOk(g, src, head, dist, d)
               && |head.path| == d
    requires head.version in g && forall e :: e in es ==> e in g[head.version]
    ensures var (queue2, visited2) := Discover(head, es, queue, dist.Keys);
            && Frontier(g, src, queue2, dist2, done, d, {head.version})
            && visited2 == dist2.Keys <= dist.Keys + Targets(es)
            && (dist2.Keys == dist.Keys ==> queue2 == queue)
    ensures dist.Keys <= dist2.Keys && forall v :: v in dist ==> dist2[v] == dist[v]
    ensures forall i :: 0 <= i < |es| ==> es[i].to in dist2 && dist2[es[i].to] <= d + 1
  {
    if es == [] { return dist; }
    var to := es[0].to;
    if to in dist {
      SuccessorDepth(g, src, queue, dist, done, d, head.version, to);
      dist2 := DiscoverFrontier(g, src, head, es[1..], queue, dist, done, d);
    } else {
      var hop := Hop(head.version, to, es[0].fn);
      var e := Entry(to, head.path + [hop]);
      assert es[0] in es && Registered(g, hop);
      ChainExtends(g, head.path, src, hop);
      FrontierGrows(g, src, queue, dist, done, d, head.version, e);
      assert (dist[to := d + 1]).Keys == dist.Keys + {to};
      dist2 := DiscoverFrontier(g, src, head, es[1..], queue + [e], dist[to := d + 1], done, d);
    }
    assert Targets(es) == {to} + Targets(es[1..]) by { TargetsSplit(es); }
  }

  lemma TargetsSplit(es: seq<Edge>)
    requires es != []
    ensures Targets(es) == {es[0].to} + Targets(es[1..])
  {
    forall t | t in Targets(es) ensures t in {es[0].to} + Targets(es[1..]) {
      var i :| 0 <= i < |es| && es[i].to == t;
      if i > 0 { assert es[1..][i - 1] == es[i]; }
    }
    forall t | t in Targets(es[1..]) ensures t in Targets(es) {
      var i :| 0 <= i < |es[1..]| && es[1..][i].to == t;
      assert es[i + 1].to == t;
    }
  }

  /** One turn of the search: take the head off the queue and discover from it. */
  lemma TurnKeepsFrontier(
      g: Graph, src: string, head: Entry, queue: seq<Entry>, dist: map<string, nat>, done: set<string>, d: nat)
    returns (dist2: map<string, nat>)
    requires Frontier(g, src, [head] + queue, dist, done, d, {})
    ensures var es := if head.version in g then g[head.version] else [];
            var (queue2, visited2) := Discover(head, es, queue, dist.Keys);
            && Frontier(g, src, queue2, dist2, done + {head.version}, |head.path|, {})
            && visited2 == dist2.Keys && dist.Keys <= dist2.Keys <= dist.Keys + Nodes(g)
            && (dist2.Keys == dist.Keys ==> queue2 == queue)
  {
    TakeHead(g, src, head, queue, dist, done, d);
    if head.version in g {
      dist2 := DiscoverFrontier(g, src, head, g[head.version], queue, dist, done, |head.path|);
      assert Targets(g[head.version]) <= Nodes(g);
    } else {
      dist2 := dist;
    }
    assert SuccessorsVisited(g, dist2, head.version);
  }

  lemma ChainExtends(g: Graph, path: seq<Hop>, src: string, hop: Hop)
    requires Chain(g, path, src, hop.src) && Registered(g, hop)
    ensures Chain(g, path + [hop], src, hop.dst)
  {
    assert (path + [hop])[..|path|] == path;
  }

  /** Whatever has been visited is at most one step beyond the current depth. */
  lemma SuccessorDepth(
      g: Graph, src: string, queue: seq<Entry>, dist: map<string, nat>, done: set<string>, d: nat, current: string,
      v: string)
    requires Frontier(g, src, queue, dist, done, d, {current}) && current in dist && dist[current] == d
    ensures v in dist ==> dist[v] <= d + 1
  {
    if v in dist && v !in done && v != current {
      var i :| 0 <= i < |queue| && queue[i].version == v;
      assert EntryOk(g, src, queue[i], dist, d);
    }
  }

  lemma TakeHead(
      g: Graph, src: string, head: Entry, queue: seq<Entry>, dist: map<string, nat>, done: set<string>, d: nat)
    requires Frontier(g, src, [head] + queue, dist, done, d, {})
    ensures Frontier(g, src, queue, dist, done, |head.path|, {head.version})
    ensures EntryOk(g, src, head, dist, |head.path|)
  {
    var q := [head] + queue;
    assert EntryOk(g, src, q[0], dist, d);
    forall i | 0 <= i < |queue| ensures EntryOk(g, src, queue[i], dist, |head.path|) {
      assert q[i + 1] == queue[i];
      assert EntryOk(g, src, q[i + 1], dist, d) && |q[0].path| <= |q[i + 1].path|;
    }
    forall i, j | 0 <= i < j < |queue| ensures |queue[i].path| <= |queue[j].path| {
      assert |q[i + 1].path| <= |q[j + 1].path|;
    }
    forall v | v in dist && v !in done && v != head.version ensures Queued(queue, v) {
      var i :| 0 <= i < |q| && q[i].version == v;
      assert queue[i - 1].version == v;
    }
  }

  lemma FrontierGrows(
      g: Graph, src: string, queue: seq<Entry>, dist: map<string, nat>, done: set<string>, d: nat, current: string,
      e: Entry)
    requires Frontier(g, src, queue, dist, done, d, {current}) && e.version !in dist
    requires Chain(g, e.path, src, e.version) && |e.path| == d + 1
    ensures Frontier(g, src, queue + [e], dist[e.version := d + 1], done, d, {current})
  {
    var q2, dist2 := queue + [e], dist[e.version := d + 1];
    forall i | 0 <= i < |q2| ensures EntryOk(g, src, q2[i], dist2, d) && |q2[i].path| <= d + 1 {
      if i < |queue| { assert EntryOk(g, src, queue[i], dist, d); }
    }
    forall v | v in dist2 && v !in done && v != current ensures Queued(q2, v) {
      if v == e.version {
        assert q2[|queue|].version == v;
      } else {
        var i :| 0 <= i < |queue| && queue[i].version == v;
        assert q2[i].version == v;
      }
    }
    forall v | v in done ensures v in dist2 && dist2[v] <= d && SuccessorsVisited(g, dist2, v) {
      assert SuccessorsVisited(g, dist, v);
    }
  }

  /** The inner loop of the search. */
  method QueueSuccessors(head: Entry, es: seq<Edge>, queue0: seq<Entry>, visited0: set<string>)
    returns (queue: seq<Entry>, visited: set<string>)
    ensures (queue, visited) == Discover(head, es, queue0, visited0)
  {
    queue, visited := queue0, visited0;
    var i := 0;
    while i < |es|
      invariant 0 <= i <= |es|
      invariant Discover(head, es[i..], queue, visited) == Discover(head, es, queue0, visited0)
    {
      assert es[i..][0] == es[i] && es[i..][1..] == es[i + 1..];
      if es[i].to !in visited {
        visited := visited + {es[i].to};
        queue := queue + [Entry(es[i].to, head.path + [Hop(head.version, es[i].to, es[i].fn)])];
      }
      i := i + 1;
    }
  }

  ghost predicate ShortestChain(g: Graph, path: seq<Hop>, src: string, dst: string) {
    Chain(g, path, src, dst) && forall q :: Chain(g, q, src, dst) ==> |path| <= |q|
  }

  class MigrationRegistry {
    var migrations: map<string, Graph>

    constructor ()
      ensures migrations == map[]
    {
      migrations := map[];
    }

    ghost predicate Valid()
      reads this
    {
      forall loop :: loop in migrations ==> ValidGraph(migrations[loop])
    }

    function GraphOf(loop: string): Graph
      reads this
    {
      if loop in migrations then migrations[loop] else map[]
    }

    /** Register one step between two versions, however they are spelled. */
    method Register(loop: string, src: string, dst: string, fn: MigrationFn)
      requires Valid()
      modifies this
      ensures Valid()
      ensures forall l :: l != loop ==> GraphOf(l) == old(GraphOf(l))
      ensures Adds(old(GraphOf(loop)), GraphOf(loop), Hop(Normalize(src), Normalize(dst), fn))
    {
      var from, to := Normalize(src), Normalize(dst);
      var bucket := GraphOf(loop);
      GraphWithEdge(bucket, from, to, fn);
      var edges := if from in bucket then bucket[from] else [];
      var updated := bucket[from := WithEdge(edges, to, fn)];
      migrations := migrations[loop := updated];
      assert GraphOf(loop) == updated;
    }

    /**
     * A shortest migration path between two versions, however they are spelled, or None exactly
     * when no chain of registered steps connects them. Cycles in the graph do no harm.
     */
    method FindPath(loop: string, src: string, dst: string) returns (path: Option<seq<Hop>>)
      ensures path.Some? ==> ShortestChain(GraphOf(loop), path.value, Normalize(src), Normalize(dst))
      ensures path.None? <==> !Reachable(GraphOf(loop), Normalize(src), Normalize(dst))
    {
      var from, to := Normalize(src), Normalize(dst);
      var g := GraphOf(loop);
      if from == to {
        NoHops(g, from);
        return Some([]);
      }
      if g == map[] {
        NoSteps(g, from, to);
        return None;
      }
      var queue, visited := [Entry(from, [])], {from};
      ghost var dist: map<string, nat>, done: set<string>, d: nat := map[from := 0], {}, 0;
      FrontierStart(g, from);
      while queue != []
        invariant Frontier(g, from, queue, dist, done, d, {})
        invariant visited == dist.Keys <= Nodes(g) + {from}
        invariant to !in done
        decreases |Nodes(g) + {from} - visited|, |queue|
      {
        var head, rest, before := queue[0], queue[1..], visited;
        assert queue == [head] + rest;
        if head.version == to {
          FoundShortest(g, from, to, head, rest, dist, done, d);
          return Some(head.path);
        }
        ghost var dist2 := TurnKeepsFrontier(g, from, head, rest, dist, done, d);
        queue, visited := QueueSuccessors(head, if head.version in g then g[head.version] else [], rest, visited);
        dist, done, d := dist2, done + {head.version}, |head.path|;
        SmallerRest(Nodes(g) + {from}, before, visited);
      }
      NothingFound(g, from, to, dist, done, d);
      path := None;
    }
  }

  lemma NoHops(g: Graph, src: string)
    ensures ShortestChain(g, [], src, src) && Reachable(g, src, src)
  {
    assert Chain(g, [], src, src);
  }

  lemma NoSteps(g: Graph, src: string, dst: string)
    requires g == map[] && src != dst
    ensures !Reachable(g, src, dst)
  {
    forall q ensures !Chain(g, q, src, dst) {}
  }

  lemma FrontierStart(g: Graph, src: string)
    ensures Frontier(g, src, [Entry(src, [])], map[src := 0], {}, 0, {})
  {
    assert [Entry(src, [])][0].version == src;
  }

  /** The first path to reach the target is a shortest one. */
  lemma FoundShortest(
      g: Graph, src: string, dst: string, head: Entry, rest: seq<Entry>, dist: map<string, nat>, done: set<string>,
      d: nat)
    requires Frontier(g, src, [head] + rest, dist, done, d, {}) && head.version == dst
    ensures ShortestChain(g, head.path, src, dst)
  {
    assert EntryOk(g, src, ([head] + rest)[0], dist, d);
    forall q | Chain(g, q, src, dst) ensures |head.path| <= |q| {
      if |q| <= d { ChainVisited(g, src, [head] + rest, dist, done, d, q, dst); }
    }
  }

  lemma NothingFound(g: Graph, src: string, dst: string, dist: map<string, nat>, done: set<string>, d: nat)
    requires Frontier(g, src, [], dist, done, d, {}) && dst !in done
    ensures !Reachable(g, src, dst)
  {
    forall q ensures !Chain(g, q, src, dst) {
      if Chain(g, q, src, dst) { ChainVisited(g, src, [], dist, done, d, q, dst); }
    }
  }

  lemma SmallerRest(all: set<string>, before: set<string>, after: set<string>)
    requires before <= after <= all
    ensures |all - after| <= |all - before| && (before != after ==> |all - after| < |all - before|)
  {
    assert all - before == (all - after) + (after - before);
    if before != after {
      var x :| x in after && x !in before;
      assert x in after - before;
    }
  }

  // ---------- Applying a path ----------

  /** The checkpoint after one step of the path, or None if the step failed. */
  function ApplyHop(h: Hop, c: Checkpoint): Option<Checkpoint> {
    var effect := h.fn(c);
    match effect.comeback
    case Raised => None
    case ReturnedNoCheckpoint => None
    case ReturnedArgument => Some(effect.argument.(loopVersion := h.dst))
    case ReturnedOther(other) => Some(other.(loopVersion := h.dst))
  }

  /** The path's functions applied in order. */
  function ApplyPath(path: seq<Hop>, c: Checkpoint): Option<Checkpoint> {
    if path == [] then Some(c)
    else
      match ApplyHop(path[0], c)
      case None => None
      case Some(next) => ApplyPath(path[1..], next)
  }

  /** A migration function took `before` to `after`, by changing its argument or by returning another. */
  predicate Takes(h: Hop, before: Checkpoint, after: Checkpoint) {
    || (h.fn(before).comeback == ReturnedArgument && after == h.fn(before).argument.(loopVersion := h.dst))
    || (h.fn(before).comeback.ReturnedOther? && after == h.fn(before).comeback.other.(loopVersion := h.dst))
  }

  /** The function raised, or returned no checkpoint. */
  predicate Breaks(h: Hop, before: Checkpoint) {
    h.fn(before).comeback == Raised || h.fn(before).comeback == ReturnedNoCheckpoint
  }

  /** The states a checkpoint goes through along the first `n` steps of a path. */
  ghost predicate Along(path: seq<Hop>, states: seq<Checkpoint>, n: nat) {
    n <= |path| && |states| == n + 1 && forall i :: 0 <= i < n ==> Takes(path[i], states[i], states[i + 1])
  }

  /** Applying a path goes through all its functions, or stops at the first that breaks. */
  lemma {:induction false} PathStates(path: seq<Hop>, c: Checkpoint) returns (states: seq<Checkpoint>)
    ensures |states| > 0 && states[0] == c && Along(path, states, |states| - 1)
    ensures ApplyPath(path, c).Some? ==> |states| == |path| + 1 && ApplyPath(path, c).value == states[|path|]
    ensures ApplyPath(path, c).None? ==> |states| <= |path| && Breaks(path[|states| - 1], states[|states| - 1])
  {
    if path == [] {
      states := [c];
    } else {
      var next := ApplyHop(path[0], c);
      if next.None? {
        states := [c];
      } else {
        var rest := PathStates(path[1..], next.value);
        states := [c] + rest;
        forall i | 0 <= i < |states| - 1 ensures Takes(path[i], states[i], states[i + 1]) {
          if i > 0 { assert path[i] == path[1..][i - 1] && Takes(path[1..][i - 1], rest[i - 1], rest[i]); }
        }
      }
    }
  }

  function Finished(c: Checkpoint, version: string, hash: string): Checkpoint {
    c.(loopVersion := version, sourceHash := if hash != "" then hash else c.sourceHash, stepIndex := |c.executed|)
  }

  /** The end of a migration: version, hash (unless none is given) and step index are set, the rest is kept. */
  predicate EndsAs(last: Checkpoint, version: string, hash: string, end: Checkpoint) {
    && end.loopVersion == version && end.stepIndex == |last.executed|
    && (hash != "" ==> end.sourceHash == hash) && (hash == "" ==> end.sourceHash == last.sourceHash)
    && end.loopName == last.loopName && end.executed == last.executed
    && end.results == last.results && end.context == last.context
  }

  datatype Refusal = NoMigrationPath | MigrationFailed | Incompatible

  /** A checkpoint object; migration functions change it in place. */
  class CheckpointObject {
    var data: Checkpoint

    constructor (data: Checkpoint)
      ensures this.data == data
    {
      this.data := data;
    }

    /** Rename a step throughout the checkpoint. */
    method RenameStep(oldName: string, newName: string)
      modifies this
      ensures data == Renamed(old(data), oldName, newName)
    {
      var c := data;
      var names: seq<string> := [];
      var i := 0;
      while i < |c.executed|
        invariant 0 <= i <= |c.executed|
        invariant names == RenamedNames(c.executed[..i], oldName, newName)
        invariant data == c
      {
        names := names + [if c.executed[i] == oldName then newName else c.executed[i]];
        assert c.executed[..i + 1] == c.executed[..i] + [c.executed[i]];
        i := i + 1;
      }
      assert c.executed[..i] == c.executed;
      data := data.(executed := names);
      if oldName in data.results {
        var res := data.results[oldName];
        data := data.(results := data.results - {oldName});
        data := data.(results := data.results[newName := res.(stepName := newName)]);
      }
      if oldName in data.context && newName !in data.context {
        data := data.(context := (data.context - {oldName})[newName := data.context[oldName]]);
      }
    }
  }

  /**
   * Migrate along a shortest path. The input object is never changed, whatever a step does or
   * raises. The result is a new object at the target version, unless the two versions normalise
   * alike: then it is the input, which bears the target version only if it was spelled like it.
   */
  method MigrateCheckpoint(reg: MigrationRegistry, cp: CheckpointObject, version: string, hash: string)
    returns (r: Result<CheckpointObject, Refusal>)
    ensures cp.data == old(cp.data)
    ensures r == Err(NoMigrationPath) <==>
              !Reachable(reg.GraphOf(cp.data.loopName), Normalize(cp.data.loopVersion), Normalize(version))
    ensures Normalize(cp.data.loopVersion) == Normalize(version) ==> r == Ok(cp)
    ensures Normalize(cp.data.loopVersion) != Normalize(version) && r != Err(NoMigrationPath) ==>
              exists path :: && ShortestChain(reg.GraphOf(cp.data.loopName), path, Normalize(cp.data.loopVersion),
                                                Normalize(version))
                             && MigratedAlong(path, cp.data, version, hash, r)
    ensures r.Ok? && Normalize(cp.data.loopVersion) != Normalize(version) ==>
              exists path, states ::
                && ShortestChain(reg.GraphOf(cp.data.loopName), path, Normalize(cp.data.loopVersion),
                   Normalize(version))
                && Along(path, states, |path|) && states[0] == cp.data
                   && EndsAs(states[|path|], version, hash, r.value.data)
    ensures r.Ok? && Normalize(cp.data.loopVersion) != Normalize(version) ==> fresh(r.value)
    ensures r.Ok? ==>
              (r.value.data.loopVersion == version <==>
                Normalize(cp.data.loopVersion) != Normalize(version) || cp.data.loopVersion == version)
    ensures r.Ok? ==>
              (r.value.data.stepIndex == |r.value.data.executed| <==>
                Normalize(cp.data.loopVersion) != Normalize(version) || cp.data.stepIndex == |cp.data.executed|)
  {
    var found := reg.FindPath(cp.data.loopName, cp.data.loopVersion, version);
    NoHops(reg.GraphOf(cp.data.loopName), Normalize(version));
    if found.None? { return Err(NoMigrationPath); }
    var path := found.value;
    if path == [] { return Ok(cp); }
    var migrated := RunPath(path, cp.data);
    if migrated.None? { return Err(MigrationFailed); }
    ghost var states := PathStates(path, cp.data);
    migrated.value.data := Finished(migrated.value.data, version, hash);
    assert EndsAs(states[|path|], version, hash, migrated.value.data);
    r := Ok(migrated.value);
  }

  lemma TwoSpellings()
    ensures Normalize("v1.0") == Normalize("1.0.0") == "1.0.0"
  {
    var v := SemVer(1, 0, 0, "");
    assert Decimal(1) == "1" && Decimal(0) == "0";
    assert Show(v) == "1" + ("." + ("0" + ("." + ("0" + "")))) == "1.0.0";
    ParseShow(v);
    assert Strip("v1.0") == "v1.0" && "v1.0"[1..] == "1.0";
    assert "1.0" == Decimal(1) + ("." + (Decimal(0) + ""));
    DecimalReads(1);
    SpanOfDigits(Decimal(1), ".0");
    PartReads(0, "");
    assert "1.0"[..1] == Decimal(1) && "1.0"[1..] == "." + (Decimal(0) + "");
    assert ParseBody("1.0") == Some(v);
  }

  /** A checkpoint of version v1.0 does not end at version 1.0.0: it comes back as it is. */
  method KeepsOldSpelling(reg: MigrationRegistry, cp: CheckpointObject) returns (r: Result<CheckpointObject, Refusal>)
    requires cp.data.loopVersion == "v1.0"
    ensures r == Ok(cp) && cp.data == old(cp.data) && cp.data.loopVersion != "1.0.0"
  {
    TwoSpellings();
    r := MigrateCheckpoint(reg, cp, "1.0.0", "");
  }

  /** Hand a copy of the checkpoint through the functions of the path. */
  method RunPath(path: seq<Hop>, start: Checkpoint) returns (r: Option<CheckpointObject>)
    ensures r.Some? ==> fresh(r.value)
    ensures ApplyPath(path, start) == if r.Some? then Some(r.value.data) else None
  {
    var migrated := new CheckpointObject(start);
    var i := 0;
    while i < |path|
      invariant 0 <= i <= |path|
      invariant fresh(migrated)
      invariant ApplyPath(path[i..], migrated.data) == ApplyPath(path, start)
    {
      assert path[i..][0] == path[i] && path[i..][1..] == path[i + 1..];
      var effect := path[i].fn(migrated.data);
      migrated.data := effect.argument;
      match effect.comeback {
        case Raised => return None;
        case ReturnedNoCheckpoint => return None;
        case ReturnedArgument =>
        case ReturnedOther(other) => migrated := new CheckpointObject(other);
      }
      migrated.data := migrated.data.(loopVersion := path[i].dst);
      i := i + 1;
    }
    r := Some(migrated);
  }

  /** The outcome of applying `path`: all of it, or a failure that leaves nothing behind. */
  ghost predicate MigratedAlong(
      path: seq<Hop>, c: Checkpoint, version: string, hash: string, r: Result<CheckpointObject, Refusal>)
    reads if r.Ok? then {r.value} else {}
  {
    match ApplyPath(path, c)
    case None => r == Err(MigrationFailed)
    case Some(end) => r.Ok? && r.value.data == Finished(end, version, hash)
  }

  // ---------- Renames ----------

  function RenamedNames(names: seq<string>, oldName: string, newName: string): seq<string> {
    seq(|names|, i requires 0 <= i < |names| => if names[i] == oldName then newName else names[i])
  }

  function Renamed(c: Checkpoint, oldName: string, newName: string): Checkpoint {
    c.(executed := RenamedNames(c.executed, oldName, newName),
       results := if oldName in c.results
                  then (c.results - {oldName})[newName := c.results[oldName].(stepName := newName)]
                  else c.results,
       context := if oldName in c.context && newName !in c.context
                  then (c.context - {oldName})[newName := c.context[oldName]]
                  else c.context)
  }

  /** A rename, entry by entry: the names, the result and its step name, the context key, and nothing else. */
  lemma RenamedByEntry(c: Checkpoint, oldName: string, newName: string, k: string)
    requires oldName != newName
    ensures var r := Renamed(c, oldName, newName);
            && r.loopName == c.loopName && r.loopVersion == c.loopVersion && r.sourceHash == c.sourceHash
            && r.stepIndex == c.stepIndex && |r.executed| == |c.executed|
            && (forall i :: 0 <= i < |c.executed| && c.executed[i] == oldName ==> r.executed[i] == newName)
            && (forall i :: 0 <= i < |c.executed| && c.executed[i] != oldName ==> r.executed[i] == c.executed[i])
            && oldName !in r.results
            && (oldName in c.results ==>
                  newName in r.results && r.results[newName] == c.results[oldName].(stepName := newName))
            && (oldName !in c.results ==> r.results == c.results)
            && (k != oldName && k != newName ==>
                  && (k in r.results <==> k in c.results) && (k in c.results ==> r.results[k] == c.results[k])
                  && (k in r.context <==> k in c.context) && (k in c.context ==> r.context[k] == c.context[k]))
            && (oldName in c.context && newName !in c.context ==>
                  oldName !in r.context && newName in r.context && r.context[newName] == c.context[oldName])
            && (oldName !in c.context || newName in c.context ==> r.context == c.context)
  {}

  /** What the engine leaves in every checkpoint. */
  predicate WellKept(c: Checkpoint) {
    && c.stepIndex == |c.executed|
    && Distinct(c.executed)
    && forall k :: k in c.results ==> k in c.executed && c.results[k].stepName == k
  }

  /** A rename to a fresh name keeps the order of executed names and every result with its step. */
  lemma RenameKeeps(c: Checkpoint, oldName: string, newName: string)
    requires WellKept(c) && newName !in c.executed
    ensures WellKept(Renamed(c, oldName, newName))
    ensures |Renamed(c, oldName, newName).executed| == |c.executed|
    ensures |Renamed(c, oldName, newName).results| == |c.results|
  {
    var r := Renamed(c, oldName, newName);
    forall k | k in r.results ensures k in r.executed && r.results[k].stepName == k {
      var was := if k == newName && oldName in c.results then oldName else k;
      var i :| 0 <= i < |c.executed| && c.executed[i] == was;
      assert r.executed[i] == k;
    }
    if oldName in c.results {
      assert newName !in c.results;
      assert r.results.Keys == c.results.Keys - {oldName} + {newName};
      assert |r.results| == |r.results.Keys| && |c.results| == |c.results.Keys|;
    }
  }

  /** A rename loses a result exactly when both names have one. */
  lemma RenameLosesResult(c: Checkpoint, oldName: string, newName: string)
    ensures |Renamed(c, oldName, newName).results| < |c.results| <==>
              oldName != newName && oldName in c.results && newName in c.results
  {
    var r := Renamed(c, oldName, newName);
    assert |r.results| == |r.results.Keys| && |c.results| == |c.results.Keys|;
    if oldName in c.results {
      assert r.results.Keys == c.results.Keys - {oldName} + {newName};
    }
  }

  /**
   * Renaming there and back restores a checkpoint that has no trace of the new name among its
   * steps, unless only the new name is a context key: then the way back takes that key along.
   */
  lemma RenameThereAndBack(c: Checkpoint, oldName: string, newName: string)
    requires WellKept(c) && newName !in c.executed
    ensures Renamed(Renamed(c, oldName, newName), newName, oldName) == c <==>
              !(newName in c.context && oldName !in c.context)
  {
    var there := Renamed(c, oldName, newName);
    var back := Renamed(there, newName, oldName);
    assert back.executed == c.executed by {
      forall i | 0 <= i < |c.executed| ensures back.executed[i] == c.executed[i] {
        assert c.executed[i] in c.executed;
      }
    }
    assert newName !in c.results;
    assert back.results == c.results by {
      if oldName in c.results {
        assert c.results[oldName].(stepName := newName).(stepName := oldName) == c.results[oldName];
      }
    }
    if oldName in c.context && newName !in c.context {
      assert back.context == c.context;
    } else if newName in c.context && oldName !in c.context {
      assert newName !in back.context;
    }
  }

  /** The function that renames one step in place. */
  function RenameFn(oldName: string, newName: string): MigrationFn {
    (c: Checkpoint) => Effect(Renamed(c, oldName, newName), ReturnedArgument)
  }

  /** The successive new names are unknown to the checkpoint they are given to. */
  predicate FreshRenames(c: Checkpoint, names: seq<(string, string)>)
    decreases |names|
  {
    names != [] ==> names[0].1 !in c.executed && FreshRenames(Renamed(c, names[0].0, names[0].1), names[1..])
  }

  lemma {:induction false} FreshRenamesVersion(c: Checkpoint, d: Checkpoint, names: seq<(string, string)>)
    requires c.executed == d.executed
    ensures FreshRenames(c, names) == FreshRenames(d, names)
    decreases |names|
  {
    if names != [] {
      FreshRenamesVersion(Renamed(c, names[0].0, names[0].1), Renamed(d, names[0].0, names[0].1), names[1..]);
    }
  }

  /** A whole path of renames to fresh names succeeds and keeps the checkpoint well kept. */
  lemma {:induction false} RenamePathKeeps(path: seq<Hop>, names: seq<(string, string)>, c: Checkpoint)
    requires |path| == |names| && WellKept(c) && FreshRenames(c, names)
    requires forall i :: 0 <= i < |path| ==> path[i].fn == RenameFn(names[i].0, names[i].1)
    ensures ApplyPath(path, c).Some?
    ensures var end := ApplyPath(path, c).value;
            WellKept(end) && |end.executed| == |c.executed| && |end.results| == |c.results|
            && (path != [] ==> end.loopVersion == path[|path| - 1].dst)
  {
    if path != [] {
      var a, b := names[0].0, names[0].1;
      RenameKeeps(c, a, b);
      var next := Renamed(c, a, b).(loopVersion := path[0].dst);
      assert ApplyHop(path[0], c) == Some(next);
      FreshRenamesVersion(Renamed(c, a, b), next, names[1..]);
      RenamePathKeeps(path[1..], names[1..], next);
    }
  }

  // ---------- Compatibility policy ----------

  datatype Policy = Strict | SemverCompatible | Permissive

  /** The policy lets a checkpoint through unmigrated. */
  predicate Admits(policy: Policy, c: Checkpoint, loop: LoopId) {
    match policy
    case Strict => c.loopVersion == loop.version && (loop.hash == "" || c.sourceHash == loop.hash)
    case SemverCompatible =>
      && Parse(c.loopVersion).Some? && Parse(loop.version).Some?
      && CompatibleWith(Parse(c.loopVersion).value, Parse(loop.version).value)
    case Permissive => true
  }

  /** Registered steps lead from the checkpoint's version to another one, the loop's. */
  ghost predicate Linked(reg: MigrationRegistry, c: Checkpoint, loop: LoopId)
    reads reg
  {
    && Normalize(c.loopVersion) != Normalize(loop.version)
    && Reachable(reg.GraphOf(loop.name), Normalize(c.loopVersion), Normalize(loop.version))
  }

  predicate ExactMatch(c: Checkpoint, loop: LoopId) {
    c.loopVersion == loop.version && c.sourceHash == loop.hash
  }

  /**
   * Decide whether a checkpoint may be resumed by `loop`: unchanged if it matches or the policy
   * admits it, migrated to exactly the loop's version if the versions differ and a path exists.
   */
  method CheckAndMigrate(reg: MigrationRegistry, cp: CheckpointObject, loop: LoopId, policy: Policy)
    returns (r: Result<CheckpointObject, Refusal>)
    ensures cp.data == old(cp.data)
    ensures r == Ok(cp) ==>
              cp.data.loopName == loop.name && (ExactMatch(cp.data, loop) || Admits(policy, cp.data, loop))
    ensures r.Ok? && r.value != cp ==>
              && r.value.data.loopVersion == loop.version
              && (loop.hash != "" ==> r.value.data.sourceHash == loop.hash)
              && r.value.data.stepIndex == |r.value.data.executed|
    ensures r == Err(MigrationFailed) || (r.Ok? && r.value != cp) ==>
              exists path :: && ShortestChain(reg.GraphOf(loop.name), path, Normalize(cp.data.loopVersion),
                                                Normalize(loop.version))
                             && MigratedAlong(path, cp.data, loop.version, loop.hash, r)
    ensures r == Err(MigrationFailed) || (r.Ok? && r.value != cp) <==>
              && cp.data.loopName == loop.name && !ExactMatch(cp.data, loop)
              && Normalize(cp.data.loopVersion) != Normalize(loop.version)
              && Reachable(reg.GraphOf(loop.name), Normalize(cp.data.loopVersion), Normalize(loop.version))
    ensures r.Ok? && policy == Strict ==>
              r.value.data.loopVersion == loop.version && (loop.hash != "" ==> r.value.data.sourceHash == loop.hash)
    ensures r == Err(Incompatible) <==>
              || cp.data.loopName != loop.name
              || (&& !ExactMatch(cp.data, loop) && !Admits(policy, cp.data, loop)
                  && (Normalize(cp.data.loopVersion) == Normalize(loop.version)
                      || !Reachable(reg.GraphOf(loop.name), Normalize(cp.data.loopVersion), Normalize(loop.version))))
    ensures r != Err(NoMigrationPath)
    // what the policies mean when no chain leads to the loop's version
    ensures cp.data.loopName == loop.name && ExactMatch(cp.data, loop) ==> r == Ok(cp)
    ensures cp.data.loopName == loop.name && policy == Permissive && !Linked(reg, cp.data, loop) ==> r == Ok(cp)
    ensures cp.data.loopName == loop.name && policy == Strict && !Linked(reg, cp.data, loop) ==>
              (r == Ok(cp) <==>
                cp.data.loopVersion == loop.version && (loop.hash == "" || cp.data.sourceHash == loop.hash))
    ensures cp.data.loopName == loop.name && policy == SemverCompatible && !Linked(reg, cp.data, loop) ==>
              (r == Ok(cp) <==>
                || (cp.data.loopVersion == loop.version && cp.data.sourceHash == loop.hash)
                || (&& Parse(cp.data.loopVersion).Some? && Parse(loop.version).Some?
                    && ResumesInto(Parse(cp.data.loopVersion).value, Parse(loop.version).value)))
  {
    if Parse(cp.data.loopVersion).Some? && Parse(loop.version).Some? {
      CompatibleExactly(Parse(cp.data.loopVersion).value, Parse(loop.version).value);
    }
    var c := cp.data;
    if c.loopName != loop.name { return Err(Incompatible); }
    if c.loopVersion == loop.version && c.sourceHash == loop.hash { return Ok(cp); }
    if Normalize(c.loopVersion) != Normalize(loop.version) {
      var path := reg.FindPath(loop.name, c.loopVersion, loop.version);
      if path.Some? && path.value != [] {
        r := MigrateCheckpoint(reg, cp, loop.version, loop.hash);
        return;
      }
    }
    if policy == Strict && (c.loopVersion != loop.version || (loop.hash != "" && c.sourceHash != loop.hash)) {
      return Err(Incompatible);
    }
    if policy == SemverCompatible {
      var from, to := Parse(c.loopVersion), Parse(loop.version);
      if from.None? || to.None? || !CompatibleWith(from.value, to.value) { return Err(Incompatible); }
    }
    r := Ok(cp);
  }
}
