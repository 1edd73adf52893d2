/** The decomposition depth of a task plan (kitt/cli/operations.py, lines 360-373). */
module PlanDepth {
  import opened DependencyGraph

  datatype Task = Task(id: string, dependsOn: seq<string>)

  type Depths = map<string, nat>

  predicate UniqueIds(tasks: seq<Task>) {
    forall i, j :: 0 <= i < j < |tasks| ==> tasks[i].id != tasks[j].id
  }

  function GraphOf(tasks: seq<Task>): Graph {
    if tasks == [] then map[] else GraphOf(tasks[..|tasks| - 1])[tasks[|tasks| - 1].id := tasks[|tasks| - 1].dependsOn]
  }

  predicate AllIn(deps: seq<string>, depth: Depths) {
    forall i :: 0 <= i < |deps| ==> deps[i] in depth
  }

  /** The largest depth among the dependencies, 0 without any. */
  function MaxDepth(depth: Depths, deps: seq<string>): nat
    requires AllIn(deps, depth)
  {
    if deps == [] then 0
    else
      var m, d := MaxDepth(depth, deps[..|deps| - 1]), depth[deps[|deps| - 1]];
      if m < d then d else m
  }

  lemma {:induction false} MaxDepthBounds(depth: Depths, deps: seq<string>)
    requires AllIn(deps, depth)
    ensures forall i :: 0 <= i < |deps| ==> depth[deps[i]] <= MaxDepth(depth, deps)
    ensures deps != [] ==> exists i :: 0 <= i < |deps| && depth[deps[i]] == MaxDepth(depth, deps)
  {
    if deps != [] {
      var init := deps[..|deps| - 1];
      MaxDepthBounds(depth, init);
      forall i | 0 <= i < |deps| ensures depth[deps[i]] <= MaxDepth(depth, deps) {
        if i < |init| { assert init[i] == deps[i]; }
      }
      if MaxDepth(depth, init) < depth[deps[|deps| - 1]] || init == [] {
        assert depth[deps[|deps| - 1]] == MaxDepth(depth, deps);
      } else {
        var i :| 0 <= i < |init| && depth[init[i]] == MaxDepth(depth, init);
        assert deps[i] == init[i];
      }
    }
  }

  // ---------------------------------------------------------------- what the loop establishes

  ghost predicate LayeredAt(g: Graph, depth: Depths, v: string) {
    v in g && v in depth && AllIn(g[v], depth) && depth[v] == 1 + MaxDepth(depth, g[v])
  }

  /** Every depth is one more than the largest depth it depends on. */
  ghost predicate Layered(g: Graph, depth: Depths) {
    forall v {:trigger LayeredAt(g, depth, v)} :: v in depth ==> LayeredAt(g, depth, v)
  }

  /** Nothing more is ready. */
  ghost predicate Stuck(g: Graph, depth: Depths) {
    forall v :: v in g && v !in depth ==> !AllIn(g[v], depth)
  }

  lemma {:induction false} DepthDescends(g: Graph, depth: Depths, p: seq<string>)
    requires Layered(g, depth) && IsWalk(g, p) && p[0] in depth
    ensures p[|p| - 1] in depth && depth[p[|p| - 1]] + |p| - 1 <= depth[p[0]]
  {
    if |p| > 1 {
      var init := p[..|p| - 1];
      forall i | 0 <= i < |init| - 1 ensures init[i + 1] in Succ(g, init[i]) { assert init[i + 1] == p[i + 1]; }
      DepthDescends(g, depth, init);
      var u, w := p[|p| - 2], p[|p| - 1];
      assert LayeredAt(g, depth, u) && w in g[u];
      MaxDepthBounds(depth, g[u]);
    }
  }

  lemma {:induction false} ChainOfDepth(g: Graph, depth: Depths, v: string) returns (p: seq<string>)
    requires Layered(g, depth) && v in depth
    ensures IsWalk(g, p) && p[0] == v && |p| == depth[v]
    decreases depth[v]
  {
    assert LayeredAt(g, depth, v);
    MaxDepthBounds(depth, g[v]);
    if g[v] == [] {
      p := [v];
    } else {
      var i :| 0 <= i < |g[v]| && depth[g[v][i]] == MaxDepth(depth, g[v]);
      var rest := ChainOfDepth(g, depth, g[v][i]);
      p := [v] + rest;
      forall j | 0 <= j < |p| - 1 ensures p[j + 1] in Succ(g, p[j]) {
        if j > 0 { assert p[j] == rest[j - 1] && p[j + 1] == rest[j]; }
      }
    }
  }

  /** A depth is the length of the longest dependency chain. */
  lemma {:induction false} DepthIsLongestChain(g: Graph, depth: Depths, v: string)
    requires Layered(g, depth) && v in depth
    ensures exists p :: IsWalk(g, p) && p[0] == v && |p| == depth[v]
    ensures forall p :: IsWalk(g, p) && p[0] == v ==> |p| <= depth[v]
  {
    var q := ChainOfDepth(g, depth, v);
    forall p | IsWalk(g, p) && p[0] == v ensures |p| <= depth[v] {
      DepthDescends(g, depth, p);
      assert LayeredAt(g, depth, p[|p| - 1]);
    }
  }

  // ---------------------------------------------------------------- tasks without a depth

  /** The task depends, directly or not, on a missing task or on a cycle. */
  ghost predicate Doomed(g: Graph, v: string) {
    exists p :: IsWalk(g, p) && p[0] == v && (p[|p| - 1] !in g || OnCycle(g, p[|p| - 1]))
  }

  /** A dependency chain of a task that has a depth. */
  ghost predicate ChainFrom(g: Graph, v: string, p: seq<string>) {
    !Doomed(g, v) && IsWalk(g, p) && p[0] == v
  }

  lemma {:induction false} DepthIsNotDoomed(g: Graph, depth: Depths, v: string)
    requires Layered(g, depth) && v in depth
    ensures !Doomed(g, v)
  {
    forall p | IsWalk(g, p) && p[0] == v ensures p[|p| - 1] in g && !OnCycle(g, p[|p| - 1]) {
      DepthDescends(g, depth, p);
      var u := p[|p| - 1];
      assert LayeredAt(g, depth, u);
      forall c | IsCycle(g, c) ensures c[0] != u {
        if c[0] == u { DepthDescends(g, depth, c); }
      }
    }
  }

  ghost predicate Undepthed(g: Graph, depth: Depths, p: seq<string>) {
    && IsWalk(g, p)
    && (forall i :: 0 <= i < |p| ==> p[i] in g && p[i] !in depth)
    && (forall i, j :: 0 <= i < j < |p| ==> p[i] != p[j])
  }

  lemma {:induction false} WalkSnoc(g: Graph, p: seq<string>, d: string)
    requires IsWalk(g, p) && d in Succ(g, p[|p| - 1])
    ensures IsWalk(g, p + [d])
  {
    var q := p + [d];
    forall i | 0 <= i < |q| - 1 ensures q[i + 1] in Succ(g, q[i]) {
      if i < |p| - 1 { assert q[i + 1] == p[i + 1]; }
    }
  }

  lemma {:induction false} ClosesCycle(g: Graph, p: seq<string>, k: nat)
    requires IsWalk(g, p) && k < |p| && p[k] in Succ(g, p[|p| - 1])
    ensures Doomed(g, p[0])
  {
    WalkSnoc(g, p, p[k]);
    var q := p + [p[k]];
    var c := q[k..];
    forall i | 0 <= i < |c| - 1 ensures c[i + 1] in Succ(g, c[i]) {
      assert q[k + i + 1] in Succ(g, q[k + i]);
    }
    assert IsCycle(g, c) && c[0] == p[k];
    var front := p[..k + 1];
    forall i | 0 <= i < |front| - 1 ensures front[i + 1] in Succ(g, front[i]) {
      assert p[i + 1] in Succ(g, p[i]);
    }
    assert IsWalk(g, front) && OnCycle(g, front[|front| - 1]);
  }

  /** From a task without a depth one can keep going to others without one, until one is missing or
      comes again. */
  lemma {:induction false} UndepthedIsDoomed(g: Graph, depth: Depths, p: seq<string>, unseen: set<string>)
    requires Stuck(g, depth) && Undepthed(g, depth, p)
    requires forall v :: v in g && v !in p ==> v in unseen
    ensures Doomed(g, p[0])
    decreases unseen
  {
    var u := p[|p| - 1];
    assert !AllIn(g[u], depth);
    var i :| 0 <= i < |g[u]| && g[u][i] !in depth;
    var d := g[u][i];
    if d in p {
      var k :| 0 <= k < |p| && p[k] == d;
      ClosesCycle(g, p, k);
    } else {
      WalkSnoc(g, p, d);
      var q := p + [d];
      if d in g {
        assert unseen - {d} < unseen;
        UndepthedIsDoomed(g, depth, q, unseen - {d});
        assert q[0] == p[0];
      } else {
        assert q[0] == p[0] && q[|q| - 1] !in g;
      }
    }
  }

  /** The tasks without a depth are exactly those that depend on a cycle or on a missing task. */
  lemma {:induction false} NoDepthIffDoomed(g: Graph, depth: Depths, v: string)
    requires Layered(g, depth) && Stuck(g, depth) && v in g
    ensures v !in depth <==> Doomed(g, v)
  {
    if v in depth {
      DepthIsNotDoomed(g, depth, v);
    } else {
      UndepthedIsDoomed(g, depth, [v], g.Keys);
    }
  }

  // ---------------------------------------------------------------- the loop

  /** `remaining.remove(task)`. */
  function RemoveFirst(tasks: seq<Task>, t: Task): (r: seq<Task>)
    requires t in tasks
    ensures |r| == |tasks| - 1 && multiset(r) == multiset(tasks) - multiset{t}
  {
    if tasks[0] == t then
      assert tasks == [t] + tasks[1..];
      tasks[1..]
    else
      assert tasks == [tasks[0]] + tasks[1..];
      [tasks[0]] + RemoveFirst(tasks[1..], t)
  }

  function Ready(remaining: seq<Task>, depth: Depths): (r: seq<Task>)
    ensures multiset(r) <= multiset(remaining)
    ensures forall t :: t in r <==> t in remaining && AllIn(t.dependsOn, depth)
  {
    if remaining == [] then []
    else
      var init, t := remaining[..|remaining| - 1], remaining[|remaining| - 1];
      assert remaining == init + [t];
      Ready(init, depth) + if AllIn(t.dependsOn, depth) then [t] else []
  }

  /** A task has a depth exactly when it no longer remains. */
  ghost predicate Accounted(tasks: seq<Task>, depth: Depths, remaining: seq<Task>) {
    forall t :: t in tasks ==> (t.id in depth <==> t !in remaining)
  }

  ghost predicate Inv(tasks: seq<Task>, depth: Depths, remaining: seq<Task>) {
    Layered(GraphOf(tasks), depth) && multiset(remaining) <= multiset(tasks) && Accounted(tasks, depth, remaining)
  }

  lemma {:induction false} GraphHasTasks(tasks: seq<Task>, i: nat)
    requires UniqueIds(tasks) && i < |tasks|
    ensures tasks[i].id in GraphOf(tasks) && GraphOf(tasks)[tasks[i].id] == tasks[i].dependsOn
  {
    var init := tasks[..|tasks| - 1];
    if i < |init| { GraphHasTasks(init, i); }
  }

  lemma {:induction false} GraphKeys(tasks: seq<Task>, v: string)
    requires v in GraphOf(tasks)
    ensures exists t :: t in tasks && t.id == v
  {
    if v != tasks[|tasks| - 1].id {
      GraphKeys(tasks[..|tasks| - 1], v);
      var t :| t in tasks[..|tasks| - 1] && t.id == v;
      assert t in tasks;
    } else {
      assert tasks[|tasks| - 1] in tasks;
    }
  }

  lemma {:induction false} MaxDepthExtends(depth: Depths, more: Depths, deps: seq<string>)
    requires AllIn(deps, depth) && forall v :: v in depth ==> v in more && more[v] == depth[v]
    ensures AllIn(deps, more) && MaxDepth(more, deps) == MaxDepth(depth, deps)
  {
    if deps != [] { MaxDepthExtends(depth, more, deps[..|deps| - 1]); }
  }

  lemma {:induction false} UniqueTask(tasks: seq<Task>, s: Task, t: Task)
    requires UniqueIds(tasks) && s in tasks && t in tasks && s.id == t.id
    ensures s == t
  {
  }

  lemma {:induction false} OccursOnce(tasks: seq<Task>, t: Task)
    requires UniqueIds(tasks)
    ensures multiset(tasks)[t] <= 1
  {
    if tasks != [] {
      var init, last := tasks[..|tasks| - 1], tasks[|tasks| - 1];
      OccursOnce(init, t);
      assert tasks == init + [last];
      if t == last {
        forall i | 0 <= i < |init| ensures init[i] != t { assert tasks[i].id != last.id; }
        assert t !in init;
        assert t !in multiset(init);
      }
    }
  }

  lemma {:induction false} LayeredExtends(g: Graph, depth: Depths, v: string)
    requires Layered(g, depth) && v in g && v !in depth && AllIn(g[v], depth)
    ensures Layered(g, depth[v := 1 + MaxDepth(depth, g[v])])
  {
    var more := depth[v := 1 + MaxDepth(depth, g[v])];
    forall u | u in more ensures LayeredAt(g, more, u) {
      if u == v {
        MaxDepthExtends(depth, more, g[v]);
      } else {
        assert LayeredAt(g, depth, u);
        MaxDepthExtends(depth, more, g[u]);
      }
    }
  }

  lemma {:induction false} RemovedOnce(tasks: seq<Task>, remaining: seq<Task>, t: Task, s: Task)
    requires UniqueIds(tasks) && multiset(remaining) <= multiset(tasks) && t in remaining
    ensures t in tasks && (s in RemoveFirst(remaining, t) <==> s in remaining && s != t)
  {
    OccursOnce(tasks, t);
    assert t in multiset(remaining) && multiset(remaining)[t] <= multiset(tasks)[t];
    assert s in RemoveFirst(remaining, t) <==> s in multiset(RemoveFirst(remaining, t));
    assert s in remaining <==> s in multiset(remaining);
  }

  /** Settling one ready task. */
  lemma {:induction false} SettleOne(tasks: seq<Task>, depth: Depths, remaining: seq<Task>, t: Task, more: Depths, rest: seq<Task>)
    requires UniqueIds(tasks) && Inv(tasks, depth, remaining) && t in remaining && AllIn(t.dependsOn, depth)
    requires more == depth[t.id := 1 + MaxDepth(depth, t.dependsOn)] && rest == RemoveFirst(remaining, t)
    ensures Inv(tasks, more, rest)
  {
    RemovedOnce(tasks, remaining, t, t);
    AccountedStep(tasks, depth, remaining, t, 1 + MaxDepth(depth, t.dependsOn));
    SettleLayered(tasks, depth, t);
  }

  lemma {:induction false} SettleLayered(tasks: seq<Task>, depth: Depths, t: Task)
    requires UniqueIds(tasks) && Layered(GraphOf(tasks), depth) && t in tasks && t.id !in depth && AllIn(t.dependsOn, depth)
    ensures Layered(GraphOf(tasks), depth[t.id := 1 + MaxDepth(depth, t.dependsOn)])
  {
    var i :| 0 <= i < |tasks| && tasks[i] == t;
    GraphHasTasks(tasks, i);
    LayeredExtends(GraphOf(tasks), depth, t.id);
  }

  lemma {:induction false} AccountedStep(tasks: seq<Task>, depth: Depths, remaining: seq<Task>, t: Task, d: nat)
    requires UniqueIds(tasks) && Accounted(tasks, depth, remaining) && multiset(remaining) <= multiset(tasks)
    requires t in remaining
    ensures Accounted(tasks, depth[t.id := d], RemoveFirst(remaining, t))
  {
    forall s | s in tasks ensures s.id in depth[t.id := d] <==> s !in RemoveFirst(remaining, t) {
      RemovedOnce(tasks, remaining, t, s);
      if s.id == t.id { UniqueTask(tasks, s, t); }
    }
  }

  method LargestDepth(depth: Depths, deps: seq<string>) returns (m: nat)
    requires AllIn(deps, depth)
    ensures m == MaxDepth(depth, deps)
  {
    m := 0;
    for k := 0 to |deps|
      invariant m == MaxDepth(depth, deps[..k])
    {
      assert deps[..k + 1][..k] == deps[..k];
      if m < depth[deps[k]] { m := depth[deps[k]]; }
    }
    assert deps[..|deps|] == deps;
  }

  /** The part of `ready` still to settle is part of what remains. */
  lemma {:induction false} NextRemains(ready: seq<Task>, k: nat, remaining: seq<Task>)
    requires k < |ready| && multiset(ready[k..]) <= multiset(remaining)
    ensures ready[k] in remaining && multiset(ready[k + 1..]) <= multiset(RemoveFirst(remaining, ready[k]))
  {
    assert ready[k..] == [ready[k]] + ready[k + 1..];
    assert ready[k] in multiset(ready[k..]) && ready[k] in multiset(remaining);
  }

  ghost predicate AtMost(depth: Depths, n: nat) {
    forall v :: v in depth ==> depth[v] <= n
  }

  lemma {:induction false} MaxDepthAtMost(depth: Depths, deps: seq<string>, n: nat)
    requires AllIn(deps, depth) && AtMost(depth, n)
    ensures MaxDepth(depth, deps) <= n
  {
    if deps != [] { MaxDepthAtMost(depth, deps[..|deps| - 1], n); }
  }

  lemma {:induction false} SettleInv(tasks: seq<Task>, depth: Depths, remaining: seq<Task>, t: Task, more: Depths, rest: seq<Task>)
    requires t in remaining && AllIn(t.dependsOn, depth)
    requires more == depth[t.id := 1 + MaxDepth(depth, t.dependsOn)] && rest == RemoveFirst(remaining, t)
    ensures UniqueIds(tasks) && Inv(tasks, depth, remaining) ==> Inv(tasks, more, rest)
  {
    if UniqueIds(tasks) && Inv(tasks, depth, remaining) { SettleOne(tasks, depth, remaining, t, more, rest); }
  }

  lemma {:induction false} DepthsGrowByOne(depth: Depths, id: string, deps: seq<string>, n: nat)
    requires AllIn(deps, depth) && AtMost(depth, n)
    ensures AtMost(depth[id := 1 + MaxDepth(depth, deps)], n + 1)
  {
    MaxDepthAtMost(depth, deps, n);
  }

  method SettleTask(ghost tasks: seq<Task>, t: Task, depth0: Depths, remaining0: seq<Task>)
    returns (depth: Depths, remaining: seq<Task>)
    requires t in remaining0 && AllIn(t.dependsOn, depth0)
    ensures remaining == RemoveFirst(remaining0, t) && depth.Keys == depth0.Keys + {t.id}
    ensures forall n: nat :: AtMost(depth0, n) ==> AtMost(depth, n + 1)
    ensures UniqueIds(tasks) && Inv(tasks, depth0, remaining0) ==> Inv(tasks, depth, remaining)
  {
    var m := LargestDepth(depth0, t.dependsOn);
    depth := depth0[t.id := 1 + m];
    remaining := RemoveFirst(remaining0, t);
    forall n: nat | AtMost(depth0, n) ensures AtMost(depth, n + 1) { DepthsGrowByOne(depth0, t.id, t.dependsOn, n); }
    SettleInv(tasks, depth0, remaining0, t, depth, remaining);
  }

  ghost predicate AllReady(ready: seq<Task>, keys: set<string>) {
    forall k, i :: 0 <= k < |ready| && 0 <= i < |ready[k].dependsOn| ==> ready[k].dependsOn[i] in keys
  }

  /** The inner loop: settle the ready tasks. */
  method SettleReady(ghost tasks: seq<Task>, ready: seq<Task>, depth0: Depths, remaining0: seq<Task>)
    returns (depth: Depths, remaining: seq<Task>)
    requires multiset(ready) <= multiset(remaining0) && AllReady(ready, depth0.Keys)
    ensures |remaining| == |remaining0| - |ready|
    ensures forall n: nat :: AtMost(depth0, n) ==> AtMost(depth, n + |ready|)
    ensures UniqueIds(tasks) && Inv(tasks, depth0, remaining0) ==> Inv(tasks, depth, remaining)
  {
    depth, remaining := depth0, remaining0;
    ghost var distinct := UniqueIds(tasks) && Inv(tasks, depth0, remaining0);
    assert ready[0..] == ready;
    for k := 0 to |ready|
      invariant |remaining| == |remaining0| - k && multiset(ready[k..]) <= multiset(remaining)
      invariant depth0.Keys <= depth.Keys
      invariant forall n: nat :: AtMost(depth0, n) ==> AtMost(depth, n + k)
      invariant distinct ==> Inv(tasks, depth, remaining)
    {
      NextRemains(ready, k, remaining);
      depth, remaining := SettleTask(tasks, ready[k], depth, remaining);
    }
  }

  lemma {:induction false} StuckWhenNoneReady(tasks: seq<Task>, depth: Depths, remaining: seq<Task>)
    requires UniqueIds(tasks) && Inv(tasks, depth, remaining) && Ready(remaining, depth) == []
    ensures Stuck(GraphOf(tasks), depth)
  {
    var g := GraphOf(tasks);
    forall v | v in g && v !in depth ensures !AllIn(g[v], depth) {
      GraphKeys(tasks, v);
      var t :| t in tasks && t.id == v;
      var i :| 0 <= i < |tasks| && tasks[i] == t;
      GraphHasTasks(tasks, i);
      assert t in remaining && t !in Ready(remaining, depth);
    }
  }

  /** The depth loop: it always ends with no depth above the number of tasks, and with distinct ids
      every task that can have a depth gets the length of its longest dependency chain. */
  method ComputeDepths(tasks: seq<Task>) returns (depth: Depths)
    ensures AtMost(depth, |tasks|)
    ensures UniqueIds(tasks) ==> Layered(GraphOf(tasks), depth) && Stuck(GraphOf(tasks), depth)
  {
    depth := map[];
    var remaining := tasks;
    while remaining != []
      invariant |remaining| <= |tasks| && AtMost(depth, |tasks| - |remaining|)
      invariant UniqueIds(tasks) ==> Inv(tasks, depth, remaining)
      decreases |remaining|
    {
      var ready := Ready(remaining, depth);
      if ready == [] { break; }
      depth, remaining := SettleReady(tasks, ready, depth, remaining);
    }
    if UniqueIds(tasks) { StuckWhenNoneReady(tasks, depth, remaining); }
  }

  /** `decomposition_depth`: the longest chain among the tasks that have a depth. */
  method DecompositionDepth(tasks: seq<Task>) returns (longest: nat)
    ensures longest <= |tasks|
    ensures UniqueIds(tasks) ==>
              forall i, p :: 0 <= i < |tasks| && ChainFrom(GraphOf(tasks), tasks[i].id, p) ==> |p| <= longest
    ensures UniqueIds(tasks) && longest > 0 ==>
              exists i, p :: 0 <= i < |tasks| && ChainFrom(GraphOf(tasks), tasks[i].id, p) && |p| == longest
  {
    var depth := ComputeDepths(tasks);
    ghost var g := GraphOf(tasks);
    longest := 0;
    for k := 0 to |tasks|
      invariant forall i :: 0 <= i < k && tasks[i].id in depth ==> depth[tasks[i].id] <= longest
      invariant longest > 0 ==> exists i :: 0 <= i < k && tasks[i].id in depth && depth[tasks[i].id] == longest
    {
      if tasks[k].id in depth && longest < depth[tasks[k].id] { longest := depth[tasks[k].id]; }
    }
    forall i, p | UniqueIds(tasks) && 0 <= i < |tasks| && ChainFrom(g, tasks[i].id, p)
      ensures |p| <= longest
    {
      GraphHasTasks(tasks, i);
      NoDepthIffDoomed(g, depth, tasks[i].id);
      DepthIsLongestChain(g, depth, tasks[i].id);
    }
    if UniqueIds(tasks) && longest > 0 {
      var i :| 0 <= i < |tasks| && tasks[i].id in depth && depth[tasks[i].id] == longest;
      var p := ChainOfDepth(g, depth, tasks[i].id);
      DepthIsNotDoomed(g, depth, tasks[i].id);
      assert ChainFrom(g, tasks[i].id, p);
    }
  }
}
