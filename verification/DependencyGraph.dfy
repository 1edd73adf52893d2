/** The depth-first cycle check of `BackendService.validate` (kitt/backend_ir/service.py). */
module DependencyGraph {

  type Graph = map<string, seq<string>>

  function Succ(g: Graph, v: string): seq<string> {
    if v in g then g[v] else []
  }

  /** A walk along dependencies. */
  ghost predicate IsWalk(g: Graph, p: seq<string>) {
    |p| > 0 && forall i :: 0 <= i < |p| - 1 ==> p[i + 1] in Succ(g, p[i])
  }

  ghost predicate IsCycle(g: Graph, p: seq<string>) {
    IsWalk(g, p) && |p| >= 2 && p[0] == p[|p| - 1]
  }

  ghost predicate HasCycle(g: Graph) {
    exists p :: IsCycle(g, p)
  }

  ghost predicate OnCycle(g: Graph, v: string) {
    exists p :: IsCycle(g, p) && p[0] == v
  }

  /** Every node comes after all it depends on, and no node comes twice. */
  ghost predicate Topological(g: Graph, order: seq<string>) {
    && (forall i, d :: 0 <= i < |order| && d in Succ(g, order[i]) ==> d in order[..i])
    && (forall i, j :: 0 <= i < j < |order| ==> order[i] != order[j])
  }

  /** Along a walk the positions in a topological order go down. */
  lemma {:induction false} WalkDescends(g: Graph, order: seq<string>, p: seq<string>, at: nat)
    requires Topological(g, order) && IsWalk(g, p)
    requires at < |order| && order[at] == p[0]
    ensures exists i :: 0 <= i <= at && i + |p| - 1 <= at && order[i] == p[|p| - 1]
    decreases |p|
  {
    if |p| > 1 {
      assert p[1] in Succ(g, p[0]) && p[1] in order[..at];
      var k :| 0 <= k < at && order[k] == p[1];
      var rest := p[1..];
      forall i | 0 <= i < |rest| - 1 ensures rest[i + 1] in Succ(g, rest[i]) {
        assert rest[i] == p[i + 1];
      }
      WalkDescends(g, order, rest, k);
    }
  }

  lemma {:induction false} TopologicalHasNoCycle(g: Graph, order: seq<string>)
    requires Topological(g, order)
    requires forall v :: v in g ==> v in order
    ensures !HasCycle(g)
  {
    if HasCycle(g) {
      var p :| IsCycle(g, p);
      assert p[1] in Succ(g, p[0]) && p[0] in order;
      var at :| 0 <= at < |order| && order[at] == p[0];
      WalkDescends(g, order, p, at);
    }
  }

  /** The stack of nodes being visited, as a walk from the first to the last. */
  ghost predicate IsStack(g: Graph, stack: seq<string>, visiting: set<string>) {
    && (stack != [] ==> IsWalk(g, stack))
    && (forall v :: v in visiting <==> v in stack)
  }

  /** Meeting a node of the stack again closes a cycle. */
  lemma {:induction false} StackClosesCycle(g: Graph, stack: seq<string>, v: string)
    requires stack != [] && IsWalk(g, stack) && v in stack && v in Succ(g, stack[|stack| - 1])
    ensures OnCycle(g, v) && HasCycle(g)
  {
    var k :| 0 <= k < |stack| && stack[k] == v;
    var p := stack[k..] + [v];
    forall i | 0 <= i < |p| - 1 ensures p[i + 1] in Succ(g, p[i]) {
      assert p[i] == stack[k + i];
      if i + 1 < |p| - 1 { assert p[i + 1] == stack[k + i + 1]; }
    }
    assert IsCycle(g, p) && p[0] == v;
  }

  lemma {:induction false} PushStack(g: Graph, stack: seq<string>, visiting: set<string>, v: string)
    requires IsStack(g, stack, visiting)
    requires stack != [] ==> v in Succ(g, stack[|stack| - 1])
    ensures IsStack(g, stack + [v], visiting + {v})
  {
  }

  /** The local variables of the check: the two colours, the nodes reported, and the issues in order.
      `order` is the finish order. */
  class CycleCheck {
    const graph: Graph
    var visiting: set<string>
    var visited: set<string>
    var reported: set<string>
    var issues: seq<string>
    ghost var order: seq<string>

    ghost predicate Valid(stack: seq<string>)
      reads this
    {
      && IsStack(graph, stack, visiting)
      && (forall v :: v in visited <==> v in order)
      && visited !! visiting
      && (forall v :: v in reported <==> v in issues)
      && (forall v :: v in issues ==> OnCycle(graph, v))
      && (forall i, j :: 0 <= i < j < |issues| ==> issues[i] != issues[j])
      && (issues == [] ==> Topological(graph, order))
      && (issues != [] ==> HasCycle(graph))
    }

    constructor (graph: Graph)
      ensures Valid([]) && this.graph == graph && visiting == {} && visited == {} && issues == []
    {
      this.graph := graph;
      visiting, visited, reported, issues, order := {}, {}, {}, [], [];
    }

    /** `walk`. Afterwards the node is finished, or it was on the stack and a cycle was reported. */
    method Walk(v: string, ghost stack: seq<string>, ghost nodes: set<string>)
      requires Valid(stack)
      requires stack != [] ==> v in Succ(graph, stack[|stack| - 1])
      requires v in nodes && visiting <= nodes
      requires forall n, d :: n in nodes && d in Succ(graph, n) ==> d in nodes
      modifies this
      ensures Valid(stack) && visiting == old(visiting)
      ensures visited >= old(visited) && old(issues) <= issues
      ensures v in visited || issues != []
      decreases nodes - visiting - visited, 0
    {
      if v in visited { return; }
      if v in visiting {
        StackClosesCycle(graph, stack, v);
        if v !in reported {
          reported := reported + {v};
          issues := issues + [v];
        }
        return;
      }
      PushStack(graph, stack, visiting, v);
      visiting := visiting + {v};
      assert v in old(nodes - visiting - visited) && v !in nodes - visiting - visited;
      assert nodes - visiting - visited < old(nodes - visiting - visited);
      WalkDependencies(stack + [v], nodes, v);
      FinishNode(stack, v);
    }

    /** The loop of `walk` over the dependencies of the node on top of the stack. */
    method WalkDependencies(ghost stack: seq<string>, ghost nodes: set<string>, v: string)
      requires stack != [] && stack[|stack| - 1] == v && Valid(stack)
      requires v in nodes && visiting <= nodes
      requires forall n, d :: n in nodes && d in Succ(graph, n) ==> d in nodes
      modifies this
      ensures Valid(stack) && visiting == old(visiting)
      ensures visited >= old(visited) && old(issues) <= issues
      ensures issues == [] ==> forall d :: d in Succ(graph, v) ==> d in visited
      decreases nodes - visiting - visited, 1
    {
      var deps := Succ(graph, v);
      for k := 0 to |deps|
        invariant Valid(stack) && visiting == old(visiting)
        invariant visited >= old(visited) && old(issues) <= issues
        invariant issues == [] ==> forall j :: 0 <= j < k ==> deps[j] in visited
      {
        assert nodes - visiting - visited <= old(nodes - visiting - visited);
        Walk(deps[k], stack, nodes);
      }
    }

    /** `visiting.discard(v); visited.add(v)`. */
    method FinishNode(ghost stack: seq<string>, v: string)
      requires Valid(stack + [v]) && v !in stack
      requires IsStack(graph, stack, visiting - {v})
      requires issues == [] ==> forall d :: d in Succ(graph, v) ==> d in visited
      modifies `visiting, `visited, `order
      ensures Valid(stack)
      ensures visiting == old(visiting) - {v} && visited == old(visited) + {v}
    {
      assert v in stack + [v];
      visiting := visiting - {v};
      visited := visited + {v};
      ghost var before := order;
      order := order + [v];
      assert issues == [] ==> Topological(graph, order) by {
        if issues == [] {
          forall i, d | 0 <= i < |order| && d in Succ(graph, order[i]) ensures d in order[..i] {
            if i < |before| {
              assert order[i] == before[i] && d in before[..i] && order[..i] == before[..i];
            } else {
              assert order[..i] == before;
            }
          }
        }
      }
    }

    /** The driver loop: `for resource_id in graph: walk(resource_id)`. */
    method CheckAll(keys: seq<string>)
      requires Valid([]) && visiting == {} && visited == {}
      requires forall v :: v in graph <==> v in keys
      modifies this
      ensures issues != [] <==> HasCycle(graph)
      ensures forall v :: v in issues ==> OnCycle(graph, v)
      ensures forall i, j :: 0 <= i < j < |issues| ==> issues[i] != issues[j]
      ensures issues == [] ==> Topological(graph, order) && forall v :: v in graph ==> v in order
    {
      ghost var nodes := graph.Keys + (set v, d | v in graph && d in graph[v] :: d);
      for k := 0 to |keys|
        invariant Valid([]) && visiting == {}
        invariant issues == [] ==> forall j :: 0 <= j < k ==> keys[j] in visited
      {
        assert keys[k] in graph;
        Walk(keys[k], [], nodes);
      }
      if issues == [] {
        TopologicalHasNoCycle(graph, order);
      }
    }
  }
}
