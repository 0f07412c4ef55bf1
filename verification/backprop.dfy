/** The backward pass from a root node. Only its contract is given in the
    source (the root's gradient is exactly 1.0 afterwards); the driver here
    is a composition of the per-operation backward steps, seeded with 1.0
    at the root, over the nodes reachable from the root in decreasing arena
    index. Decreasing index is a consumer-first order, because every
    dependency was created before the node that uses it. */
module Backprop {
  import opened Results
  import opened Ops
  import opened Values
  import Dag
  import Engine
  import Sweep

  /** The nodes reachable from `r` through dependency edges, `r` included. */
  function Reachable(g: Graph, r: nat): set<nat>
    requires r < |g.nodes|
  {
    Dag.Reach(Adj(g), r)
  }

  /** Same nodes, gradients of the same length: still built. */
  lemma BuiltByNodes(g: Graph, h: Graph)
    requires Built(g) && h.nodes == g.nodes && |h.grads| == |g.grads|
    ensures Built(h)
  {
    forall i | 0 <= i < |h.nodes| && h.nodes[i].op.Some?
      ensures AllIn(h, h.nodes[i].prev) && Accepts(h.nodes[i].op.value, DataOf(h, h.nodes[i].prev))
    {
      assert DataOf(h, h.nodes[i].prev) == DataOf(g, g.nodes[i].prev);
    }
  }

  /** The visiting order: the root first, then every other reachable node
      once, each after every node that consumes it. */
  function Order(g: Graph, r: nat): (o: seq<nat>)
    requires WellFormed(g) && r < |g.nodes|
    ensures |o| > 0 && o[0] == r
    ensures forall x :: x in o <==> x in Reachable(g, r)
    ensures forall a, b :: 0 <= a < b < |o| ==> o[a] > o[b]
    ensures forall a, k :: 0 <= a < |o| && 0 <= k < |g.nodes[o[a]].prev| ==> g.nodes[o[a]].prev[k] in o[a + 1..]
  {
    var s := Reachable(g, r);
    AdjOrdered(g);
    Dag.ReachHasRoot(Adj(g), r);
    Dag.ReachBelowRoot(Adj(g), r);
    Dag.ReachClosed(Adj(g), r);
    var o := Dag.Collect(s, r + 1);
    Dag.CollectDecreasing(s, r + 1);
    assert forall a :: 0 <= a < |o| ==> o[a] in o;
    assert o[0] == r by {
      assert r in o;
      var b :| 0 <= b < |o| && o[b] == r;
      assert o[0] in s;
    }
    assert forall a, k :: 0 <= a < |o| && 0 <= k < |g.nodes[o[a]].prev| ==> g.nodes[o[a]].prev[k] in o[a + 1..] by {
      forall a, k | 0 <= a < |o| && 0 <= k < |g.nodes[o[a]].prev|
        ensures g.nodes[o[a]].prev[k] in o[a + 1..]
      {
        var x := g.nodes[o[a]].prev[k];
        assert Adj(g)[o[a]][k] == x;
        assert x in s && x < o[a];
        var b :| 0 <= b < |o| && o[b] == x;
        assert o[a + 1..][b - a - 1] == x;
      }
    }
    o
  }

  /** What the backward step of node `i`, holding gradient `x`, adds into
      node `j`: the routed share of `i`'s operation, or nothing for a leaf.
      Only the nodes matter, not the other gradients. */
  function PushOf(nodes: seq<Node>): Sweep.PushFn {
    (i: nat, j: nat, x: real) =>
      var g := Graph(nodes, []);
      if i < |nodes| && nodes[i].op.Some? && AllIn(g, nodes[i].prev) && Accepts(nodes[i].op.value, DataOf(g, nodes[i].prev))
      then Engine.Routed(nodes[i].prev, Engine.Shares(nodes[i].op.value, DataOf(g, nodes[i].prev), nodes[i].data, x), j)
      else 0.0
  }

  /** A node pushes only into its own dependencies. */
  lemma PushOnlyToDependencies(nodes: seq<Node>, i: nat, j: nat, x: real)
    requires i < |nodes| ==> j !in nodes[i].prev
    ensures PushOf(nodes)(i, j, x) == 0.0
  {
    var g := Graph(nodes, []);
    if i < |nodes| && nodes[i].op.Some? && AllIn(g, nodes[i].prev) && Accepts(nodes[i].op.value, DataOf(g, nodes[i].prev)) {
      Engine.RoutedAbsent(nodes[i].prev, Engine.Shares(nodes[i].op.value, DataOf(g, nodes[i].prev), nodes[i].data, x), j);
    }
  }

  /** In a well-formed graph pushes go only to nodes created earlier. */
  lemma PushDownward(g: Graph)
    requires WellFormed(g)
    ensures Sweep.Downward(PushOf(g.nodes))
  {
    forall i: nat, j: nat, x: real | i <= j ensures PushOf(g.nodes)(i, j, x) == 0.0 {
      PushOnlyToDependencies(g.nodes, i, j, x);
    }
  }

  /** One node's backward step: its operation's backward rule, or nothing
      for a leaf. It is a sweep step of `PushOf`. */
  function Step(g: Graph, i: nat): (h: Graph)
    requires Built(g) && i < |g.nodes|
    ensures h.nodes == g.nodes && Built(h)
    ensures h.grads == Sweep.Apply(g.grads, i, PushOf(g.nodes))
  {
    var n := g.nodes[i];
    if n.op.None? then
      assert g.grads == Sweep.Apply(g.grads, i, PushOf(g.nodes));
      g
    else
      assert AllIn(g, n.prev);
      assert n.op.value == Divide && |n.prev| == 2 ==> GetData(g, n.prev[1]) != 0.0 by {
        assert DataOf(g, n.prev)[1 % |n.prev|] == GetData(g, n.prev[1 % |n.prev|]);
      }
      var h := Engine.Backward(g, n.op.value, n.prev, i).value;
      BuiltByNodes(g, h);
      assert h.grads == Sweep.Apply(g.grads, i, PushOf(g.nodes)) by {
        assert DataOf(Graph(g.nodes, []), n.prev) == DataOf(g, n.prev);
        assert i !in n.prev;
      }
      h
  }

  /** The backward steps of the nodes in `order`, one after another. */
  function Run(g: Graph, order: seq<nat>): (h: Graph)
    requires Built(g) && forall x :: x in order ==> x < |g.nodes|
    ensures h.nodes == g.nodes && Built(h)
    ensures h.grads == Sweep.Run(g.grads, order, PushOf(g.nodes))
    decreases |order|
  {
    if |order| == 0 then g
    else
      assert order[0] in order;
      assert forall x :: x in order[1..] ==> x in order;
      Run(Step(g, order[0]), order[1..])
  }

  /** `Value::backward` on root `r`: the root's gradient is set to 1.0,
      then every reachable node, consumers first, runs its operation's
      backward rule once. Each node ends up with its gradient before the
      call (1.0 for the root) plus what its reachable consumers push into
      it from their final gradients: the chain rule. */
  function BackwardFrom(g: Graph, r: nat): (h: Graph)
    requires Built(g) && r < |g.nodes|
    ensures h.nodes == g.nodes && Built(h)
    ensures GetGrad(h, r) == 1.0
    ensures forall j :: 0 <= j < |g.nodes| && j !in Reachable(g, r) ==> GetGrad(h, j) == GetGrad(g, j)
    ensures forall j :: 0 <= j < |g.nodes| && j != r ==>
      GetGrad(h, j) == GetGrad(g, j) + Sweep.Inflow(h.grads, PushOf(g.nodes), Reachable(g, r), j, r + 1)
  {
    var h := Run(SetGrad(g, r, 1.0), Order(g, r));
    SweepFromRoot(g, r);
    SweepSkipsUnreached(g, r);
    h
  }

  lemma SweepFromRoot(g: Graph, r: nat)
    requires Built(g) && r < |g.nodes|
    ensures var hs := Run(SetGrad(g, r, 1.0), Order(g, r)).grads;
      && hs[r] == 1.0
      && forall j :: 0 <= j < |g.nodes| && j != r ==>
           hs[j] == g.grads[j] + Sweep.Inflow(hs, PushOf(g.nodes), Reachable(g, r), j, r + 1)
  {
    var g0 := SetGrad(g, r, 1.0);
    PushDownward(g);
    assert g0.grads == g.grads[r := 1.0];
    Sweep.Seeded(g.grads, Run(g0, Order(g, r)).grads, PushOf(g.nodes), Reachable(g, r), r);
  }

  lemma SweepSkipsUnreached(g: Graph, r: nat)
    requires Built(g) && r < |g.nodes|
    ensures var hs := Run(SetGrad(g, r, 1.0), Order(g, r)).grads;
      forall j :: 0 <= j < |g.nodes| && j !in Reachable(g, r) ==> hs[j] == g.grads[j]
  {
    SweepFromRoot(g, r);
    UnreachedKeep(g, r, Run(SetGrad(g, r, 1.0), Order(g, r)).grads);
  }

  /** Gradients made of the start plus the inflow keep their start on
      every node the root does not reach. */
  lemma UnreachedKeep(g: Graph, r: nat, hs: seq<real>)
    requires WellFormed(g) && r < |g.nodes| && |hs| == |g.nodes|
    requires forall j :: 0 <= j < |g.nodes| && j != r ==>
      hs[j] == g.grads[j] + Sweep.Inflow(hs, PushOf(g.nodes), Reachable(g, r), j, r + 1)
    ensures forall j :: 0 <= j < |g.nodes| && j !in Reachable(g, r) ==> hs[j] == g.grads[j]
  {
    Dag.ReachHasRoot(Adj(g), r);
    forall j | 0 <= j < |g.nodes| && j !in Reachable(g, r) ensures hs[j] == g.grads[j] {
      UnreachedReceivesNothing(g, r, j, hs, r + 1);
    }
  }

  /** A node the root does not reach receives nothing from the nodes it
      does reach. */
  lemma UnreachedReceivesNothing(g: Graph, r: nat, j: nat, hs: seq<real>, t: nat)
    requires WellFormed(g) && r < |g.nodes| && j !in Reachable(g, r) && t <= |hs|
    ensures Sweep.Inflow(hs, PushOf(g.nodes), Reachable(g, r), j, t) == 0.0
  {
    var s := Reachable(g, r);
    AdjOrdered(g);
    Dag.ReachClosed(Adj(g), r);
    forall i, x | i in s ensures PushOf(g.nodes)(i, j, x) == 0.0 {
      if i < |g.nodes| {
        forall k | 0 <= k < |g.nodes[i].prev| ensures g.nodes[i].prev[k] != j {
          assert Adj(g)[i][k] == g.nodes[i].prev[k];
        }
      }
      PushOnlyToDependencies(g.nodes, i, j, x);
    }
    Sweep.InflowNone(hs, PushOf(g.nodes), s, j, t);
  }
}
