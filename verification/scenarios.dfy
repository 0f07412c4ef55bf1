/** The two gradient scenarios of the driver program, built with the public
    operators and run through the backward pass: a node used twice by the
    same operation, and a node feeding two consumers. */
module Scenarios {
  import opened Results
  import opened Ops
  import opened Values
  import Engine
  import Backprop
  import Sweep
  import Dag

  /** What a leaf pushes during the backward pass: nothing. */
  lemma PushLeaf(nodes: seq<Node>, i: nat, j: nat, x: real)
    requires i < |nodes| && nodes[i].op.None?
    ensures Backprop.PushOf(nodes)(i, j, x) == 0.0
  {
  }

  /** What a two-input node pushes into `j`: the share of each input slot
      that holds `j`, so a node in both slots receives both shares. */
  lemma PushBinary(nodes: seq<Node>, i: nat, j: nat, x: real, op: Op, a: nat, b: nat)
    requires i < |nodes| && a < |nodes| && b < |nodes|
    requires nodes[i].op == Some(op) && nodes[i].prev == [a, b] && Accepts(op, [nodes[a].data, nodes[b].data])
    ensures var s := Engine.Shares(op, [nodes[a].data, nodes[b].data], nodes[i].data, x);
      Backprop.PushOf(nodes)(i, j, x) == (if a == j then s[0] else 0.0) + (if b == j then s[1] else 0.0)
  {
    var g := Graph(nodes, []);
    assert DataOf(g, [a, b]) == [nodes[a].data, nodes[b].data];
    var s := Engine.Shares(op, [nodes[a].data, nodes[b].data], nodes[i].data, x);
    Engine.RoutedPair(a, b, s[0], s[1], j);
  }

  /** The empty graph. */
  const Empty: Graph := Graph([], [])

  /** `a = 3`, `b = a + a` labelled "b = a + a". */
  function Diamond(): (r: (Graph, nat))
    ensures Built(r.0) && r.1 == 1 && |r.0.nodes| == 2
    ensures r.0.nodes[0] == Node(3.0, [], None, Some("a"))
    ensures r.0.nodes[1] == Node(6.0, [0, 0], Some(Add), Some("b = a + a"))
  {
    var (g1, a) := Leaf(Empty, 3.0, Some("a"));
    var (g2, b) := Engine.Sum(g1, a, a);
    ExtendsKeeps(g1, g2);
    (SetLabel(g2, b, "b = a + a"), b)
  }

  /** `b.backward()` on the diamond: the output's gradient is 1 and `a`,
      used twice by the sum, receives 2. */
  lemma DiamondGradients()
    ensures var (g, b) := Diamond();
      var h := Backprop.BackwardFrom(g, b);
      GetGrad(h, b) == 1.0 && GetGrad(h, 0) == 2.0
  {
    var (g, b) := Diamond();
    var h := Backprop.BackwardFrom(g, b);
    var p, s := Backprop.PushOf(g.nodes), Backprop.Reachable(g, b);
    Dag.ReachHasRoot(Adj(g), b);
    PushLeaf(g.nodes, 0, 0, h.grads[0]);
    PushBinary(g.nodes, 1, 0, h.grads[1], Add, 0, 0);
    assert Sweep.Inflow(h.grads, p, s, 0, 1) == 0.0;
    assert Sweep.Inflow(h.grads, p, s, 0, 2) == 2.0;
  }

  /** The nodes `Mixed` builds. */
  const MixedNodes: seq<Node> := [
    Node(-2.0, [], None, Some("a")), Node(3.0, [], None, Some("b")),
    Node(-6.0, [0, 1], Some(Multiply), None), Node(1.0, [0, 1], Some(Add), None),
    Node(-6.0, [2, 3], Some(Multiply), None)]

  /** `a = -2`, `b = 3`, `d = a * b`, `e = a + b`, `f = d * e`: the
      operators build exactly these nodes, all gradients still zero. */
  function Mixed(): (r: (Graph, nat))
    ensures Built(r.0) && r.1 == 4
    ensures r.0.nodes == MixedNodes && r.0.grads == [0.0, 0.0, 0.0, 0.0, 0.0]
  {
    var (g1, a) := Leaf(Empty, -2.0, Some("a"));
    var (g2, b) := Leaf(g1, 3.0, Some("b"));
    assert g2.nodes == [Node(-2.0, [], None, Some("a")), Node(3.0, [], None, Some("b"))];
    assert g2.grads == [0.0, 0.0];
    var (g3, d) := Engine.Product(g2, a, b);
    ProductAppends(g2, a, b);
    var (g4, e) := Engine.Sum(g3, a, b);
    SumAppends(g3, a, b);
    var (g5, f) := Engine.Product(g4, d, e);
    ProductAppends(g4, d, e);
    MixedBuilt(g5);
    (g5, f)
  }

  lemma MixedBuilt(g: Graph)
    requires g.nodes == MixedNodes && |g.grads| == 5
    ensures Built(g)
  {
    assert DataOf(g, [0, 1]) == [-2.0, 3.0];
    assert DataOf(g, [2, 3]) == [-6.0, 1.0];
  }

  /** `a * b` appends one node holding the product and one zero gradient. */
  lemma ProductAppends(g: Graph, a: nat, b: nat)
    requires WellFormed(g) && a < |g.nodes| && b < |g.nodes|
    ensures var r := Engine.Product(g, a, b);
      && r.0.nodes == g.nodes + [Node(GetData(g, a) * GetData(g, b), [a, b], Some(Multiply), None)]
      && r.0.grads == g.grads + [0.0]
  {
    var r := Engine.Product(g, a, b);
    AppendedShape(g, r, Multiply, [a, b]);
    assert GetData(r.0, r.1) == GetData(g, a) * GetData(g, b);
  }

  /** `a + b` appends one node holding the sum and one zero gradient. */
  lemma SumAppends(g: Graph, a: nat, b: nat)
    requires WellFormed(g) && a < |g.nodes| && b < |g.nodes|
    ensures var r := Engine.Sum(g, a, b);
      && r.0.nodes == g.nodes + [Node(GetData(g, a) + GetData(g, b), [a, b], Some(Add), None)]
      && r.0.grads == g.grads + [0.0]
  {
    AppendedShape(g, Engine.Sum(g, a, b), Add, [a, b]);
  }

  /** An appended node is the only thing added to the arena. */
  lemma AppendedShape(g: Graph, r: (Graph, nat), op: Op, inputs: seq<nat>)
    requires WellFormed(g) && Engine.Appends(g, r, op, inputs)
    ensures r.0.nodes == g.nodes + [Node(GetData(r.0, r.1), inputs, Some(op), None)]
    ensures r.0.grads == g.grads + [0.0]
  {
    assert r.0.nodes == r.0.nodes[..|g.nodes|] + [r.0.nodes[r.1]];
    assert r.0.grads == r.0.grads[..|g.grads|] + [r.0.grads[r.1]];
  }

  /** What each node of the mixed graph pushes into each other node. */
  lemma MixedPushes(x: real)
    ensures forall j: nat :: Backprop.PushOf(MixedNodes)(0, j, x) == 0.0 && Backprop.PushOf(MixedNodes)(1, j, x) == 0.0
    ensures Backprop.PushOf(MixedNodes)(2, 0, x) == 3.0 * x && Backprop.PushOf(MixedNodes)(2, 1, x) == -2.0 * x
    ensures Backprop.PushOf(MixedNodes)(3, 0, x) == x && Backprop.PushOf(MixedNodes)(3, 1, x) == x
    ensures Backprop.PushOf(MixedNodes)(3, 2, x) == 0.0
    ensures Backprop.PushOf(MixedNodes)(4, 2, x) == x && Backprop.PushOf(MixedNodes)(4, 3, x) == -6.0 * x
    ensures Backprop.PushOf(MixedNodes)(4, 0, x) == 0.0 && Backprop.PushOf(MixedNodes)(4, 1, x) == 0.0
  {
    var ns := MixedNodes;
    forall j: nat ensures Backprop.PushOf(ns)(0, j, x) == 0.0 && Backprop.PushOf(ns)(1, j, x) == 0.0 {
      PushLeaf(ns, 0, j, x);
      PushLeaf(ns, 1, j, x);
    }
    PushBinary(ns, 2, 0, x, Multiply, 0, 1);
    PushBinary(ns, 2, 1, x, Multiply, 0, 1);
    PushBinary(ns, 3, 0, x, Add, 0, 1);
    PushBinary(ns, 3, 1, x, Add, 0, 1);
    PushBinary(ns, 3, 2, x, Add, 0, 1);
    PushBinary(ns, 4, 0, x, Multiply, 2, 3);
    PushBinary(ns, 4, 1, x, Multiply, 2, 3);
    PushBinary(ns, 4, 2, x, Multiply, 2, 3);
    PushBinary(ns, 4, 3, x, Multiply, 2, 3);
  }

  // What flows into each node of the mixed graph when every node is
  // swept, in terms of the consumers' gradients.

  lemma InflowIntoE(hs: seq<real>, s: set<nat>)
    requires |hs| == 5 && 4 in s
    ensures Sweep.Inflow(hs, Backprop.PushOf(MixedNodes), s, 3, 5) == -6.0 * hs[4]
  {
    var p := Backprop.PushOf(MixedNodes);
    MixedPushes(hs[4]);
    Backprop.PushDownward(Graph(MixedNodes, hs));
    Sweep.InflowFromAbove(hs, p, s, 3, 4);
  }

  lemma InflowIntoD(hs: seq<real>, s: set<nat>)
    requires |hs| == 5 && 3 in s && 4 in s
    ensures Sweep.Inflow(hs, Backprop.PushOf(MixedNodes), s, 2, 5) == hs[4]
  {
    var p := Backprop.PushOf(MixedNodes);
    MixedPushes(hs[3]);
    MixedPushes(hs[4]);
    Backprop.PushDownward(Graph(MixedNodes, hs));
    Sweep.InflowFromAbove(hs, p, s, 2, 3);
  }

  lemma InflowIntoB(hs: seq<real>, s: set<nat>)
    requires |hs| == 5 && forall i :: 0 <= i < 5 ==> i in s
    ensures Sweep.Inflow(hs, Backprop.PushOf(MixedNodes), s, 1, 5) == hs[3] - 2.0 * hs[2]
  {
    var p := Backprop.PushOf(MixedNodes);
    MixedPushes(hs[0]);
    MixedPushes(hs[1]);
    MixedPushes(hs[2]);
    MixedPushes(hs[3]);
    MixedPushes(hs[4]);
    assert p(0, 1, hs[0]) == 0.0 && p(1, 1, hs[1]) == 0.0;
    assert Sweep.Inflow(hs, p, s, 1, 1) == 0.0;
    assert Sweep.Inflow(hs, p, s, 1, 2) == 0.0;
    assert Sweep.Inflow(hs, p, s, 1, 3) == -2.0 * hs[2];
    assert Sweep.Inflow(hs, p, s, 1, 4) == -2.0 * hs[2] + hs[3];
  }

  lemma InflowIntoA(hs: seq<real>, s: set<nat>)
    requires |hs| == 5 && forall i :: 0 <= i < 5 ==> i in s
    ensures Sweep.Inflow(hs, Backprop.PushOf(MixedNodes), s, 0, 5) == hs[3] + 3.0 * hs[2]
  {
    var p := Backprop.PushOf(MixedNodes);
    MixedPushes(hs[0]);
    MixedPushes(hs[1]);
    MixedPushes(hs[2]);
    MixedPushes(hs[3]);
    MixedPushes(hs[4]);
    assert p(0, 0, hs[0]) == 0.0 && p(1, 0, hs[1]) == 0.0;
    assert Sweep.Inflow(hs, p, s, 0, 1) == 0.0;
    assert Sweep.Inflow(hs, p, s, 0, 2) == 0.0;
    assert Sweep.Inflow(hs, p, s, 0, 3) == 3.0 * hs[2];
    assert Sweep.Inflow(hs, p, s, 0, 4) == 3.0 * hs[2] + hs[3];
  }

  /** `f.backward()` on the mixed graph: d gets e's data, e gets d's data,
      and `a` and `b`, each feeding both d and e, collect both routes:
      a gets 3 - 6 = -3 and b gets -2 - 6 = -8. */
  lemma MixedGradients()
    ensures var (g, f) := Mixed();
      var h := Backprop.BackwardFrom(g, f);
      && GetGrad(h, 4) == 1.0 && GetGrad(h, 3) == -6.0 && GetGrad(h, 2) == 1.0
      && GetGrad(h, 1) == -8.0 && GetGrad(h, 0) == -3.0
  {
    var (g, f) := Mixed();
    MixedBackward(g);
  }

  lemma MixedBackward(g: Graph)
    requires Built(g) && g.nodes == MixedNodes && g.grads == [0.0, 0.0, 0.0, 0.0, 0.0]
    ensures var h := Backprop.BackwardFrom(g, 4);
      && GetGrad(h, 4) == 1.0 && GetGrad(h, 3) == -6.0 && GetGrad(h, 2) == 1.0
      && GetGrad(h, 1) == -8.0 && GetGrad(h, 0) == -3.0
  {
    var h := Backprop.BackwardFrom(g, 4);
    MixedReach(g, 4);
    var hs, s := h.grads, Backprop.Reachable(g, 4);
    Received(g, 4, 3);
    Received(g, 4, 2);
    Received(g, 4, 1);
    Received(g, 4, 0);
    InflowIntoE(hs, s);
    InflowIntoD(hs, s);
    InflowIntoB(hs, s);
    InflowIntoA(hs, s);
  }

  /** A node other than the root that held no gradient before the
      backward pass ends up with exactly what flows into it. */
  lemma Received(g: Graph, r: nat, j: nat)
    requires Built(g) && r < |g.nodes| && j < |g.nodes| && j != r && GetGrad(g, j) == 0.0
    ensures var h := Backprop.BackwardFrom(g, r);
      GetGrad(h, j) == Sweep.Inflow(h.grads, Backprop.PushOf(g.nodes), Backprop.Reachable(g, r), j, r + 1)
  {
  }

  /** The output reaches every node of the mixed graph. */
  lemma MixedReach(g: Graph, f: nat)
    requires WellFormed(g) && f == 4 && |g.nodes| == 5
    requires g.nodes[4].prev == [2, 3] && g.nodes[2].prev == [0, 1]
    ensures forall i :: 0 <= i < 5 ==> i in Backprop.Reachable(g, f)
  {
    var adj := Adj(g);
    AdjOrdered(g);
    Dag.ReachHasRoot(adj, f);
    Dag.ReachClosed(adj, f);
    assert adj[4][0] == 2 && adj[4][1] == 3;
    assert adj[2][0] == 0 && adj[2][1] == 1;
  }
}
