/** The node record of the computation graph, held in an append-only arena.
    A node's identity is its index; its gradient lives in a parallel
    sequence, because gradients are the only thing that changes after a
    node is created (apart from its label). */
module Values {
  import opened Results
  import opened Ops
  import Dag

  /** Data, the ordered dependencies (`prev`), the producing operation
      (absent for leaves) and an optional label. */
  datatype Node = Node(data: real, prev: seq<nat>, op: Option<Op>, caption: Option<string>)

  datatype Graph = Graph(nodes: seq<Node>, grads: seq<real>)

  /** One gradient per node, and every dependency was created before the
      node that uses it. */
  predicate WellFormed(g: Graph) {
    && |g.grads| == |g.nodes|
    && forall i, k :: 0 <= i < |g.nodes| && 0 <= k < |g.nodes[i].prev| ==> g.nodes[i].prev[k] < i
  }

  predicate AllIn(g: Graph, vs: seq<nat>) {
    forall k :: 0 <= k < |vs| ==> vs[k] < |g.nodes|
  }

  function GetData(g: Graph, v: nat): real
    requires v < |g.nodes|
  {
    g.nodes[v].data
  }

  function GetGrad(g: Graph, v: nat): real
    requires v < |g.grads|
  {
    g.grads[v]
  }

  function GetPrev(g: Graph, v: nat): seq<nat>
    requires v < |g.nodes|
  {
    g.nodes[v].prev
  }

  function GetOperation(g: Graph, v: nat): Option<Op>
    requires v < |g.nodes|
  {
    g.nodes[v].op
  }

  function GetLabel(g: Graph, v: nat): Option<string>
    requires v < |g.nodes|
  {
    g.nodes[v].caption
  }

  /** The data of the listed nodes, in order. */
  function DataOf(g: Graph, vs: seq<nat>): (xs: seq<real>)
    requires AllIn(g, vs)
    ensures |xs| == |vs|
    ensures forall k :: 0 <= k < |vs| ==> xs[k] == g.nodes[vs[k]].data
  {
    seq(|vs|, k requires 0 <= k < |vs| => g.nodes[vs[k]].data)
  }

  /** What the public operators guarantee of every node they build: its
      operation got as many inputs as it takes, and a Divide node's divisor
      is nonzero. */
  predicate Built(g: Graph) {
    && WellFormed(g)
    && forall i :: 0 <= i < |g.nodes| && g.nodes[i].op.Some? ==>
         AllIn(g, g.nodes[i].prev) && Accepts(g.nodes[i].op.value, DataOf(g, g.nodes[i].prev))
  }

  /** The dependency lists, as the reachability module sees them. */
  function Adj(g: Graph): (adj: Dag.Adjacency)
    ensures |adj| == |g.nodes|
    ensures forall i :: 0 <= i < |g.nodes| ==> adj[i] == g.nodes[i].prev
  {
    seq(|g.nodes|, i requires 0 <= i < |g.nodes| => g.nodes[i].prev)
  }

  lemma AdjOrdered(g: Graph)
    requires WellFormed(g)
    ensures Dag.Ordered(Adj(g))
  {
  }

  /** `h` grew from `g` by appending: every existing node and gradient is
      kept as it was. */
  predicate Extends(g: Graph, h: Graph) {
    && |g.nodes| <= |h.nodes| && |g.grads| <= |h.grads|
    && h.nodes[..|g.nodes|] == g.nodes
    && h.grads[..|g.grads|] == g.grads
  }

  lemma ExtendsKeeps(g: Graph, h: Graph)
    requires Extends(g, h)
    ensures forall v :: 0 <= v < |g.nodes| ==> h.nodes[v] == g.nodes[v]
    ensures forall v :: 0 <= v < |g.grads| ==> h.grads[v] == g.grads[v]
  {
    assert forall v :: 0 <= v < |g.nodes| ==> h.nodes[v] == h.nodes[..|g.nodes|][v];
    assert forall v :: 0 <= v < |g.grads| ==> h.grads[v] == h.grads[..|g.grads|][v];
  }

  /** A node that existed before an extension holds the same data after. */
  lemma KeptData(g: Graph, h: Graph, v: nat)
    requires Extends(g, h) && v < |g.nodes|
    ensures v < |h.nodes| && GetData(h, v) == GetData(g, v)
  {
    assert h.nodes[..|g.nodes|][v] == h.nodes[v];
  }

  /** Data of nodes that existed before an extension reads the same after. */
  lemma DataOfKept(g: Graph, h: Graph, vs: seq<nat>)
    requires Extends(g, h) && AllIn(g, vs)
    ensures AllIn(h, vs) && DataOf(h, vs) == DataOf(g, vs)
  {
    ExtendsKeeps(g, h);
  }

  lemma ExtendsTransitive(a: Graph, b: Graph, c: Graph)
    requires Extends(a, b) && Extends(b, c)
    ensures Extends(a, c)
  {
    assert c.nodes[..|a.nodes|] == c.nodes[..|b.nodes|][..|a.nodes|];
    assert c.grads[..|a.grads|] == c.grads[..|b.grads|][..|a.grads|];
  }

  /** The `Value` constructors: a leaf from data and label, or a derived
      node from data, dependencies, operation and optional label. The new
      node gets the next index and a zero gradient; nothing else changes. */
  function Construct(g: Graph, data: real, prev: seq<nat>, op: Option<Op>, caption: Option<string>): (r: (Graph, nat))
    requires WellFormed(g) && AllIn(g, prev)
    ensures WellFormed(r.0) && Extends(g, r.0)
    ensures r.1 == |g.nodes| && |r.0.nodes| == |g.nodes| + 1
    ensures GetData(r.0, r.1) == data && GetPrev(r.0, r.1) == prev
    ensures GetOperation(r.0, r.1) == op && GetLabel(r.0, r.1) == caption
    ensures GetGrad(r.0, r.1) == 0.0
  {
    (Graph(g.nodes + [Node(data, prev, op, caption)], g.grads + [0.0]), |g.nodes|)
  }

  /** A leaf: the given data and label, no dependencies, no operation. */
  function Leaf(g: Graph, data: real, caption: Option<string>): (r: (Graph, nat))
    requires WellFormed(g)
    ensures WellFormed(r.0) && Extends(g, r.0)
    ensures r.1 == |g.nodes| && |r.0.nodes| == |g.nodes| + 1
    ensures GetData(r.0, r.1) == data && GetLabel(r.0, r.1) == caption
    ensures GetPrev(r.0, r.1) == [] && GetOperation(r.0, r.1) == None
    ensures GetGrad(r.0, r.1) == 0.0
    ensures Built(g) ==> Built(r.0)
  {
    var r := Construct(g, data, [], None, caption);
    assert r.0.nodes[..|g.nodes|] == g.nodes;
    assert Built(g) ==> Built(r.0) by {
      if Built(g) {
        BuiltKeptByAppend(g, r.0);
      }
    }
    r
  }

  /** Appending a node that satisfies the built conditions keeps a graph
      built. */
  lemma BuiltKeptByAppend(g: Graph, h: Graph)
    requires Built(g) && WellFormed(h) && Extends(g, h) && |h.nodes| == |g.nodes| + 1
    requires var n := h.nodes[|g.nodes|];
             n.op.Some? ==> AllIn(h, n.prev) && Accepts(n.op.value, DataOf(h, n.prev))
    ensures Built(h)
  {
    forall i | 0 <= i < |h.nodes| && h.nodes[i].op.Some?
      ensures AllIn(h, h.nodes[i].prev) && Accepts(h.nodes[i].op.value, DataOf(h, h.nodes[i].prev))
    {
      if i < |g.nodes| {
        assert h.nodes[i] == g.nodes[i];
        assert DataOf(h, h.nodes[i].prev) == DataOf(g, g.nodes[i].prev);
      }
    }
  }

  /** `set_label`: only the label of `v` changes. */
  function SetLabel(g: Graph, v: nat, s: string): (h: Graph)
    requires v < |g.nodes|
    ensures |h.nodes| == |g.nodes| && h.grads == g.grads
    ensures GetLabel(h, v) == Some(s)
    ensures GetData(h, v) == GetData(g, v) && GetPrev(h, v) == GetPrev(g, v)
    ensures GetOperation(h, v) == GetOperation(g, v)
    ensures forall u :: 0 <= u < |g.nodes| && u != v ==> h.nodes[u] == g.nodes[u]
    ensures WellFormed(g) ==> WellFormed(h)
    ensures Built(g) ==> Built(h)
  {
    var h := Graph(g.nodes[v := g.nodes[v].(caption := Some(s))], g.grads);
    assert forall u :: 0 <= u < |g.nodes| ==> h.nodes[u].prev == g.nodes[u].prev && h.nodes[u].data == g.nodes[u].data;
    assert forall u :: 0 <= u < |g.nodes| ==> h.nodes[u].op == g.nodes[u].op;
    assert forall vs :: AllIn(g, vs) ==> DataOf(h, vs) == DataOf(g, vs);
    h
  }

  /** `set_grad`: the gradient of `v` becomes `x`; nodes and the other
      gradients are untouched. */
  function SetGrad(g: Graph, v: nat, x: real): (h: Graph)
    requires v < |g.grads|
    ensures h.nodes == g.nodes && |h.grads| == |g.grads|
    ensures GetGrad(h, v) == x
    ensures forall u :: 0 <= u < |g.grads| && u != v ==> GetGrad(h, u) == GetGrad(g, u)
    ensures WellFormed(g) ==> WellFormed(h)
    ensures Built(g) ==> Built(h)
  {
    g.(grads := g.grads[v := x])
  }

  /** `add_grad`: the gradient of `v` grows by `d`, by reading it and
      setting the sum; nodes and the other gradients are untouched. */
  function AddGrad(g: Graph, v: nat, d: real): (h: Graph)
    requires v < |g.grads|
    ensures h.nodes == g.nodes && |h.grads| == |g.grads|
    ensures GetGrad(h, v) == GetGrad(g, v) + d
    ensures forall u :: 0 <= u < |g.grads| && u != v ==> GetGrad(h, u) == GetGrad(g, u)
    ensures WellFormed(g) ==> WellFormed(h)
    ensures Built(g) ==> Built(h)
  {
    SetGrad(g, v, GetGrad(g, v) + d)
  }

  /** Accumulation composes: two contributions equal their sum. */
  lemma AddGradTwice(g: Graph, v: nat, a: real, b: real)
    requires v < |g.grads|
    ensures AddGrad(AddGrad(g, v, a), v, b) == AddGrad(g, v, a + b)
  {
  }

  /** Contributions to different nodes can be made in either order. */
  lemma AddGradCommutes(g: Graph, u: nat, a: real, v: nat, b: real)
    requires u < |g.grads| && v < |g.grads|
    ensures AddGrad(AddGrad(g, u, a), v, b) == AddGrad(AddGrad(g, v, b), u, a)
  {
    if u == v {
      AddGradTwice(g, u, a, b);
      AddGradTwice(g, u, b, a);
      assert a + b == b + a;
    } else {
      var l := AddGrad(AddGrad(g, u, a), v, b);
      var r := AddGrad(AddGrad(g, v, b), u, a);
      assert l.grads == r.grads;
    }
  }

  /** Setting overwrites whatever was accumulated before. */
  lemma SetGradOverwrites(g: Graph, v: nat, d: real, x: real)
    requires v < |g.grads|
    ensures SetGrad(AddGrad(g, v, d), v, x) == SetGrad(g, v, x)
    ensures AddGrad(SetGrad(g, v, x), v, d) == SetGrad(g, v, x + d)
  {
  }
}
