/** The earlier draft of the engine: a four-operation tag, a node with data,
    dependencies, tag and label but no gradient, and the four binary
    operators. It is the engine with gradients erased: lifting a draft
    arena into an engine graph turns each draft operator into the engine's
    operator of the same name. */
module DraftAutograd {
  import opened Results
  import Ops
  import Values
  import Engine

  datatype Operation = Add | Subtract | Multiply | Divide

  /** `to_string` of a tag. */
  function ToString(op: Operation): (s: string)
    ensures |s| == 1
  {
    match op
    case Add => "+"
    case Subtract => "-"
    case Multiply => "*"
    case Divide => "/"
  }

  /** The engine operation a draft tag stands for. */
  function AsEngineOp(op: Operation): (o: Ops.Op)
    ensures Ops.Arity(o) == 2
  {
    match op
    case Add => Ops.Add
    case Subtract => Ops.Subtract
    case Multiply => Ops.Multiply
    case Divide => Ops.Divide
  }

  /** Distinct tags print differently, and each prints as the engine's
      name for the same operation. */
  lemma ToStringMatchesEngine(a: Operation, b: Operation)
    ensures ToString(a) == Ops.Name(AsEngineOp(a))
    ensures ToString(a) == ToString(b) <==> a == b
  {
  }

  datatype Value = Value(data: real, prev: seq<nat>, op: Option<Operation>, caption: Option<string>)

  /** Dependencies point at earlier nodes. */
  predicate WellFormed(vs: seq<Value>) {
    forall i, k :: 0 <= i < |vs| && 0 <= k < |vs[i].prev| ==> vs[i].prev[k] < i
  }

  /** The three constructors: a leaf from data and label; a derived node
      from data, dependencies and tag, with or without a label. */
  function New(vs: seq<Value>, data: real, prev: seq<nat>, op: Option<Operation>, caption: Option<string>): (r: (seq<Value>, nat))
    requires WellFormed(vs) && forall k :: 0 <= k < |prev| ==> prev[k] < |vs|
    ensures |r.0| == |vs| + 1 && r.0[..|vs|] == vs && r.1 == |vs| && WellFormed(r.0)
    ensures r.0[r.1] == Value(data, prev, op, caption)
  {
    (vs + [Value(data, prev, op, caption)], |vs|)
  }

  /** `make_value`: a leaf with no dependencies and no tag. */
  function MakeValue(vs: seq<Value>, x: real, caption: Option<string>): (r: (seq<Value>, nat))
    requires WellFormed(vs)
    ensures |r.0| == |vs| + 1 && r.0[..|vs|] == vs && r.1 == |vs| && WellFormed(r.0)
    ensures r.0[r.1].data == x && r.0[r.1].caption == caption
    ensures r.0[r.1].prev == [] && r.0[r.1].op == None
  {
    New(vs, x, [], None, caption)
  }

  /** `set_label`: only the label of node `v` changes. */
  function SetLabel(vs: seq<Value>, v: nat, s: string): (ws: seq<Value>)
    requires v < |vs|
    ensures |ws| == |vs| && ws[v].caption == Some(s)
    ensures ws[v].data == vs[v].data && ws[v].prev == vs[v].prev && ws[v].op == vs[v].op
    ensures forall u :: 0 <= u < |vs| && u != v ==> ws[u] == vs[u]
    ensures WellFormed(vs) ==> WellFormed(ws)
  {
    vs[v := vs[v].(caption := Some(s))]
  }

  /** The binary operators `+`, `-` and `*`: a node with the combined data,
      dependencies `[a, b]` in that order, and the matching tag. */
  function Binary(vs: seq<Value>, op: Operation, a: nat, b: nat): (r: (seq<Value>, nat))
    requires WellFormed(vs) && a < |vs| && b < |vs| && op != Divide
    ensures |r.0| == |vs| + 1 && r.0[..|vs|] == vs && r.1 == |vs| && WellFormed(r.0)
    ensures r.0[r.1].prev == [a, b] && r.0[r.1].op == Some(op) && r.0[r.1].caption == None
    ensures op == Add ==> r.0[r.1].data == vs[a].data + vs[b].data
    ensures op == Subtract ==> r.0[r.1].data == vs[a].data - vs[b].data
    ensures op == Multiply ==> r.0[r.1].data == vs[a].data * vs[b].data
  {
    var x, y := vs[a].data, vs[b].data;
    var data := match op
      case Add => x + y
      case Subtract => x - y
      case Multiply => x * y;
    New(vs, data, [a, b], Some(op), None)
  }

  /** The operator `/`: fails on a zero divisor before building anything. */
  function Quotient(vs: seq<Value>, a: nat, b: nat): (r: Result<(seq<Value>, nat)>)
    requires WellFormed(vs) && a < |vs| && b < |vs|
    ensures r.Err? <==> vs[b].data == 0.0
    ensures r.Err? ==> r.error == DivisionByZero
    ensures r.Ok? ==> && |r.value.0| == |vs| + 1 && r.value.0[..|vs|] == vs
                      && r.value.1 == |vs| && WellFormed(r.value.0)
                      && r.value.0[r.value.1] == Value(vs[a].data / vs[b].data, [a, b], Some(Divide), None)
  {
    if vs[b].data == 0.0 then Err(DivisionByZero)
    else Ok(New(vs, vs[a].data / vs[b].data, [a, b], Some(Divide), None))
  }

  // The draft is the engine without gradients.

  function LiftOp(op: Option<Operation>): Option<Ops.Op> {
    if op.None? then None else Some(AsEngineOp(op.value))
  }

  function LiftNode(v: Value): Values.Node {
    Values.Node(v.data, v.prev, LiftOp(v.op), v.caption)
  }

  /** The engine graph holding the same nodes, every gradient zero. */
  function Lift(vs: seq<Value>): (g: Values.Graph)
    ensures |g.nodes| == |g.grads| == |vs|
    ensures forall i :: 0 <= i < |vs| ==> g.nodes[i] == LiftNode(vs[i]) && g.grads[i] == 0.0
    ensures WellFormed(vs) ==> Values.WellFormed(g)
  {
    Values.Graph(seq(|vs|, i requires 0 <= i < |vs| => LiftNode(vs[i])), seq(|vs|, i => 0.0))
  }

  lemma LiftAppend(vs: seq<Value>, v: Value)
    ensures Lift(vs + [v]).nodes == Lift(vs).nodes + [LiftNode(v)]
    ensures Lift(vs + [v]).grads == Lift(vs).grads + [0.0]
  {
  }

  /** `+`, `-` and `*` of the draft are the engine's operators on the
      lifted graph: same node appended, same index returned. */
  lemma BinaryIsEngineForward(vs: seq<Value>, op: Operation, a: nat, b: nat, e: Ops.ExpFn)
    requires WellFormed(vs) && a < |vs| && b < |vs| && op != Divide
    ensures var r := Binary(vs, op, a, b);
      Engine.Forward(Lift(vs), AsEngineOp(op), [a, b], e) == Ok((Lift(r.0), r.1))
  {
    var g := Lift(vs);
    BinaryNode(vs, op, a, b, e);
    Engine.ForwardBuilds(g, AsEngineOp(op), [a, b], e);
  }

  /** The node the engine's forward step would append on the lifted graph
      is the lift of the draft's new node. */
  lemma BinaryNode(vs: seq<Value>, op: Operation, a: nat, b: nat, e: Ops.ExpFn)
    requires WellFormed(vs) && a < |vs| && b < |vs| && op != Divide
    ensures var g := Lift(vs);
      && Values.AllIn(g, [a, b]) && Ops.Accepts(AsEngineOp(op), Values.DataOf(g, [a, b]))
      && var c := Ops.Compute(AsEngineOp(op), Values.DataOf(g, [a, b]), e);
         Values.Construct(g, c, [a, b], Some(AsEngineOp(op)), None) == (Lift(Binary(vs, op, a, b).0), Binary(vs, op, a, b).1)
  {
    var r := Binary(vs, op, a, b);
    BinaryData(vs, op, a, b, e);
    var c := Ops.Compute(AsEngineOp(op), Values.DataOf(Lift(vs), [a, b]), e);
    AppendIsLift(vs, r.0, c, [a, b], AsEngineOp(op));
  }

  /** The engine's operation on the lifted operands' data computes the
      draft's new data. */
  lemma BinaryData(vs: seq<Value>, op: Operation, a: nat, b: nat, e: Ops.ExpFn)
    requires WellFormed(vs) && a < |vs| && b < |vs| && op != Divide
    ensures var g := Lift(vs);
      && Values.AllIn(g, [a, b]) && Ops.Accepts(AsEngineOp(op), Values.DataOf(g, [a, b]))
      && Ops.Compute(AsEngineOp(op), Values.DataOf(g, [a, b]), e) == Binary(vs, op, a, b).0[|vs|].data
  {
    LiftedPair(vs, a, b);
    BinaryComputes(vs, op, a, b, e);
  }

  lemma LiftedPair(vs: seq<Value>, a: nat, b: nat)
    requires a < |vs| && b < |vs|
    ensures Values.AllIn(Lift(vs), [a, b]) && Values.DataOf(Lift(vs), [a, b]) == [vs[a].data, vs[b].data]
  {
    var g := Lift(vs);
    Engine.PairData(g, a, b);
    assert Values.GetData(g, a) == vs[a].data && Values.GetData(g, b) == vs[b].data;
  }

  lemma BinaryComputes(vs: seq<Value>, op: Operation, a: nat, b: nat, e: Ops.ExpFn)
    requires WellFormed(vs) && a < |vs| && b < |vs| && op != Divide
    ensures Ops.Compute(AsEngineOp(op), [vs[a].data, vs[b].data], e) == Binary(vs, op, a, b).0[|vs|].data
  {
    EngineComputes(op, vs[a].data, vs[b].data, e);
  }

  /** The engine's rule for each draft operation other than division. */
  lemma EngineComputes(op: Operation, x: real, y: real, e: Ops.ExpFn)
    requires op != Divide
    ensures op == Add ==> Ops.Compute(AsEngineOp(op), [x, y], e) == x + y
    ensures op == Subtract ==> Ops.Compute(AsEngineOp(op), [x, y], e) == x - y
    ensures op == Multiply ==> Ops.Compute(AsEngineOp(op), [x, y], e) == x * y
  {
  }

  /** Constructing, on the lifted arena, the lift of a draft's appended
      node gives the lift of the grown arena. */
  lemma AppendIsLift(vs: seq<Value>, ws: seq<Value>, d: real, prev: seq<nat>, op: Ops.Op)
    requires WellFormed(vs) && Values.AllIn(Lift(vs), prev)
    requires |ws| == |vs| + 1 && ws[..|vs|] == vs
    requires LiftNode(ws[|vs|]) == Values.Node(d, prev, Some(op), None)
    ensures Values.Construct(Lift(vs), d, prev, Some(op), None) == (Lift(ws), |vs|)
  {
    var c := Values.Construct(Lift(vs), d, prev, Some(op), None);
    SameAppend(vs, ws, c.0);
  }

  /** An engine graph that extends the lifted arena by the lift of the
      draft's new node is the lift of the grown arena. */
  lemma SameAppend(vs: seq<Value>, ws: seq<Value>, h: Values.Graph)
    requires |ws| == |vs| + 1 && ws[..|vs|] == vs
    requires Values.WellFormed(h) && Values.Extends(Lift(vs), h) && |h.nodes| == |vs| + 1
    requires h.nodes[|vs|] == LiftNode(ws[|vs|]) && h.grads[|vs|] == 0.0
    ensures h == Lift(ws)
  {
    assert ws == vs + [ws[|vs|]];
    LiftAppend(vs, ws[|vs|]);
    assert h.nodes == h.nodes[..|vs|] + [h.nodes[|vs|]];
    assert h.grads == h.grads[..|vs|] + [h.grads[|vs|]];
  }

  /** The draft's `/` fails exactly when the engine's does, and otherwise
      builds the same node. */
  lemma QuotientIsEngineForward(vs: seq<Value>, a: nat, b: nat, e: Ops.ExpFn)
    requires WellFormed(vs) && a < |vs| && b < |vs|
    ensures var r := Quotient(vs, a, b);
      var f := Engine.Forward(Lift(vs), Ops.Divide, [a, b], e);
      && (r.Err? <==> f.Err?)
      && (r.Err? ==> r.error == f.error)
      && (r.Ok? ==> f.value == (Lift(r.value.0), r.value.1))
  {
    var r := Quotient(vs, a, b);
    var g := Lift(vs);
    var f := Engine.Forward(g, Ops.Divide, [a, b], e);
    var xs := Values.DataOf(g, [a, b]);
    assert xs[0] == vs[a].data && xs[1] == vs[b].data;
    if r.Ok? {
      SameAppend(vs, r.value.0, f.value.0);
    }
  }
}
