/** The six operations' forward and backward steps over the arena, and the
    public operators that build the graph out of them. */
module Engine {
  import opened Results
  import opened Ops
  import opened Values

  /** Sum of the coefficients whose target is `j`: how much a backward step
      adds to node `j` per unit of output gradient. A node that appears
      twice among the inputs collects both coefficients. */
  function Routed(targets: seq<nat>, coeffs: seq<real>, j: nat): real
    requires |targets| == |coeffs|
  {
    if |targets| == 0 then 0.0
    else (if targets[0] == j then coeffs[0] else 0.0) + Routed(targets[1..], coeffs[1..], j)
  }

  lemma RoutedAbsent(targets: seq<nat>, coeffs: seq<real>, j: nat)
    requires |targets| == |coeffs| && j !in targets
    ensures Routed(targets, coeffs, j) == 0.0
  {
    if |targets| > 0 {
      assert j !in targets[1..];
      RoutedAbsent(targets[1..], coeffs[1..], j);
    }
  }

  lemma RoutedPair(a: nat, b: nat, c0: real, c1: real, j: nat)
    ensures Routed([a, b], [c0, c1], j) == (if a == j then c0 else 0.0) + (if b == j then c1 else 0.0)
  {
    assert [a, b][1..] == [b] && [c0, c1][1..] == [c1];
    assert [b][1..] == [] && [c1][1..] == [];
    assert Routed([b], [c1], j) == (if b == j then c1 else 0.0) + Routed([], [], j);
  }

  /** Coefficients scaled by a common factor route scaled by that factor. */
  lemma {:induction false} RoutedScaled(targets: seq<nat>, coeffs: seq<real>, amounts: seq<real>, f: real, j: nat)
    requires |targets| == |coeffs| == |amounts|
    requires forall k :: 0 <= k < |coeffs| ==> amounts[k] == coeffs[k] * f
    ensures Routed(targets, amounts, j) == Routed(targets, coeffs, j) * f
  {
    if |targets| > 0 {
      RoutedScaled(targets[1..], coeffs[1..], amounts[1..], f, j);
    }
  }

  /** Adds `amounts[k]` into node `targets[k]` with `add_grad`, for k in
      order. Each node ends up with the sum of the amounts aimed at it. */
  function Deposit(g: Graph, targets: seq<nat>, amounts: seq<real>): (h: Graph)
    requires |targets| == |amounts| && |g.grads| == |g.nodes| && AllIn(g, targets)
    ensures h.nodes == g.nodes && |h.grads| == |g.grads|
    ensures forall j :: 0 <= j < |g.grads| ==> h.grads[j] == g.grads[j] + Routed(targets, amounts, j)
    decreases |targets|
  {
    if |targets| == 0 then g
    else
      var g1 := AddGrad(g, targets[0], amounts[0]);
      var h := Deposit(g1, targets[1..], amounts[1..]);
      assert forall j :: 0 <= j < |g.grads| ==> g1.grads[j] == g.grads[j] + (if targets[0] == j then amounts[0] else 0.0);
      h
  }

  /** `forward`: checks the input count, then (Divide only) the divisor,
      and only then appends the output node, whose dependencies are the
      inputs in order (repeats kept), whose operation is `op`, and whose
      data is the operation applied to the inputs' data. */
  function Forward(g: Graph, op: Op, inputs: seq<nat>, e: ExpFn): (r: Result<(Graph, nat)>)
    requires WellFormed(g) && AllIn(g, inputs)
    ensures |inputs| != Arity(op) ==> r == Err(ArityMismatch(Arity(op), |inputs|))
    ensures |inputs| == Arity(op) && op == Divide && GetData(g, inputs[1]) == 0.0 ==> r == Err(DivisionByZero)
    ensures r.Ok? <==> Accepts(op, DataOf(g, inputs))
    ensures r.Ok? ==>
      && WellFormed(r.value.0) && Extends(g, r.value.0)
      && r.value.1 == |g.nodes| && |r.value.0.nodes| == |g.nodes| + 1
      && GetData(r.value.0, r.value.1) == Compute(op, DataOf(g, inputs), e)
      && GetPrev(r.value.0, r.value.1) == inputs
      && GetOperation(r.value.0, r.value.1) == Some(op)
      && GetLabel(r.value.0, r.value.1) == None
      && GetGrad(r.value.0, r.value.1) == 0.0
    ensures r.Ok? && Built(g) ==> Built(r.value.0)
  {
    if |inputs| != Arity(op) then Err(ArityMismatch(Arity(op), |inputs|))
    else if op == Divide && GetData(g, inputs[1]) == 0.0 then Err(DivisionByZero)
    else
      var xs := DataOf(g, inputs);
      var r := Construct(g, Compute(op, xs, e), inputs, Some(op), None);
      assert Built(g) ==> Built(r.0) by {
        if Built(g) {
          assert r.0.nodes[r.1].prev == inputs;
          assert DataOf(r.0, inputs) == xs;
          BuiltKeptByAppend(g, r.0);
        }
      }
      Ok(r)
  }

  /** `backward`: checks the input count, then adds each input's share of
      the output's gradient into that input with `add_grad`, in input
      order. The shares are the operation's partial derivatives times the
      output's gradient (see `Shares`). */
  function Backward(g: Graph, op: Op, inputs: seq<nat>, out: nat): (r: Result<Graph>)
    requires WellFormed(g) && AllIn(g, inputs) && out < |g.nodes|
    requires op == Divide && |inputs| == 2 ==> GetData(g, inputs[1]) != 0.0
    ensures r.Err? <==> |inputs| != Arity(op)
    ensures r.Err? ==> r.error == ArityMismatch(Arity(op), |inputs|)
    ensures r.Ok? ==> r.value.nodes == g.nodes && |r.value.grads| == |g.grads|
    ensures r.Ok? ==> forall j :: 0 <= j < |g.grads| && j !in inputs ==> r.value.grads[j] == g.grads[j]
    ensures r.Ok? && (op == Multiply ==> out !in inputs) ==>
      forall j :: 0 <= j < |g.grads| ==>
        r.value.grads[j] == g.grads[j]
          + Routed(inputs, Shares(op, DataOf(g, inputs), GetData(g, out), g.grads[out]), j)
  {
    if |inputs| != Arity(op) then Err(ArityMismatch(Arity(op), |inputs|))
    else if op == Multiply then Ok(MultiplyBackward(g, inputs, out))
    else
      var amounts := Shares(op, DataOf(g, inputs), GetData(g, out), GetGrad(g, out));
      var h := Deposit(g, inputs, amounts);
      assert forall j :: 0 <= j < |g.grads| && j !in inputs ==> h.grads[j] == g.grads[j] by {
        forall j | 0 <= j < |g.grads| && j !in inputs ensures h.grads[j] == g.grads[j] {
          RoutedAbsent(inputs, amounts, j);
        }
      }
      Ok(h)
  }

  /** The amount each backward rule adds to each input, written as the
      operations write it, from the inputs' data, the output's data `y`
      and the output's gradient `og`: always the input's partial
      derivative times `og`. */
  function Shares(op: Op, xs: seq<real>, y: real, og: real): (r: seq<real>)
    requires Accepts(op, xs)
    ensures |r| == Arity(op)
  {
    match op
    case Add => [og, og]
    case Subtract => [og, -1.0 * og]
    case Multiply => [xs[1] * og, xs[0] * og]
    case Divide => [(1.0 / xs[1]) * og, y * (-1.0 / xs[1]) * og]
    case Exp => [y * og]
    case Tanh => [(1.0 - y * y) * og]
  }

  /** Every share is the input's partial derivative times the output's
      gradient. */
  lemma SharesArePartials(op: Op, xs: seq<real>, y: real, og: real)
    requires Accepts(op, xs)
    ensures forall k :: 0 <= k < Arity(op) ==> Shares(op, xs, y, og)[k] == Partials(op, xs, y)[k] * og
  {
  }

  /** Multiply's backward step, which reads the output's gradient again
      after the first `add_grad`; the second read differs from the first
      only if the output is its own first input. */
  function MultiplyBackward(g: Graph, inputs: seq<nat>, out: nat): (h: Graph)
    requires WellFormed(g) && AllIn(g, inputs) && out < |g.nodes| && |inputs| == 2
    ensures h.nodes == g.nodes && |h.grads| == |g.grads|
    ensures forall j :: 0 <= j < |g.grads| && j !in inputs ==> h.grads[j] == g.grads[j]
    ensures out !in inputs ==>
      forall j :: 0 <= j < |g.grads| ==>
        h.grads[j] == g.grads[j] + Routed(inputs, Shares(Multiply, DataOf(g, inputs), GetData(g, out), g.grads[out]), j)
  {
    var a := GetData(g, inputs[0]);
    var b := GetData(g, inputs[1]);
    var g1 := AddGrad(g, inputs[0], b * GetGrad(g, out));
    var h := AddGrad(g1, inputs[1], a * GetGrad(g1, out));
    assert DataOf(g, inputs) == [a, b];
    assert inputs == [inputs[0], inputs[1]];
    assert out !in inputs ==> GetGrad(g1, out) == g.grads[out];
    assert out !in inputs ==>
      Shares(Multiply, DataOf(g, inputs), GetData(g, out), g.grads[out]) == [b * GetGrad(g, out), a * GetGrad(g1, out)]
    by {
      if out !in inputs {
        var sh := Shares(Multiply, [a, b], GetData(g, out), g.grads[out]);
        assert sh[0] == b * g.grads[out] && sh[1] == a * g.grads[out];
        assert sh[0] == b * GetGrad(g, out) && sh[1] == a * GetGrad(g1, out);
      }
    }
    assert forall j :: 0 <= j < |g.grads| ==>
      h.grads[j] == g.grads[j] + Routed(inputs, [b * GetGrad(g, out), a * GetGrad(g1, out)], j)
    by {
      forall j | 0 <= j < |g.grads|
        ensures h.grads[j] == g.grads[j] + Routed(inputs, [b * GetGrad(g, out), a * GetGrad(g1, out)], j)
      {
        TwoDeposits(g, inputs[0], inputs[1], b * GetGrad(g, out), a * GetGrad(g1, out), j);
      }
    }
    h
  }

  /** Two `add_grad` calls in a row, as a routed sum. */
  lemma TwoDeposits(g: Graph, i0: nat, i1: nat, c0: real, c1: real, j: nat)
    requires i0 < |g.grads| && i1 < |g.grads| && j < |g.grads|
    ensures AddGrad(AddGrad(g, i0, c0), i1, c1).grads[j] == g.grads[j] + Routed([i0, i1], [c0, c1], j)
  {
    RoutedPair(i0, i1, c0, c1, j);
  }

  /** A node whose two inputs are the same node passes that node both
      shares: for `a + a` the node gains twice the output's gradient, and
      for `a * a` twice a's data times it. */
  lemma BackwardRepeatedInput(g: Graph, op: Op, a: nat, out: nat)
    requires WellFormed(g) && a < |g.nodes| && out < |g.nodes| && out != a
    requires Arity(op) == 2 && (op == Divide ==> GetData(g, a) != 0.0)
    ensures Backward(g, op, [a, a], out).Ok?
    ensures var s := Shares(op, [GetData(g, a), GetData(g, a)], GetData(g, out), GetGrad(g, out));
            GetGrad(Backward(g, op, [a, a], out).value, a) == GetGrad(g, a) + s[0] + s[1]
    ensures op == Add ==> GetGrad(Backward(g, op, [a, a], out).value, a) == GetGrad(g, a) + 2.0 * GetGrad(g, out)
    ensures op == Multiply ==>
      GetGrad(Backward(g, op, [a, a], out).value, a) == GetGrad(g, a) + 2.0 * GetData(g, a) * GetGrad(g, out)
  {
    var xs := DataOf(g, [a, a]);
    assert xs == [GetData(g, a), GetData(g, a)];
    var s := Shares(op, xs, GetData(g, out), GetGrad(g, out));
    RoutedPair(a, a, s[0], s[1], a);
    assert [a, a] == [a, a][0..1] + [a];
  }

  /** `backward` may be called with an output that is one of its own
      inputs. Add reads the output's gradient once, before either deposit,
      so `a + a` routed back into `a` triples a's gradient. */
  lemma BackwardOwnInput(g: Graph, a: nat)
    requires WellFormed(g) && a < |g.nodes|
    ensures Backward(g, Add, [a, a], a).Ok?
    ensures GetGrad(Backward(g, Add, [a, a], a).value, a) == 3.0 * GetGrad(g, a)
  {
    var s := Shares(Add, DataOf(g, [a, a]), GetData(g, a), GetGrad(g, a));
    RoutedPair(a, a, s[0], s[1], a);
    assert [a, a] == [a, a][0..1] + [a];
  }

  // The public operators. Each hands its operands, in order, to the
  // matching operation's forward step; none but division can fail. Each
  // is written out as the node that step appends, and its `...IsForward`
  // lemma shows it is that step.

  /** What an operator promises of the node it appends: the next index,
      the operands in order as dependencies, `op` as producer, no label, a
      zero gradient, and every older node and gradient kept. */
  predicate Appends(g: Graph, r: (Graph, nat), op: Op, inputs: seq<nat>) {
    && WellFormed(r.0) && Extends(g, r.0)
    && r.1 == |g.nodes| && |r.0.nodes| == |g.nodes| + 1
    && GetPrev(r.0, r.1) == inputs && GetOperation(r.0, r.1) == Some(op)
    && GetLabel(r.0, r.1) == None && GetGrad(r.0, r.1) == 0.0
  }

  /** The node produced by `op` on `inputs`, holding `y`. */
  function Appended(g: Graph, op: Op, inputs: seq<nat>, y: real): (r: (Graph, nat))
    requires WellFormed(g) && AllIn(g, inputs)
    ensures Appends(g, r, op, inputs) && GetData(r.0, r.1) == y
    ensures Built(g) && Accepts(op, DataOf(g, inputs)) ==> Built(r.0)
  {
    var r := Construct(g, y, inputs, Some(op), None);
    assert Built(g) && Accepts(op, DataOf(g, inputs)) ==> Built(r.0) by {
      if Built(g) && Accepts(op, DataOf(g, inputs)) {
        assert DataOf(r.0, inputs) == DataOf(g, inputs);
        BuiltKeptByAppend(g, r.0);
      }
    }
    r
  }

  function Sum(g: Graph, a: nat, b: nat): (r: (Graph, nat))
    requires WellFormed(g) && a < |g.nodes| && b < |g.nodes|
    ensures Appends(g, r, Add, [a, b])
    ensures GetData(r.0, r.1) == GetData(g, a) + GetData(g, b)
    ensures Built(g) ==> Built(r.0)
  {
    PairData(g, a, b);
    Appended(g, Add, [a, b], GetData(g, a) + GetData(g, b))
  }

  function Difference(g: Graph, a: nat, b: nat): (r: (Graph, nat))
    requires WellFormed(g) && a < |g.nodes| && b < |g.nodes|
    ensures Appends(g, r, Subtract, [a, b])
    ensures GetData(r.0, r.1) == GetData(g, a) - GetData(g, b)
    ensures Built(g) ==> Built(r.0)
  {
    PairData(g, a, b);
    Appended(g, Subtract, [a, b], GetData(g, a) - GetData(g, b))
  }

  function Product(g: Graph, a: nat, b: nat): (r: (Graph, nat))
    requires WellFormed(g) && a < |g.nodes| && b < |g.nodes|
    ensures Appends(g, r, Multiply, [a, b])
    ensures GetData(r.0, r.1) == GetData(g, a) * GetData(g, b)
    ensures Built(g) ==> Built(r.0)
  {
    PairData(g, a, b);
    Appended(g, Multiply, [a, b], GetData(g, a) * GetData(g, b))
  }

  /** The only operator that can fail: a zero divisor is refused before
      any node is made. */
  function Quotient(g: Graph, a: nat, b: nat): (r: Result<(Graph, nat)>)
    requires WellFormed(g) && a < |g.nodes| && b < |g.nodes|
    ensures r.Err? <==> GetData(g, b) == 0.0
    ensures r.Err? ==> r.error == DivisionByZero
    ensures r.Ok? ==> Appends(g, r.value, Divide, [a, b])
    ensures r.Ok? ==> GetData(r.value.0, r.value.1) == GetData(g, a) / GetData(g, b)
    ensures r.Ok? && Built(g) ==> Built(r.value.0)
  {
    if GetData(g, b) == 0.0 then Err(DivisionByZero)
    else
      PairData(g, a, b);
      Ok(Appended(g, Divide, [a, b], GetData(g, a) / GetData(g, b)))
  }

  function TanhNode(g: Graph, x: nat, e: ExpFn): (r: (Graph, nat))
    requires WellFormed(g) && x < |g.nodes|
    ensures Appends(g, r, Tanh, [x])
    ensures GetData(r.0, r.1) == TanhManual(e, GetData(g, x))
    ensures -1.0 < GetData(r.0, r.1) < 1.0
    ensures Built(g) ==> Built(r.0)
  {
    SingleData(g, x);
    Appended(g, Tanh, [x], TanhManual(e, GetData(g, x)))
  }

  function ExpNode(g: Graph, x: nat, e: ExpFn): (r: (Graph, nat))
    requires WellFormed(g) && x < |g.nodes|
    ensures Appends(g, r, Exp, [x])
    ensures GetData(r.0, r.1) == e(GetData(g, x)) && GetData(r.0, r.1) > 0.0
    ensures Built(g) ==> Built(r.0)
  {
    SingleData(g, x);
    Appended(g, Exp, [x], e(GetData(g, x)))
  }

  /** `a + b` is the Add forward step on `[a, b]`. */
  lemma SumIsForward(g: Graph, a: nat, b: nat, e: ExpFn)
    requires WellFormed(g) && a < |g.nodes| && b < |g.nodes|
    ensures Forward(g, Add, [a, b], e) == Ok(Sum(g, a, b))
  {
    AddForward(g, a, b, e);
    SumIsNode(g, a, b);
  }

  lemma AddForward(g: Graph, a: nat, b: nat, e: ExpFn)
    requires WellFormed(g) && a < |g.nodes| && b < |g.nodes|
    ensures Forward(g, Add, [a, b], e) == Ok(Appended(g, Add, [a, b], GetData(g, a) + GetData(g, b)))
  {
    PairComputes(GetData(g, a), GetData(g, b), e);
    PairForward(g, Add, a, b, e, GetData(g, a) + GetData(g, b));
  }

  lemma SumIsNode(g: Graph, a: nat, b: nat)
    requires WellFormed(g) && a < |g.nodes| && b < |g.nodes|
    ensures Sum(g, a, b) == Appended(g, Add, [a, b], GetData(g, a) + GetData(g, b))
  {
  }

  /** `a - b` is the Subtract forward step on `[a, b]`. */
  lemma DifferenceIsForward(g: Graph, a: nat, b: nat, e: ExpFn)
    requires WellFormed(g) && a < |g.nodes| && b < |g.nodes|
    ensures Forward(g, Subtract, [a, b], e) == Ok(Difference(g, a, b))
  {
    SubtractForward(g, a, b, e);
    DifferenceIsNode(g, a, b);
  }

  lemma SubtractForward(g: Graph, a: nat, b: nat, e: ExpFn)
    requires WellFormed(g) && a < |g.nodes| && b < |g.nodes|
    ensures Forward(g, Subtract, [a, b], e) == Ok(Appended(g, Subtract, [a, b], GetData(g, a) - GetData(g, b)))
  {
    PairComputes(GetData(g, a), GetData(g, b), e);
    PairForward(g, Subtract, a, b, e, GetData(g, a) - GetData(g, b));
  }

  lemma DifferenceIsNode(g: Graph, a: nat, b: nat)
    requires WellFormed(g) && a < |g.nodes| && b < |g.nodes|
    ensures Difference(g, a, b) == Appended(g, Subtract, [a, b], GetData(g, a) - GetData(g, b))
  {
  }

  /** `a * b` is the Multiply forward step on `[a, b]`. */
  lemma ProductIsForward(g: Graph, a: nat, b: nat, e: ExpFn)
    requires WellFormed(g) && a < |g.nodes| && b < |g.nodes|
    ensures Forward(g, Multiply, [a, b], e) == Ok(Product(g, a, b))
  {
    MultiplyForward(g, a, b, e);
    ProductIsNode(g, a, b);
  }

  lemma MultiplyForward(g: Graph, a: nat, b: nat, e: ExpFn)
    requires WellFormed(g) && a < |g.nodes| && b < |g.nodes|
    ensures Forward(g, Multiply, [a, b], e) == Ok(Appended(g, Multiply, [a, b], GetData(g, a) * GetData(g, b)))
  {
    PairComputes(GetData(g, a), GetData(g, b), e);
    PairForward(g, Multiply, a, b, e, GetData(g, a) * GetData(g, b));
  }

  lemma ProductIsNode(g: Graph, a: nat, b: nat)
    requires WellFormed(g) && a < |g.nodes| && b < |g.nodes|
    ensures Product(g, a, b) == Appended(g, Multiply, [a, b], GetData(g, a) * GetData(g, b))
  {
  }

  /** `a / b` is the Divide forward step on `[a, b]`, failure included. */
  lemma QuotientIsForward(g: Graph, a: nat, b: nat, e: ExpFn)
    requires WellFormed(g) && a < |g.nodes| && b < |g.nodes|
    ensures Forward(g, Divide, [a, b], e) == Quotient(g, a, b)
  {
    var x, y := GetData(g, a), GetData(g, b);
    if y != 0.0 {
      PairComputes(x, y, e);
      PairForward(g, Divide, a, b, e, x / y);
      assert Quotient(g, a, b) == Ok(Appended(g, Divide, [a, b], x / y));
    }
  }

  /** `tanh()` is the Tanh forward step on `[x]`. */
  lemma TanhIsForward(g: Graph, x: nat, e: ExpFn)
    requires WellFormed(g) && x < |g.nodes|
    ensures Forward(g, Tanh, [x], e) == Ok(TanhNode(g, x, e))
  {
    SingleForward(g, Tanh, x, e);
  }

  /** `exp()` is the Exp forward step on `[x]`. */
  lemma ExpIsForward(g: Graph, x: nat, e: ExpFn)
    requires WellFormed(g) && x < |g.nodes|
    ensures Forward(g, Exp, [x], e) == Ok(ExpNode(g, x, e))
  {
    SingleForward(g, Exp, x, e);
  }

  /** A two-operand forward step that accepts its operands appends the
      node holding the operation's value `z` on their data. */
  lemma PairForward(g: Graph, op: Op, a: nat, b: nat, e: ExpFn, z: real)
    requires WellFormed(g) && a < |g.nodes| && b < |g.nodes|
    requires Accepts(op, [GetData(g, a), GetData(g, b)])
    requires z == Compute(op, [GetData(g, a), GetData(g, b)], e)
    ensures Forward(g, op, [a, b], e) == Ok(Appended(g, op, [a, b], z))
  {
    PairData(g, a, b);
    ForwardBuilds(g, op, [a, b], e);
  }

  /** The same for a one-operand step. */
  lemma SingleForward(g: Graph, op: Op, x: nat, e: ExpFn)
    requires WellFormed(g) && x < |g.nodes| && Arity(op) == 1
    ensures Accepts(op, [GetData(g, x)])
    ensures Forward(g, op, [x], e) == Ok(Appended(g, op, [x], Compute(op, [GetData(g, x)], e)))
  {
    SingleData(g, x);
    ForwardBuilds(g, op, [x], e);
  }

  /** The four binary operations on two operands' data. */
  lemma PairComputes(x: real, y: real, e: ExpFn)
    ensures Accepts(Add, [x, y]) && Compute(Add, [x, y], e) == x + y
    ensures Accepts(Subtract, [x, y]) && Compute(Subtract, [x, y], e) == x - y
    ensures Accepts(Multiply, [x, y]) && Compute(Multiply, [x, y], e) == x * y
    ensures y != 0.0 ==> Accepts(Divide, [x, y]) && Compute(Divide, [x, y], e) == x / y
  {
  }

  /** A forward step the inputs are accepted by appends the computed node. */
  lemma ForwardBuilds(g: Graph, op: Op, inputs: seq<nat>, e: ExpFn)
    requires WellFormed(g) && AllIn(g, inputs) && Accepts(op, DataOf(g, inputs))
    ensures Forward(g, op, inputs, e) == Ok(Construct(g, Compute(op, DataOf(g, inputs), e), inputs, Some(op), None))
    ensures Forward(g, op, inputs, e) == Ok(Appended(g, op, inputs, Compute(op, DataOf(g, inputs), e)))
  {
  }

  /** The data of two operands, in order. */
  lemma PairData(g: Graph, a: nat, b: nat)
    requires a < |g.nodes| && b < |g.nodes|
    ensures AllIn(g, [a, b]) && DataOf(g, [a, b]) == [GetData(g, a), GetData(g, b)]
  {
  }

  lemma SingleData(g: Graph, x: nat)
    requires x < |g.nodes|
    ensures AllIn(g, [x]) && DataOf(g, [x]) == [GetData(g, x)]
  {
  }


  // Scalar-mixed overloads: the raw scalar is first wrapped as an
  // unlabelled leaf, which keeps its side of the operator.

  /** A scalar wrapped as a fresh unlabelled leaf. */
  predicate WrapsScalar(g: Graph, h: Graph, s: real) {
    && |g.nodes| < |h.nodes| && |g.nodes| < |h.grads|
    && GetData(h, |g.nodes|) == s && GetPrev(h, |g.nodes|) == []
    && GetOperation(h, |g.nodes|) == None && GetLabel(h, |g.nodes|) == None
  }

  function ScalarSum(g: Graph, s: real, b: nat): (r: (Graph, nat))
    requires WellFormed(g) && b < |g.nodes|
    ensures WellFormed(r.0) && Extends(g, r.0) && |r.0.nodes| == |g.nodes| + 2 && r.1 == |g.nodes| + 1
    ensures GetOperation(r.0, r.1) == Some(Add) && GetGrad(r.0, r.1) == 0.0 && GetLabel(r.0, r.1) == None
    ensures WrapsScalar(g, r.0, s) && GetPrev(r.0, r.1) == [|g.nodes|, b]
    ensures GetData(r.0, r.1) == s + GetData(g, b)
  {
    var w := Leaf(g, s, None);
    var r := Sum(w.0, w.1, b);
    ExtendsTransitive(g, w.0, r.0);
    r
  }

  function SumScalar(g: Graph, a: nat, s: real): (r: (Graph, nat))
    requires WellFormed(g) && a < |g.nodes|
    ensures WellFormed(r.0) && Extends(g, r.0) && |r.0.nodes| == |g.nodes| + 2 && r.1 == |g.nodes| + 1
    ensures GetOperation(r.0, r.1) == Some(Add) && GetGrad(r.0, r.1) == 0.0 && GetLabel(r.0, r.1) == None
    ensures WrapsScalar(g, r.0, s) && GetPrev(r.0, r.1) == [a, |g.nodes|]
    ensures GetData(r.0, r.1) == GetData(g, a) + s
  {
    var w := Leaf(g, s, None);
    var r := Sum(w.0, a, w.1);
    ExtendsTransitive(g, w.0, r.0);
    r
  }

  function ScalarDifference(g: Graph, s: real, b: nat): (r: (Graph, nat))
    requires WellFormed(g) && b < |g.nodes|
    ensures WellFormed(r.0) && Extends(g, r.0) && |r.0.nodes| == |g.nodes| + 2 && r.1 == |g.nodes| + 1
    ensures GetOperation(r.0, r.1) == Some(Subtract) && GetGrad(r.0, r.1) == 0.0 && GetLabel(r.0, r.1) == None
    ensures WrapsScalar(g, r.0, s) && GetPrev(r.0, r.1) == [|g.nodes|, b]
    ensures GetData(r.0, r.1) == s - GetData(g, b)
  {
    var w := Leaf(g, s, None);
    var r := Difference(w.0, w.1, b);
    ExtendsTransitive(g, w.0, r.0);
    r
  }

  function DifferenceScalar(g: Graph, a: nat, s: real): (r: (Graph, nat))
    requires WellFormed(g) && a < |g.nodes|
    ensures WellFormed(r.0) && Extends(g, r.0) && |r.0.nodes| == |g.nodes| + 2 && r.1 == |g.nodes| + 1
    ensures GetOperation(r.0, r.1) == Some(Subtract) && GetGrad(r.0, r.1) == 0.0 && GetLabel(r.0, r.1) == None
    ensures WrapsScalar(g, r.0, s) && GetPrev(r.0, r.1) == [a, |g.nodes|]
    ensures GetData(r.0, r.1) == GetData(g, a) - s
  {
    var w := Leaf(g, s, None);
    var r := Difference(w.0, a, w.1);
    ExtendsTransitive(g, w.0, r.0);
    r
  }

  function ScalarProduct(g: Graph, s: real, b: nat): (r: (Graph, nat))
    requires WellFormed(g) && b < |g.nodes|
    ensures WellFormed(r.0) && Extends(g, r.0) && |r.0.nodes| == |g.nodes| + 2 && r.1 == |g.nodes| + 1
    ensures GetOperation(r.0, r.1) == Some(Multiply) && GetGrad(r.0, r.1) == 0.0 && GetLabel(r.0, r.1) == None
    ensures WrapsScalar(g, r.0, s) && GetPrev(r.0, r.1) == [|g.nodes|, b]
    ensures GetData(r.0, r.1) == s * GetData(g, b)
  {
    var w := Leaf(g, s, None);
    var r := Product(w.0, w.1, b);
    assert GetData(w.0, b) == GetData(g, b);
    assert GetData(w.0, w.1) == s;
    ExtendsTransitive(g, w.0, r.0);
    r
  }

  function ProductScalar(g: Graph, a: nat, s: real): (r: (Graph, nat))
    requires WellFormed(g) && a < |g.nodes|
    ensures WellFormed(r.0) && Extends(g, r.0) && |r.0.nodes| == |g.nodes| + 2 && r.1 == |g.nodes| + 1
    ensures GetOperation(r.0, r.1) == Some(Multiply) && GetGrad(r.0, r.1) == 0.0 && GetLabel(r.0, r.1) == None
    ensures WrapsScalar(g, r.0, s) && GetPrev(r.0, r.1) == [a, |g.nodes|]
    ensures GetData(r.0, r.1) == GetData(g, a) * s
  {
    var w := Leaf(g, s, None);
    var r := Product(w.0, a, w.1);
    assert GetData(w.0, a) == GetData(g, a);
    assert GetData(w.0, w.1) == s;
    ExtendsTransitive(g, w.0, r.0);
    r
  }

  function ScalarQuotient(g: Graph, s: real, b: nat): (r: Result<(Graph, nat)>)
    requires WellFormed(g) && b < |g.nodes|
    ensures r.Ok? ==> WellFormed(r.value.0) && Extends(g, r.value.0) && |r.value.0.nodes| == |g.nodes| + 2 && r.value.1 == |g.nodes| + 1
    ensures r.Ok? ==> GetOperation(r.value.0, r.value.1) == Some(Divide) && GetGrad(r.value.0, r.value.1) == 0.0 && GetLabel(r.value.0, r.value.1) == None
    ensures r.Err? <==> GetData(g, b) == 0.0
    ensures r.Ok? ==> WrapsScalar(g, r.value.0, s) && GetPrev(r.value.0, r.value.1) == [|g.nodes|, b]
    ensures r.Ok? ==> GetData(r.value.0, r.value.1) == s / GetData(g, b)
  {
    var w := Leaf(g, s, None);
    var r := Quotient(w.0, w.1, b);
    assert r.Ok? ==> Extends(g, r.value.0) by {
      if r.Ok? {
        ExtendsTransitive(g, w.0, r.value.0);
      }
    }
    r
  }

  /** Dividing by a scalar zero fails like any zero divisor, and the leaf
      made for the zero is discarded with the failed call. */
  function QuotientScalar(g: Graph, a: nat, s: real): (r: Result<(Graph, nat)>)
    requires WellFormed(g) && a < |g.nodes|
    ensures r.Ok? ==> WellFormed(r.value.0) && Extends(g, r.value.0) && |r.value.0.nodes| == |g.nodes| + 2 && r.value.1 == |g.nodes| + 1
    ensures r.Ok? ==> GetOperation(r.value.0, r.value.1) == Some(Divide) && GetGrad(r.value.0, r.value.1) == 0.0 && GetLabel(r.value.0, r.value.1) == None
    ensures r.Err? <==> s == 0.0
    ensures r.Ok? ==> WrapsScalar(g, r.value.0, s) && GetPrev(r.value.0, r.value.1) == [a, |g.nodes|]
    ensures r.Ok? ==> GetData(r.value.0, r.value.1) == GetData(g, a) / s
  {
    var w := Leaf(g, s, None);
    var r := Quotient(w.0, a, w.1);
    assert r.Ok? ==> Extends(g, r.value.0) by {
      if r.Ok? {
        ExtendsTransitive(g, w.0, r.value.0);
      }
    }
    r
  }

  function ExpScalar(g: Graph, s: real, e: ExpFn): (r: (Graph, nat))
    requires WellFormed(g)
    ensures WellFormed(r.0) && Extends(g, r.0) && |r.0.nodes| == |g.nodes| + 2 && r.1 == |g.nodes| + 1
    ensures GetOperation(r.0, r.1) == Some(Exp) && GetGrad(r.0, r.1) == 0.0 && GetLabel(r.0, r.1) == None
    ensures WrapsScalar(g, r.0, s) && GetPrev(r.0, r.1) == [|g.nodes|]
    ensures GetData(r.0, r.1) == e(s)
  {
    var w := Leaf(g, s, None);
    var r := ExpNode(w.0, w.1, e);
    ExtendsTransitive(g, w.0, r.0);
    r
  }

  // Each overload is the forward step of its operation on the arena with
  // the scalar's leaf appended, the leaf on the scalar's side.

  lemma ScalarSumsAreForward(g: Graph, s: real, x: nat, e: ExpFn)
    requires WellFormed(g) && x < |g.nodes|
    ensures Forward(Leaf(g, s, None).0, Add, [|g.nodes|, x], e) == Ok(ScalarSum(g, s, x))
    ensures Forward(Leaf(g, s, None).0, Add, [x, |g.nodes|], e) == Ok(SumScalar(g, x, s))
  {
    var w := Leaf(g, s, None);
    SumIsForward(w.0, w.1, x, e);
    SumIsForward(w.0, x, w.1, e);
  }

  lemma ScalarDifferencesAreForward(g: Graph, s: real, x: nat, e: ExpFn)
    requires WellFormed(g) && x < |g.nodes|
    ensures Forward(Leaf(g, s, None).0, Subtract, [|g.nodes|, x], e) == Ok(ScalarDifference(g, s, x))
    ensures Forward(Leaf(g, s, None).0, Subtract, [x, |g.nodes|], e) == Ok(DifferenceScalar(g, x, s))
  {
    var w := Leaf(g, s, None);
    DifferenceIsForward(w.0, w.1, x, e);
    DifferenceIsForward(w.0, x, w.1, e);
  }

  lemma ScalarProductsAreForward(g: Graph, s: real, x: nat, e: ExpFn)
    requires WellFormed(g) && x < |g.nodes|
    ensures Forward(Leaf(g, s, None).0, Multiply, [|g.nodes|, x], e) == Ok(ScalarProduct(g, s, x))
    ensures Forward(Leaf(g, s, None).0, Multiply, [x, |g.nodes|], e) == Ok(ProductScalar(g, x, s))
  {
    var w := Leaf(g, s, None);
    ProductIsForward(w.0, w.1, x, e);
    ProductIsForward(w.0, x, w.1, e);
  }

  lemma ScalarQuotientsAreForward(g: Graph, s: real, x: nat, e: ExpFn)
    requires WellFormed(g) && x < |g.nodes|
    ensures Forward(Leaf(g, s, None).0, Divide, [|g.nodes|, x], e) == ScalarQuotient(g, s, x)
    ensures Forward(Leaf(g, s, None).0, Divide, [x, |g.nodes|], e) == QuotientScalar(g, x, s)
  {
    var w := Leaf(g, s, None);
    QuotientIsForward(w.0, w.1, x, e);
    QuotientIsForward(w.0, x, w.1, e);
  }

  lemma ExpScalarIsForward(g: Graph, s: real, e: ExpFn)
    requires WellFormed(g)
    ensures Forward(Leaf(g, s, None).0, Exp, [|g.nodes|], e) == Ok(ExpScalar(g, s, e))
  {
    var w := Leaf(g, s, None);
    ExpIsForward(w.0, w.1, e);
  }
}
