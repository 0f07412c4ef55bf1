/** The closed set of differentiable operations and their scalar rules:
    what each computes from its inputs' data (forward) and the coefficient
    by which each input's gradient grows per unit of output gradient
    (backward). */
module Ops {

  datatype Op = Add | Subtract | Multiply | Divide | Exp | Tanh

  /** The exponential function. The engine never computes it itself, so it
      is a parameter; all the model relies on is that it is positive. */
  type ExpFn = f: real -> real | forall x :: f(x) > 0.0 witness (x: real) => 1.0

  /** Number of inputs each operation takes. */
  function Arity(op: Op): nat {
    match op
    case Add => 2
    case Subtract => 2
    case Multiply => 2
    case Divide => 2
    case Exp => 1
    case Tanh => 1
  }

  /** The display tag of each operation (its `get_name`). */
  function Name(op: Op): string {
    match op
    case Add => "+"
    case Subtract => "-"
    case Multiply => "*"
    case Divide => "/"
    case Exp => "exp"
    case Tanh => "tanh"
  }

  /** The tag identifies the operation. */
  lemma NamesDistinct(a: Op, b: Op)
    requires Name(a) == Name(b)
    ensures a == b
  {
    match a
    case Add => assert Name(b)[0] == '+';
    case Subtract => assert Name(b)[0] == '-';
    case Multiply => assert Name(b)[0] == '*';
    case Divide => assert Name(b)[0] == '/';
    case Exp => assert Name(b)[0] == 'e';
    case Tanh => assert Name(b)[0] == 't';
  }

  /** tanh written through the exponential, (e^2x - 1) / (e^2x + 1). */
  function TanhManual(e: ExpFn, x: real): (t: real)
    ensures -1.0 < t < 1.0
  {
    var ex := e(2.0 * x);
    var t := (ex - 1.0) / (ex + 1.0);
    assert t * (ex + 1.0) == ex - 1.0;
    t
  }

  /** Inputs an operation accepts: the right count, and a nonzero divisor
      for Divide. */
  predicate Accepts(op: Op, xs: seq<real>) {
    |xs| == Arity(op) && (op == Divide ==> xs[1] != 0.0)
  }

  /** The forward value of each operation on its inputs' data. */
  function Compute(op: Op, xs: seq<real>, e: ExpFn): real
    requires Accepts(op, xs)
  {
    match op
    case Add => xs[0] + xs[1]
    case Subtract => xs[0] - xs[1]
    case Multiply => xs[0] * xs[1]
    case Divide => xs[0] / xs[1]
    case Exp => e(xs[0])
    case Tanh => TanhManual(e, xs[0])
  }

  /** Per input, the factor that multiplies the output's gradient in the
      backward rule; `outData` is the output node's own data. */
  function Partials(op: Op, xs: seq<real>, outData: real): (p: seq<real>)
    requires Accepts(op, xs)
    ensures |p| == Arity(op)
  {
    match op
    case Add => [1.0, 1.0]
    case Subtract => [1.0, -1.0]
    case Multiply => [xs[1], xs[0]]
    case Divide => [1.0 / xs[1], outData * (-1.0 / xs[1])]
    case Exp => [outData]
    case Tanh => [1.0 - outData * outData]
  }

  /** Divide's backward rule, applied to the output Divide's forward step
      produced, is the quotient rule: d(a/b)/da = 1/b, d(a/b)/db = -a/b^2. */
  lemma DividePartialsAreQuotientRule(a: real, b: real, e: ExpFn)
    requires b != 0.0
    ensures var p := Partials(Divide, [a, b], Compute(Divide, [a, b], e));
            p[0] == 1.0 / b && p[1] == -(a / (b * b))
  {
    var q := a / b;
    assert Compute(Divide, [a, b], e) == q;
    QuotientRule(a, b);
  }

  lemma QuotientRule(a: real, b: real)
    requires b != 0.0
    ensures (a / b) * (-1.0 / b) == -(a / (b * b))
  {
    var q := a / b;
    var m := -1.0 / b;
    var bb := b * b;
    assert q * b == a;
    assert m * b == -1.0;
    assert (q * m) * bb == (q * b) * (m * b);
    assert -(a / bb) * bb == -a;
    CancelFactor(q * m, -(a / bb), bb);
  }

  lemma CancelFactor(x: real, y: real, c: real)
    requires c != 0.0 && x * c == y * c
    ensures x == y
  {
    assert (x - y) * c == 0.0;
  }

  /** Tanh's backward rule 1 - t^2, applied to t = TanhManual(x), equals the
      derivative of (E - 1) / (E + 1) with E = exp(2x) and dE/dx = 2E, which
      is 4E / (E + 1)^2; it therefore lies in (0, 1], reaching 1 where E = 1. */
  lemma TanhPartialIsDerivative(x: real, e: ExpFn)
    ensures var ex := e(2.0 * x);
            Partials(Tanh, [x], Compute(Tanh, [x], e))[0] == 4.0 * ex / ((ex + 1.0) * (ex + 1.0))
    ensures 0.0 < Partials(Tanh, [x], Compute(Tanh, [x], e))[0] <= 1.0
  {
    var ex := e(2.0 * x);
    var t := TanhManual(e, x);
    var d := ex + 1.0;
    assert t * d == ex - 1.0;
    assert (1.0 - t * t) * (d * d) == d * d - (t * d) * (t * d);
    assert d * d - (ex - 1.0) * (ex - 1.0) == 4.0 * ex;
    assert (1.0 - t * t) * (d * d) == 4.0 * ex;
  }

  /** Exp's backward rule uses its own output: d(e^x)/dx = e^x. */
  lemma ExpPartialIsItsValue(x: real, e: ExpFn)
    ensures Partials(Exp, [x], Compute(Exp, [x], e)) == [e(x)]
    ensures Partials(Exp, [x], Compute(Exp, [x], e))[0] > 0.0
  {
  }
}
