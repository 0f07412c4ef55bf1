/** The first prototype: a value is data plus the values it was computed
    from (its children), with the four binary operators and a leaf
    constructor, and a squaring helper on integers. It is the draft engine
    with operation tags and labels erased. */
module Prototype {
  import opened Results
  import DraftAutograd

  datatype Value = Value(data: real, children: seq<nat>)

  /** Children point at earlier values. */
  predicate WellFormed(vs: seq<Value>) {
    forall i, k :: 0 <= i < |vs| && 0 <= k < |vs[i].children| ==> vs[i].children[k] < i
  }

  /** `make_value`: a value with no children. */
  function MakeValue(vs: seq<Value>, x: real): (r: (seq<Value>, nat))
    requires WellFormed(vs)
    ensures |r.0| == |vs| + 1 && r.0[..|vs|] == vs && r.1 == |vs| && WellFormed(r.0)
    ensures r.0[r.1] == Value(x, [])
  {
    (vs + [Value(x, [])], |vs|)
  }

  /** The four arithmetic operators of the prototype. */
  datatype Operator = Plus | Minus | Times | Over

  /** `a op b`: a new value whose children are the operands in order; `/`
      fails on a zero divisor before building anything. */
  function Apply(vs: seq<Value>, op: Operator, a: nat, b: nat): (r: Result<(seq<Value>, nat)>)
    requires WellFormed(vs) && a < |vs| && b < |vs|
    ensures r.Err? <==> op == Over && vs[b].data == 0.0
    ensures r.Err? ==> r.error == DivisionByZero
    ensures r.Ok? ==> && |r.value.0| == |vs| + 1 && r.value.0[..|vs|] == vs
                      && r.value.1 == |vs| && WellFormed(r.value.0)
                      && r.value.0[r.value.1].children == [a, b]
    ensures r.Ok? && op == Plus ==> r.value.0[r.value.1].data == vs[a].data + vs[b].data
    ensures r.Ok? && op == Minus ==> r.value.0[r.value.1].data == vs[a].data - vs[b].data
    ensures r.Ok? && op == Times ==> r.value.0[r.value.1].data == vs[a].data * vs[b].data
    ensures r.Ok? && op == Over ==> r.value.0[r.value.1].data == vs[a].data / vs[b].data
  {
    var x, y := vs[a].data, vs[b].data;
    if op == Over && y == 0.0 then Err(DivisionByZero)
    else
      var data := match op
        case Plus => x + y
        case Minus => x - y
        case Times => x * y
        case Over => x / y;
      Ok((vs + [Value(data, [a, b])], |vs|))
  }

  /** `f`: the square of an integer, as a real. */
  function F(x: int): (y: real)
    ensures y >= 0.0
    ensures y == 0.0 <==> x == 0
  {
    (x * x) as real
  }

  /** `f` cannot tell a number from its negation, and grows with the
      magnitude of its argument. */
  lemma FSymmetricMonotone(x: int, y: int)
    ensures F(-x) == F(x)
    ensures 0 <= x <= y ==> F(x) <= F(y)
  {
    if 0 <= x <= y {
      assert x * x <= x * y <= y * y;
    }
  }

  // The prototype is the draft with tags and labels erased.

  function Erase(v: DraftAutograd.Value): Value {
    Value(v.data, v.prev)
  }

  function EraseAll(vs: seq<DraftAutograd.Value>): (ws: seq<Value>)
    ensures |ws| == |vs|
    ensures forall i :: 0 <= i < |vs| ==> ws[i] == Erase(vs[i])
    ensures DraftAutograd.WellFormed(vs) ==> WellFormed(ws)
  {
    seq(|vs|, i requires 0 <= i < |vs| => Erase(vs[i]))
  }

  function AsDraft(op: Operator): DraftAutograd.Operation {
    match op
    case Plus => DraftAutograd.Add
    case Minus => DraftAutograd.Subtract
    case Times => DraftAutograd.Multiply
    case Over => DraftAutograd.Divide
  }

  /** Erasing commutes with the operators: applying an operator in the
      draft and erasing gives what the prototype's operator gives on the
      erased arena, failures included. */
  lemma ApplyIsErasedDraft(vs: seq<DraftAutograd.Value>, op: Operator, a: nat, b: nat)
    requires DraftAutograd.WellFormed(vs) && a < |vs| && b < |vs|
    ensures var p := Apply(EraseAll(vs), op, a, b);
      if op == Over then
        var d := DraftAutograd.Quotient(vs, a, b);
        && (p.Err? <==> d.Err?)
        && (p.Ok? ==> p.value == (EraseAll(d.value.0), d.value.1))
      else
        var d := DraftAutograd.Binary(vs, AsDraft(op), a, b);
        p == Ok((EraseAll(d.0), d.1))
  {
    var p := Apply(EraseAll(vs), op, a, b);
    if op == Over {
      var d := DraftAutograd.Quotient(vs, a, b);
      if p.Ok? {
        EraseAppend(vs, d.value.0, p.value.0);
      }
    } else {
      var d := DraftAutograd.Binary(vs, AsDraft(op), a, b);
      EraseAppend(vs, d.0, p.value.0);
    }
  }

  /** A prototype arena that extends the erased draft arena by the erased
      new draft node is the erasure of the grown draft arena. */
  lemma EraseAppend(vs: seq<DraftAutograd.Value>, ws: seq<DraftAutograd.Value>, ps: seq<Value>)
    requires |ws| == |vs| + 1 && ws[..|vs|] == vs
    requires |ps| == |vs| + 1 && ps[..|vs|] == EraseAll(vs) && ps[|vs|] == Erase(ws[|vs|])
    ensures ps == EraseAll(ws)
  {
    forall i | 0 <= i < |ps| ensures ps[i] == EraseAll(ws)[i] {
      if i < |vs| {
        assert ps[i] == ps[..|vs|][i];
        assert ws[i] == ws[..|vs|][i];
      }
    }
  }

  /** `make_value` agrees likewise. */
  lemma MakeValueIsErasedDraft(vs: seq<DraftAutograd.Value>, x: real, caption: Option<string>)
    requires DraftAutograd.WellFormed(vs)
    ensures var d := DraftAutograd.MakeValue(vs, x, caption);
      MakeValue(EraseAll(vs), x) == (EraseAll(d.0), d.1)
  {
    var d := DraftAutograd.MakeValue(vs, x, caption);
    EraseAppend(vs, d.0, MakeValue(EraseAll(vs), x).0);
  }
}
