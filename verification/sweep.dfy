/** The accumulation argument behind the backward pass, stated over the
    gradients alone. Sweeping node `i` adds `p(i, x, j)` into every node
    `j`, where `x` is `i`'s gradient at that moment; a node never pushes
    into itself or into nodes created after it. Sweeping the nodes of a set
    from the highest index down then leaves each node with what it started
    with plus what the swept nodes push into it, computed from their FINAL
    gradients. */
module Sweep {
  import Dag

  /** `p(i, x, j)`: what sweeping node `i` with gradient `x` adds to node `j`. */
  type PushFn = (nat, nat, real) -> real

  /** Pushes go only to nodes created earlier. */
  ghost predicate Downward(p: PushFn) {
    forall i: nat, j: nat, x: real :: i <= j ==> p(i, j, x) == 0.0
  }

  /** Sweeping node `i` once. */
  function Apply(gs: seq<real>, i: nat, p: PushFn): (hs: seq<real>)
    requires i < |gs|
    ensures |hs| == |gs|
    ensures forall j :: 0 <= j < |gs| ==> hs[j] == gs[j] + p(i, j, gs[i])
  {
    seq(|gs|, j requires 0 <= j < |gs| => gs[j] + p(i, j, gs[i]))
  }

  /** Sweeping the nodes of `order`, first to last. */
  function Run(gs: seq<real>, order: seq<nat>, p: PushFn): (hs: seq<real>)
    requires forall x :: x in order ==> x < |gs|
    ensures |hs| == |gs|
    decreases |order|
  {
    if |order| == 0 then gs
    else
      assert order[0] in order;
      assert forall x :: x in order[1..] ==> x in order;
      Run(Apply(gs, order[0], p), order[1..], p)
  }

  /** What the members of `s` below `t` push into `j`, each from its
      gradient in `gs`. */
  function Inflow(gs: seq<real>, p: PushFn, s: set<nat>, j: nat, t: nat): real
    requires t <= |gs|
  {
    if t == 0 then 0.0
    else Inflow(gs, p, s, j, t - 1) + (if t - 1 in s then p(t - 1, j, gs[t - 1]) else 0.0)
  }

  lemma {:induction false} InflowFromAbove(gs: seq<real>, p: PushFn, s: set<nat>, j: nat, t: nat)
    requires Downward(p) && t <= |gs| && t <= j + 1
    ensures Inflow(gs, p, s, j, t) == 0.0
  {
    if t > 0 {
      InflowFromAbove(gs, p, s, j, t - 1);
      var i: nat, x: real := t - 1, gs[t - 1];
      assert p(i, j, x) == 0.0;
      assert Inflow(gs, p, s, j, t) == Inflow(gs, p, s, j, t - 1) + (if t - 1 in s then p(t - 1, j, gs[t - 1]) else 0.0);
    }
  }

  /** Nothing flows into `j` from members of `s` that never push into it. */
  lemma {:induction false} InflowNone(gs: seq<real>, p: PushFn, s: set<nat>, j: nat, t: nat)
    requires t <= |gs|
    requires forall i, x :: i in s ==> p(i, j, x) == 0.0
    ensures Inflow(gs, p, s, j, t) == 0.0
  {
    if t > 0 {
      InflowNone(gs, p, s, j, t - 1);
      assert Inflow(gs, p, s, j, t) == Inflow(gs, p, s, j, t - 1) + (if t - 1 in s then p(t - 1, j, gs[t - 1]) else 0.0);
    }
  }

  /** Sweeping the members of `s` below `t` steps node `t - 1` first. */
  lemma SweepTopFirst(gs: seq<real>, p: PushFn, s: set<nat>, t: nat)
    requires 0 < t <= |gs|
    ensures Run(gs, Dag.Collect(s, t), p) == Run(if t - 1 in s then Apply(gs, t - 1, p) else gs, Dag.Collect(s, t - 1), p)
  {
    var c := Dag.Collect(s, t);
    var rest := Dag.Collect(s, t - 1);
    if t - 1 in s {
      assert c == [t - 1] + rest;
      assert c[0] == t - 1 && c[1..] == rest;
    } else {
      assert c == rest;
    }
  }

  /** The accumulation theorem. */
  lemma {:induction false} Accumulates(gs: seq<real>, p: PushFn, s: set<nat>, t: nat)
    requires Downward(p) && t <= |gs|
    ensures var hs := Run(gs, Dag.Collect(s, t), p);
      forall j :: 0 <= j < |gs| ==> hs[j] == gs[j] + Inflow(hs, p, s, j, t)
    decreases t
  {
    if t > 0 {
      var gs1 := if t - 1 in s then Apply(gs, t - 1, p) else gs;
      Accumulates(gs1, p, s, t - 1);
      var hs := Run(gs1, Dag.Collect(s, t - 1), p);
      SweptAll(gs, gs1, hs, p, s, t);
      SweepTopFirst(gs, p, s, t);
    }
  }

  lemma SweptAll(gs: seq<real>, gs1: seq<real>, hs: seq<real>, p: PushFn, s: set<nat>, t: nat)
    requires Downward(p) && 0 < t <= |gs| && |hs| == |gs|
    requires gs1 == if t - 1 in s then Apply(gs, t - 1, p) else gs
    requires forall j :: 0 <= j < |gs| ==> hs[j] == gs1[j] + Inflow(hs, p, s, j, t - 1)
    ensures forall j :: 0 <= j < |gs| ==> hs[j] == gs[j] + Inflow(hs, p, s, j, t)
  {
    forall j | 0 <= j < |gs|
      ensures hs[j] == gs[j] + Inflow(hs, p, s, j, t)
    {
      SweptOnce(gs, gs1, hs, p, s, t, j);
    }
  }

  /** One step of the accumulation theorem: if sweeping below `t - 1`
      after node `t - 1` accounts for everything, then so does sweeping
      below `t`, because node `t - 1` pushed with the gradient it ends with. */
  lemma SweptOnce(gs: seq<real>, gs1: seq<real>, hs: seq<real>, p: PushFn, s: set<nat>, t: nat, j: nat)
    requires Downward(p) && 0 < t <= |gs| && j < |gs| && |hs| == |gs|
    requires gs1 == if t - 1 in s then Apply(gs, t - 1, p) else gs
    requires hs[j] == gs1[j] + Inflow(hs, p, s, j, t - 1)
    requires hs[t - 1] == gs1[t - 1] + Inflow(hs, p, s, t - 1, t - 1)
    ensures hs[j] == gs[j] + Inflow(hs, p, s, j, t)
  {
    assert Inflow(hs, p, s, j, t) == Inflow(hs, p, s, j, t - 1) + (if t - 1 in s then p(t - 1, j, hs[t - 1]) else 0.0);
    if t - 1 in s {
      InflowFromAbove(hs, p, s, t - 1, t - 1);
      assert gs1[t - 1] == gs[t - 1] + p(t - 1, t - 1, gs[t - 1]);
      assert hs[t - 1] == gs[t - 1];
    }
  }

  /** A sweep from root `r` seeded with 1.0: the root keeps the seed and
      every other node gets its starting gradient plus its inflow. */
  lemma Seeded(gs: seq<real>, hs: seq<real>, p: PushFn, s: set<nat>, r: nat)
    requires Downward(p) && r < |gs|
    requires hs == Run(gs[r := 1.0], Dag.Collect(s, r + 1), p)
    ensures |hs| == |gs| && hs[r] == 1.0
    ensures forall j :: 0 <= j < |gs| && j != r ==> hs[j] == gs[j] + Inflow(hs, p, s, j, r + 1)
  {
    Accumulates(gs[r := 1.0], p, s, r + 1);
    InflowFromAbove(hs, p, s, r, r + 1);
  }
}
