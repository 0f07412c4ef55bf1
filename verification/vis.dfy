/** The Graphviz DOT export of a computation graph: a text label per node
    and a depth-first walk from the output that declares every reachable
    node once and draws one edge per dependency occurrence.

    The export reads a node through four accessors only (label, data,
    gradient, operation name) and its dependency list, whose entries may be
    null, so it is modelled against an abstract node view. Pointer identity
    becomes an index into an arena of views, and every non-null dependency
    sits below its consumer there: a graph of values built from earlier
    values has no cycles. */
module Vis {
  import opened Results
  import Dag
  import Text
  import Ops
  import Values
  import Backprop

  /** Rendering of a number by the output stream. Whatever the digits, it
      never contains a backslash. */
  type Format = f: real -> string | forall x :: NoBackslash(f(x)) witness (x: real) => "0"

  predicate NoBackslash(s: string) {
    forall i :: 0 <= i < |s| ==> s[i] != '\\'
  }

  /** What the export reads of a node: data, gradient, dependencies (`None`
      for a null pointer), the printed operation if any, and the label. */
  datatype NodeView = NodeView(data: real, grad: real, prev: seq<Option<nat>>, op: Option<string>, caption: Option<string>)

  /** Non-null dependencies point at earlier views. */
  predicate Closed(vs: seq<NodeView>) {
    forall i, k :: 0 <= i < |vs| && 0 <= k < |vs[i].prev| && vs[i].prev[k].Some? ==> vs[i].prev[k].value < i
  }

  // ---------------------------------------------------------------------
  // Node labels

  /** The lines of a label, joined by DOT's escaped line break `\n`. */
  function JoinLines(xs: seq<string>): string
    requires |xs| > 0
  {
    if |xs| == 1 then xs[0] else xs[0] + "\\n" + JoinLines(xs[1..])
  }

  /** Cuts a label at every escaped line break. */
  function SplitLines(s: string): (xs: seq<string>)
    ensures |xs| > 0
    decreases |s|
  {
    if |s| == 0 then [""]
    else if |s| >= 2 && s[0] == '\\' && s[1] == 'n' then [""] + SplitLines(s[2..])
    else
      var rest := SplitLines(s[1..]);
      [[s[0]] + rest[0]] + rest[1..]
  }

  /** The lines `value_label` writes: the label if there is one, the data,
      the gradient, and the operation if there is one. */
  function LabelLines(v: NodeView, fmt: Format): (xs: seq<string>)
    ensures |xs| >= 2
  {
    (if v.caption.Some? then [v.caption.value] else [])
    + ["data=" + fmt(v.data), "grad=" + fmt(v.grad)]
    + (if v.op.Some? then ["op=" + v.op.value] else [])
  }

  /** `value_label`. */
  function ValueLabel(v: NodeView, fmt: Format): string {
    JoinLines(LabelLines(v, fmt))
  }

  lemma {:induction false} SplitLinesPlain(x: string)
    requires NoBackslash(x)
    ensures SplitLines(x) == [x]
    decreases |x|
  {
    if |x| > 0 {
      SplitLinesPlain(x[1..]);
      assert [x[0]] + x[1..] == x;
    }
  }

  lemma {:induction false} SplitLinesBreak(x: string, t: string)
    requires NoBackslash(x)
    ensures SplitLines(x + "\\n" + t) == [x] + SplitLines(t)
    decreases |x|
  {
    var s := x + "\\n" + t;
    if |x| == 0 {
      assert s == "\\n" + t && s[2..] == t;
    } else {
      assert s[1..] == x[1..] + "\\n" + t;
      SplitLinesBreak(x[1..], t);
      assert [x[0]] + x[1..] == x;
    }
  }

  /** Splitting undoes joining, provided no line holds a backslash. */
  lemma {:induction false} SplitJoin(xs: seq<string>)
    requires |xs| > 0 && forall i :: 0 <= i < |xs| ==> NoBackslash(xs[i])
    ensures SplitLines(JoinLines(xs)) == xs
    decreases |xs|
  {
    if |xs| == 1 {
      SplitLinesPlain(xs[0]);
    } else {
      SplitJoin(xs[1..]);
      SplitLinesBreak(xs[0], JoinLines(xs[1..]));
      assert [xs[0]] + xs[1..] == xs;
    }
  }

  /** A label reads back line by line: cutting it at the escaped line
      breaks gives the label (when present), `data=…`, `grad=…` and, only
      for a derived node, `op=…`, as long as neither the label nor the
      operation name holds a backslash. */
  lemma ValueLabelLines(v: NodeView, fmt: Format)
    requires v.caption.Some? ==> NoBackslash(v.caption.value)
    requires v.op.Some? ==> NoBackslash(v.op.value)
    ensures var xs := SplitLines(ValueLabel(v, fmt));
      var c := if v.caption.Some? then 1 else 0;
      && |xs| == c + 2 + (if v.op.Some? then 1 else 0)
      && (v.caption.Some? ==> xs[0] == v.caption.value)
      && xs[c] == "data=" + fmt(v.data)
      && xs[c + 1] == "grad=" + fmt(v.grad)
      && (v.op.Some? ==> xs[c + 2] == "op=" + v.op.value)
  {
    var xs := LabelLines(v, fmt);
    forall i | 0 <= i < |xs| ensures NoBackslash(xs[i]) {
      NoBackslashPrefixed("data=", fmt(v.data));
      NoBackslashPrefixed("grad=", fmt(v.grad));
      if v.op.Some? {
        NoBackslashPrefixed("op=", v.op.value);
      }
    }
    SplitJoin(xs);
  }

  lemma NoBackslashPrefixed(p: string, s: string)
    requires NoBackslash(p) && NoBackslash(s)
    ensures NoBackslash(p + s)
  {
  }

  // ---------------------------------------------------------------------
  // The depth-first walk

  /** What the walk writes, in order: a node declaration `n<id> [label=…]`
      or an edge `n<src> -> n<dst>`, with the numeric ids current when the
      line is written. */
  datatype Event = Declare(id: nat, text: string) | Link(src: nat, dst: nat)

  /** The walk's state: the nodes in the order they were first met (a
      node's id is its position here), the nodes already declared, and the
      lines written so far. */
  datatype State = State(order: seq<nat>, seen: set<nat>, events: seq<Event>)

  /** Position of `x` in `o`, or `|o|` when `x` is absent. */
  function Id(o: seq<nat>, x: nat): (i: nat)
    ensures i <= |o|
    ensures x in o ==> i < |o| && o[i] == x && x !in o[..i]
    ensures x !in o ==> i == |o|
  {
    if |o| == 0 then 0
    else if o[0] == x then 0
    else
      var i := 1 + Id(o[1..], x);
      assert x in o ==> o[1..][i - 1] == x && o[..i] == [o[0]] + o[1..][..i - 1];
      i
  }

  /** An id once given never changes: first come, first numbered. */
  function Encounter(o: seq<nat>, x: nat): seq<nat> {
    if x in o then o else o + [x]
  }

  /** The head of `dfs(v)`: number `v` if it has no id yet, and declare it
      if it is not declared yet. */
  function Visit(vs: seq<NodeView>, fmt: Format, st: State, v: nat): State
    requires v < |vs|
  {
    var order := Encounter(st.order, v);
    if v in st.seen then st.(order := order)
    else State(order, st.seen + {v}, st.events + [Declare(Id(order, v), ValueLabel(vs[v], fmt))])
  }

  /** One pass of the loop of `dfs(v)` over a non-null dependency `p`:
      number `p` if it has no id yet and write the edge from `p` into `v`. */
  function Edge(st: State, p: nat, v: nat): State {
    var order := Encounter(st.order, p);
    st.(order := order, events := st.events + [Link(Id(order, p), Id(order, v))])
  }

  /** `dfs(v)`: its head, then its loop over the dependencies. */
  function Dfs(vs: seq<NodeView>, fmt: Format, st: State, v: nat): State
    requires Closed(vs) && v < |vs|
    decreases v, |vs[v].prev| + 1
  {
    Expand(vs, fmt, Visit(vs, fmt, st, v), v, 0)
  }

  /** The loop of `dfs(v)` from dependency `k` on: a null entry is skipped;
      otherwise the edge is written and the walk descends into the
      dependency unless it was declared already. */
  function Expand(vs: seq<NodeView>, fmt: Format, st: State, v: nat, k: nat): State
    requires Closed(vs) && v < |vs| && k <= |vs[v].prev|
    decreases v, |vs[v].prev| - k
  {
    if k == |vs[v].prev| then st
    else match vs[v].prev[k]
      case None => Expand(vs, fmt, st, v, k + 1)
      case Some(p) =>
        Expand(vs, fmt, Descent(vs, fmt, Edge(st, p, v), p), v, k + 1)
  }

  /** The walk descends into a dependency only if it is not declared yet. */
  function Descent(vs: seq<NodeView>, fmt: Format, st: State, p: nat): State
    requires Closed(vs) && p < |vs|
    decreases p, |vs[p].prev| + 2
  {
    if p in st.seen then st else Dfs(vs, fmt, st, p)
  }

  /** The walk from the output, which may be null. */
  function Walk(vs: seq<NodeView>, fmt: Format, root: Option<nat>): State
    requires Closed(vs) && (root.Some? ==> root.value < |vs|)
  {
    if root.None? then State([], {}, []) else Dfs(vs, fmt, State([], {}, []), root.value)
  }

  // ---------------------------------------------------------------------
  // Reading the written lines back

  /** The declarations among `es`, in order. */
  function Declares(es: seq<Event>): seq<Event>
  {
    if |es| == 0 then []
    else Declares(es[..|es| - 1]) + (if es[|es| - 1].Declare? then [es[|es| - 1]] else [])
  }

  /** The source ids of the edges into id `d`, in order. */
  function LinksInto(es: seq<Event>, d: nat): seq<nat>
  {
    if |es| == 0 then []
    else
      var e := es[|es| - 1];
      LinksInto(es[..|es| - 1], d) + (if e.Link? && e.dst == d then [e.src] else [])
  }

  lemma DeclaresAppend(es: seq<Event>, e: Event)
    ensures Declares(es + [e]) == Declares(es) + (if e.Declare? then [e] else [])
    ensures forall d :: LinksInto(es + [e], d) == LinksInto(es, d) + (if e.Link? && e.dst == d then [e.src] else [])
  {
    assert (es + [e])[..|es|] == es;
  }

  /** The first `n` declarations a walk that met nodes in order `o` writes:
      declaration `i` gives id `i` the label of node `o[i]`. */
  function Decls(vs: seq<NodeView>, fmt: Format, o: seq<nat>, n: nat): seq<Event>
    requires n <= |o| && forall i :: 0 <= i < |o| ==> o[i] < |vs|
  {
    seq(n, i requires 0 <= i < n => Declare(i, ValueLabel(vs[o[i]], fmt)))
  }

  predicate NoDup(o: seq<nat>) {
    forall i, j :: 0 <= i < j < |o| ==> o[i] != o[j]
  }

  /** What holds between the steps of the walk: every node met once; the
      first nodes met are exactly the declared ones, declared in that
      order under their ids; every edge leaves a numbered node and enters
      a declared one. */
  predicate Consistent(vs: seq<NodeView>, fmt: Format, st: State) {
    var n := |Declares(st.events)|;
    && NoDup(st.order)
    && (forall i :: 0 <= i < |st.order| ==> st.order[i] < |vs|)
    && n <= |st.order|
    && st.seen == Dag.Elems(st.order[..n])
    && Declares(st.events) == Decls(vs, fmt, st.order, n)
    && LinksBounded(st.events, |st.order|, n)
  }

  /** Every edge leaves an id below `m` and enters an id below `n`. */
  predicate LinksBounded(es: seq<Event>, m: nat, n: nat) {
    forall i :: 0 <= i < |es| && es[i].Link? ==> es[i].src < m && es[i].dst < n
  }

  lemma LinksBoundedAppend(es: seq<Event>, e: Event, m: nat, n: nat, m': nat, n': nat)
    requires LinksBounded(es, m, n) && m <= m' && n <= n'
    requires e.Link? ==> e.src < m' && e.dst < n'
    ensures LinksBounded(es + [e], m', n')
  {
  }

  /** Every node met has been declared. */
  predicate Settled(st: State) {
    |Declares(st.events)| == |st.order|
  }

  /** `dfs(v)` is about to run: `v` is not declared, and either nothing is
      pending or `v` is the one node met but not yet declared. */
  predicate Awaiting(st: State, v: nat) {
    && v !in st.seen
    && (Settled(st) || (|Declares(st.events)| + 1 == |st.order| && st.order[|st.order| - 1] == v))
  }

  /** The walk only appends: to the order and to the lines. */
  predicate Grows(st: State, r: State) {
    && |st.order| <= |r.order| && r.order[..|st.order|] == st.order
    && |st.events| <= |r.events| && r.events[..|st.events|] == st.events
  }

  lemma GrowsTransitive(a: State, b: State, c: State)
    requires Grows(a, b) && Grows(b, c)
    ensures Grows(a, c)
  {
    assert c.order[..|a.order|] == c.order[..|b.order|][..|a.order|];
    assert c.events[..|a.events|] == c.events[..|b.events|][..|a.events|];
  }

  /** Ids already given are kept by a walk that only appends. */
  lemma IdKept(o: seq<nat>, o': seq<nat>, x: nat)
    requires |o| <= |o'| && o'[..|o|] == o && x in o
    ensures Id(o', x) == Id(o, x)
  {
    var i, j := Id(o, x), Id(o', x);
    assert o'[i] == o[i];
  }

  lemma InPrefix(o: seq<nat>, o': seq<nat>)
    requires |o| <= |o'| && o'[..|o|] == o
    ensures forall x :: x in o ==> x in o'
  {
    forall x | x in o ensures x in o' {
      var i :| 0 <= i < |o| && o[i] == x;
      assert o'[i] == o'[..|o|][i];
    }
  }

  /** The head of `dfs(v)` on a node awaiting it declares `v` under the
      next id and leaves nothing pending. */
  lemma VisitStep(vs: seq<NodeView>, fmt: Format, st: State, v: nat)
    requires v < |vs| && Consistent(vs, fmt, st) && Awaiting(st, v)
    ensures var r := Visit(vs, fmt, st, v);
      && Consistent(vs, fmt, r) && Settled(r) && Grows(st, r)
      && r.seen == st.seen + {v} && Id(r.order, v) == |Declares(st.events)|
      && r.events == st.events + [Declare(|Declares(st.events)|, ValueLabel(vs[v], fmt))]
  {
    var n := |Declares(st.events)|;
    var order := Encounter(st.order, v);
    VisitOrder(vs, fmt, st, v);
    var e := Declare(n, ValueLabel(vs[v], fmt));
    var r := State(order, st.seen + {v}, st.events + [e]);
    assert Visit(vs, fmt, st, v) == r;
    DeclaredNext(vs, fmt, st, order, v);
    assert r.events[..|st.events|] == st.events;
  }

  /** Declaring `v` under the next id, once it is numbered right after the
      declared nodes, keeps the walk consistent with nothing pending. */
  lemma DeclaredNext(vs: seq<NodeView>, fmt: Format, st: State, order: seq<nat>, v: nat)
    requires v < |vs| && Consistent(vs, fmt, st)
    requires var n := |Declares(st.events)|;
      && |order| == n + 1 && order[..n] == st.order[..n] && order[n] == v
      && |st.order| <= |order| && NoDup(order) && (forall i :: 0 <= i < |order| ==> order[i] < |vs|)
    ensures var n := |Declares(st.events)|;
      var r := State(order, st.seen + {v}, st.events + [Declare(n, ValueLabel(vs[v], fmt))]);
      Consistent(vs, fmt, r) && Settled(r)
  {
    var n := |Declares(st.events)|;
    var e := Declare(n, ValueLabel(vs[v], fmt));
    var r := State(order, st.seen + {v}, st.events + [e]);
    DeclaresAppend(st.events, e);
    assert Declares(r.events) == Decls(vs, fmt, order, n + 1) by {
      assert Declares(st.events) == Decls(vs, fmt, st.order, n);
    }
    assert r.seen == Dag.Elems(order[..n + 1]) by {
      assert order[..n + 1] == st.order[..n] + [v];
    }
    LinksBoundedAppend(st.events, e, |st.order|, n, |order|, n + 1);
  }

  /** Numbering on the head of `dfs(v)`: the declared nodes keep their ids
      and `v` comes right after them. */
  lemma VisitOrder(vs: seq<NodeView>, fmt: Format, st: State, v: nat)
    requires v < |vs| && Consistent(vs, fmt, st) && Awaiting(st, v)
    ensures var n := |Declares(st.events)|;
      var order := Encounter(st.order, v);
      && |order| == n + 1 && order[..n] == st.order[..n] && order[n] == v
      && order[..|st.order|] == st.order
      && NoDup(order) && (forall i :: 0 <= i < |order| ==> order[i] < |vs|)
      && Id(order, v) == n
  {
    var n := |Declares(st.events)|;
    var order := Encounter(st.order, v);
    assert v !in st.order[..n];
    if Settled(st) {
      assert st.order[..n] == st.order;
      assert order == st.order + [v];
    } else {
      assert st.order == st.order[..n] + [v];
    }
  }

  /** An edge step keeps the walk consistent; the dependency is then either
      declared already or awaiting its own `dfs`. */
  lemma EdgeStep(vs: seq<NodeView>, fmt: Format, st: State, p: nat, v: nat)
    requires p < |vs| && Consistent(vs, fmt, st) && Settled(st) && v in st.seen
    ensures var r := Edge(st, p, v);
      && Consistent(vs, fmt, r) && Grows(st, r) && r.seen == st.seen
      && (p in r.seen ==> Settled(r)) && (p !in r.seen ==> Awaiting(r, p))
      && Id(r.order, v) == Id(st.order, v) && Id(r.order, p) < |r.order|
      && r.events == st.events + [Link(Id(r.order, p), Id(st.order, v))]
  {
    var n := |Declares(st.events)|;
    var r := Edge(st, p, v);
    assert st.order[..n] == st.order;
    assert r.order[..|st.order|] == st.order;
    IdKept(st.order, r.order, v);
    DeclaresAppend(st.events, r.events[|st.events|]);
    assert r.events[..|st.events|] == st.events;
    assert r.order[..n] == st.order;
    LinksBoundedAppend(st.events, r.events[|st.events|], |st.order|, n, |r.order|, n);
  }

  lemma {:induction false} DfsShape(vs: seq<NodeView>, fmt: Format, st: State, v: nat)
    requires Closed(vs) && v < |vs| && Consistent(vs, fmt, st) && Awaiting(st, v)
    ensures var r := Dfs(vs, fmt, st, v);
      && Consistent(vs, fmt, r) && Settled(r) && Grows(st, r) && st.seen + {v} <= r.seen
      && Id(r.order, v) == |Declares(st.events)|
    decreases v, |vs[v].prev| + 1
  {
    var st1 := Visit(vs, fmt, st, v);
    VisitStep(vs, fmt, st, v);
    var r := Expand(vs, fmt, st1, v, 0);
    ExpandShape(vs, fmt, st1, v, 0);
    GrowsTransitive(st, st1, r);
    IdKept(st1.order, r.order, v);
  }

  lemma {:induction false} ExpandShape(vs: seq<NodeView>, fmt: Format, st: State, v: nat, k: nat)
    requires Closed(vs) && v < |vs| && k <= |vs[v].prev|
    requires Consistent(vs, fmt, st) && Settled(st) && v in st.seen
    ensures var r := Expand(vs, fmt, st, v, k);
      Consistent(vs, fmt, r) && Settled(r) && Grows(st, r) && st.seen <= r.seen
    decreases v, |vs[v].prev| - k
  {
    if k < |vs[v].prev| {
      match vs[v].prev[k]
      case None =>
        ExpandShape(vs, fmt, st, v, k + 1);
      case Some(p) =>
        var st1 := Edge(st, p, v);
        EdgeStep(vs, fmt, st, p, v);
        var st2 := Descent(vs, fmt, st1, p);
        if p !in st1.seen {
          DfsShape(vs, fmt, st1, p);
          GrowsTransitive(st, st1, st2);
        }
        ExpandShape(vs, fmt, st2, v, k + 1);
        GrowsTransitive(st, st2, Expand(vs, fmt, st2, v, k + 1));
    }
  }

  // ---------------------------------------------------------------------
  // Edges: one per non-null dependency occurrence

  /** The non-null entries of a dependency list, in order, duplicates kept. */
  function Somes(s: seq<Option<nat>>): (xs: seq<nat>)
    ensures forall x :: x in xs <==> Some(x) in s
  {
    if |s| == 0 then []
    else
      assert forall x :: Some(x) in s <==> s[0] == Some(x) || Some(x) in s[1..];
      (if s[0].Some? then [s[0].value] else []) + Somes(s[1..])
  }

  lemma SomesFrom(s: seq<Option<nat>>, k: nat)
    requires k < |s|
    ensures Somes(s[k..]) == (if s[k].Some? then [s[k].value] else []) + Somes(s[k + 1..])
  {
    assert s[k..][1..] == s[k + 1..];
  }

  /** The ids of `xs`, in order. */
  function Ids(o: seq<nat>, xs: seq<nat>): (ys: seq<nat>)
    ensures |ys| == |xs|
    ensures forall j :: 0 <= j < |xs| ==> ys[j] == Id(o, xs[j])
  {
    seq(|xs|, j requires 0 <= j < |xs| => Id(o, xs[j]))
  }

  lemma IdsCons(o: seq<nat>, x: nat, xs: seq<nat>)
    ensures Ids(o, [x] + xs) == [Id(o, x)] + Ids(o, xs)
  {
  }

  lemma IdsKept(o: seq<nat>, o': seq<nat>, xs: seq<nat>)
    requires |o| <= |o'| && o'[..|o|] == o && forall x :: x in xs ==> x in o
    ensures Ids(o', xs) == Ids(o, xs)
  {
    forall j | 0 <= j < |xs| ensures Id(o', xs[j]) == Id(o, xs[j]) {
      IdKept(o, o', xs[j]);
    }
  }

  /** Every non-null dependency of node `x` has been met. */
  predicate DepsIn(vs: seq<NodeView>, x: nat, o: seq<nat>) {
    x < |vs| && forall y :: y in Somes(vs[x].prev) ==> y in o
  }

  /** Node `order[d]` is finished: its dependencies are met, and the edges
      into id `d` come from the ids of exactly its non-null dependencies,
      one per occurrence, in list order. */
  predicate Finished(vs: seq<NodeView>, st: State, d: nat)
    requires d < |st.order|
  {
    && DepsIn(vs, st.order[d], st.order)
    && LinksInto(st.events, d) == Ids(st.order, Somes(vs[st.order[d]].prev))
  }

  /** A node finished before more lines were appended stays finished, as
      long as no further edge enters it. */
  lemma FinishedKept(vs: seq<NodeView>, st: State, r: State, d: nat)
    requires Grows(st, r) && d < |st.order| && Finished(vs, st, d)
    requires LinksInto(r.events, d) == LinksInto(st.events, d)
    ensures Finished(vs, r, d)
  {
    assert r.order[d] == st.order[d];
    InPrefix(st.order, r.order);
    IdsKept(st.order, r.order, Somes(vs[st.order[d]].prev));
  }

  lemma {:induction false} LinksIntoUnused(es: seq<Event>, m: nat, n: nat, d: nat)
    requires LinksBounded(es, m, n) && n <= d
    ensures LinksInto(es, d) == []
    decreases |es|
  {
    if |es| > 0 {
      LinksIntoUnused(es[..|es| - 1], m, n, d);
    }
  }

  lemma {:induction false} DfsLinks(vs: seq<NodeView>, fmt: Format, st: State, v: nat)
    requires Closed(vs) && v < |vs| && Consistent(vs, fmt, st) && Awaiting(st, v)
    ensures var r := Dfs(vs, fmt, st, v);
      var n := |Declares(st.events)|;
      && (forall d :: n <= d < |r.order| ==> Finished(vs, r, d))
      && (forall d: nat :: d < n ==> LinksInto(r.events, d) == LinksInto(st.events, d))
    decreases v, |vs[v].prev| + 1
  {
    var n := |Declares(st.events)|;
    var st1 := Visit(vs, fmt, st, v);
    VisitStep(vs, fmt, st, v);
    DeclaresAppend(st.events, st1.events[|st.events|]);
    var r := Expand(vs, fmt, st1, v, 0);
    ExpandShape(vs, fmt, st1, v, 0);
    ExpandLinks(vs, fmt, st1, v, 0);
    forall d | n <= d < |r.order| ensures Finished(vs, r, d) {
      if d == n {
        assert vs[v].prev[0..] == vs[v].prev;
        assert r.order[n] == v by {
          assert r.order[..|st1.order|][n] == st1.order[n];
        }
        LinksIntoUnused(st.events, |st.order|, n, n);
        assert LinksInto(st1.events, n) == [];
      }
    }
  }

  lemma {:induction false} ExpandLinks(vs: seq<NodeView>, fmt: Format, st: State, v: nat, k: nat)
    requires Closed(vs) && v < |vs| && k <= |vs[v].prev|
    requires Consistent(vs, fmt, st) && Settled(st) && v in st.seen
    ensures var r := Expand(vs, fmt, st, v, k);
      var iv := Id(st.order, v);
      && (forall y :: y in Somes(vs[v].prev[k..]) ==> y in r.order)
      && LinksInto(r.events, iv) == LinksInto(st.events, iv) + Ids(r.order, Somes(vs[v].prev[k..]))
      && (forall d: nat :: d < |st.order| && d != iv ==> LinksInto(r.events, d) == LinksInto(st.events, d))
      && (forall d :: |st.order| <= d < |r.order| ==> Finished(vs, r, d))
    decreases v, |vs[v].prev| - k
  {
    if k < |vs[v].prev| {
      SomesFrom(vs[v].prev, k);
      match vs[v].prev[k]
      case None =>
        ExpandLinks(vs, fmt, st, v, k + 1);
      case Some(p) =>
        ExpandLinksSome(vs, fmt, st, v, k, p);
    }
  }

  lemma {:induction false} ExpandLinksSome(vs: seq<NodeView>, fmt: Format, st: State, v: nat, k: nat, p: nat)
    requires Closed(vs) && v < |vs| && k < |vs[v].prev| && vs[v].prev[k] == Some(p)
    requires Consistent(vs, fmt, st) && Settled(st) && v in st.seen
    ensures var r := Expand(vs, fmt, st, v, k);
      var iv := Id(st.order, v);
      && (forall y :: y in [p] + Somes(vs[v].prev[k + 1..]) ==> y in r.order)
      && LinksInto(r.events, iv) == LinksInto(st.events, iv) + Ids(r.order, [p] + Somes(vs[v].prev[k + 1..]))
      && (forall d: nat :: d < |st.order| && d != iv ==> LinksInto(r.events, d) == LinksInto(st.events, d))
      && (forall d :: |st.order| <= d < |r.order| ==> Finished(vs, r, d))
    decreases v, |vs[v].prev| - k, 0
  {
    var iv := Id(st.order, v);
    var st1 := Edge(st, p, v);
    var st2 := Descent(vs, fmt, st1, p);
    Descend(vs, fmt, st, v, p);
    var r := Expand(vs, fmt, st2, v, k + 1);
    assert r == Expand(vs, fmt, st, v, k);
    ExpandShape(vs, fmt, st2, v, k + 1);
    ExpandLinks(vs, fmt, st2, v, k + 1);
    GrowsTransitive(st1, st2, r);
    IdKept(st.order, st2.order, v);
    EdgeChain(st, st1, st2, r, iv, p, Somes(vs[v].prev[k + 1..]));
    FinishedAcross(vs, |st.order|, iv, st2, r);
  }

  /** The edges into `v` gathered over one pass of the loop: the one just
      written, then those of the rest of the loop. */
  lemma EdgeChain(st: State, st1: State, st2: State, r: State, iv: nat, p: nat, rest: seq<nat>)
    requires |st1.order| <= |r.order| && r.order[..|st1.order|] == st1.order && p in st1.order
    requires iv < |st.order| <= |st2.order|
    requires LinksInto(st2.events, iv) == LinksInto(st.events, iv) + [Id(st1.order, p)]
    requires forall d: nat :: d < |st.order| && d != iv ==> LinksInto(st2.events, d) == LinksInto(st.events, d)
    requires LinksInto(r.events, iv) == LinksInto(st2.events, iv) + Ids(r.order, rest)
    requires forall d: nat :: d < |st2.order| && d != iv ==> LinksInto(r.events, d) == LinksInto(st2.events, d)
    requires forall y :: y in rest ==> y in r.order
    ensures forall y :: y in [p] + rest ==> y in r.order
    ensures LinksInto(r.events, iv) == LinksInto(st.events, iv) + Ids(r.order, [p] + rest)
    ensures forall d: nat :: d < |st.order| && d != iv ==> LinksInto(r.events, d) == LinksInto(st.events, d)
  {
    InPrefix(st1.order, r.order);
    IdKept(st1.order, r.order, p);
    var before, tail := LinksInto(st.events, iv), Ids(r.order, rest);
    IdsCons(r.order, p, rest);
    assert (before + [Id(r.order, p)]) + tail == before + ([Id(r.order, p)] + tail);
  }

  /** Nodes finished before a stretch of the walk that adds no edge into
      them, joined with the nodes finished during it. */
  lemma FinishedAcross(vs: seq<NodeView>, m: nat, iv: nat, st: State, r: State)
    requires Grows(st, r) && iv < m <= |st.order|
    requires forall d :: m <= d < |st.order| ==> Finished(vs, st, d)
    requires forall d: nat :: d < |st.order| && d != iv ==> LinksInto(r.events, d) == LinksInto(st.events, d)
    requires forall d :: |st.order| <= d < |r.order| ==> Finished(vs, r, d)
    ensures forall d :: m <= d < |r.order| ==> Finished(vs, r, d)
  {
    forall d | m <= d < |r.order| ensures Finished(vs, r, d) {
      if d < |st.order| {
        FinishedKept(vs, st, r, d);
      }
    }
  }

  /** The edge from dependency `p` into `v` followed, when `p` is not yet
      declared, by `dfs(p)`: one edge more into `v`, no other edge into a
      node declared before, and every node declared on the way finished. */
  lemma {:induction false} Descend(vs: seq<NodeView>, fmt: Format, st: State, v: nat, p: nat)
    requires Closed(vs) && v < |vs| && p < v
    requires Consistent(vs, fmt, st) && Settled(st) && v in st.seen
    ensures var st1 := Edge(st, p, v);
      var st2 := Descent(vs, fmt, st1, p);
      var iv := Id(st.order, v);
      && Consistent(vs, fmt, st2) && Settled(st2) && Grows(st, st2) && Grows(st1, st2)
      && st.seen <= st2.seen && p in st1.order
      && LinksInto(st2.events, iv) == LinksInto(st.events, iv) + [Id(st1.order, p)]
      && (forall d: nat :: d < |st.order| && d != iv ==> LinksInto(st2.events, d) == LinksInto(st.events, d))
      && (forall d :: |st.order| <= d < |st2.order| ==> Finished(vs, st2, d))
    decreases v, 0
  {
    var st1 := Edge(st, p, v);
    EdgeStep(vs, fmt, st, p, v);
    DeclaresAppend(st.events, st1.events[|st.events|]);
    if p !in st1.seen {
      DescendFresh(vs, fmt, st, v, p);
    } else {
      assert st1.order == st.order;
    }
  }

  /** `dfs(p)` after the edge from an undeclared `p`: it touches no edge
      into a node declared before it and finishes every node it declares. */
  lemma {:induction false} DescendFresh(vs: seq<NodeView>, fmt: Format, st: State, v: nat, p: nat)
    requires Closed(vs) && p < |vs| && p < v
    requires Consistent(vs, fmt, st) && Settled(st) && v in st.seen && p !in st.seen
    ensures var st1 := Edge(st, p, v);
      var st2 := Dfs(vs, fmt, st1, p);
      && Consistent(vs, fmt, st2) && Settled(st2) && Grows(st, st2) && Grows(st1, st2)
      && st.seen <= st2.seen
      && (forall d: nat :: d < |st.order| ==> LinksInto(st2.events, d) == LinksInto(st1.events, d))
      && (forall d :: |st.order| <= d < |st2.order| ==> Finished(vs, st2, d))
    decreases v, 0, 0
  {
    var st1 := Edge(st, p, v);
    EdgeStep(vs, fmt, st, p, v);
    DeclaresAppend(st.events, st1.events[|st.events|]);
    var st2 := Dfs(vs, fmt, st1, p);
    DfsShape(vs, fmt, st1, p);
    DfsLinks(vs, fmt, st1, p);
    GrowsTransitive(st, st1, st2);
  }

  // ---------------------------------------------------------------------
  // Reachability: the walk numbers exactly the nodes reachable from the root

  /** The non-null dependency lists, as the reachability module sees them. */
  function ViewAdj(vs: seq<NodeView>): (adj: Dag.Adjacency)
    ensures |adj| == |vs|
    ensures forall i :: 0 <= i < |vs| ==> adj[i] == Somes(vs[i].prev)
  {
    seq(|vs|, i requires 0 <= i < |vs| => Somes(vs[i].prev))
  }

  lemma ViewAdjOrdered(vs: seq<NodeView>)
    requires Closed(vs)
    ensures Dag.Ordered(ViewAdj(vs))
  {
    var adj := ViewAdj(vs);
    forall i, k | 0 <= i < |adj| && 0 <= k < |adj[i]| ensures adj[i][k] < i {
      assert adj[i][k] in Somes(vs[i].prev);
      var j :| 0 <= j < |vs[i].prev| && vs[i].prev[j] == Some(adj[i][k]);
    }
  }

  /** Whatever a non-null dependency of `v` reaches, `v` reaches. */
  lemma ReachThroughDependency(vs: seq<NodeView>, v: nat, k: nat)
    requires Closed(vs) && v < |vs| && k < |vs[v].prev| && vs[v].prev[k].Some?
    ensures vs[v].prev[k].value < |vs|
    ensures Dag.Reach(ViewAdj(vs), vs[v].prev[k].value) <= Dag.Reach(ViewAdj(vs), v)
  {
    var adj := ViewAdj(vs);
    ViewAdjOrdered(vs);
    var p := vs[v].prev[k].value;
    assert p in adj[v];
    var j :| 0 <= j < |adj[v]| && adj[v][j] == p;
    Dag.ReachOfDependency(adj, v, j);
  }

  /** Every node `dfs(v)` numbers is reachable from `v`. */
  lemma {:induction false} DfsReach(vs: seq<NodeView>, fmt: Format, st: State, v: nat)
    requires Closed(vs) && v < |vs| && Consistent(vs, fmt, st) && Awaiting(st, v)
    ensures var r := Dfs(vs, fmt, st, v);
      forall d :: |Declares(st.events)| <= d < |r.order| ==> r.order[d] in Dag.Reach(ViewAdj(vs), v)
    decreases v, |vs[v].prev| + 1
  {
    var n := |Declares(st.events)|;
    var st1 := Visit(vs, fmt, st, v);
    VisitStep(vs, fmt, st, v);
    var r := Expand(vs, fmt, st1, v, 0);
    ExpandShape(vs, fmt, st1, v, 0);
    ExpandReach(vs, fmt, st1, v, 0);
    Dag.ReachHasRoot(ViewAdj(vs), v);
    ReachedFromHead(st1.order, r.order, n, v, Dag.Reach(ViewAdj(vs), v));
  }

  /** A walk that numbered `v` last and then only nodes of `s` has, from
      `v`'s id on, numbered only nodes of `s`, if `v` is one. */
  lemma ReachedFromHead(o: seq<nat>, o': seq<nat>, n: nat, v: nat, s: set<nat>)
    requires |o| == n + 1 && |o| <= |o'| && o'[..|o|] == o && o[n] == v && v in s
    requires forall d :: |o| <= d < |o'| ==> o'[d] in s
    ensures forall d :: n <= d < |o'| ==> o'[d] in s
  {
    assert o'[n] == o'[..|o|][n];
  }

  lemma {:induction false} ExpandReach(vs: seq<NodeView>, fmt: Format, st: State, v: nat, k: nat)
    requires Closed(vs) && v < |vs| && k <= |vs[v].prev|
    requires Consistent(vs, fmt, st) && Settled(st) && v in st.seen
    ensures var r := Expand(vs, fmt, st, v, k);
      forall d :: |st.order| <= d < |r.order| ==> r.order[d] in Dag.Reach(ViewAdj(vs), v)
    decreases v, |vs[v].prev| - k
  {
    if k < |vs[v].prev| {
      match vs[v].prev[k]
      case None =>
        assert Expand(vs, fmt, st, v, k) == Expand(vs, fmt, st, v, k + 1);
        ExpandReach(vs, fmt, st, v, k + 1);
      case Some(p) =>
        ExpandReachSome(vs, fmt, st, v, k, p);
    }
  }

  lemma {:induction false} ExpandReachSome(vs: seq<NodeView>, fmt: Format, st: State, v: nat, k: nat, p: nat)
    requires Closed(vs) && v < |vs| && k < |vs[v].prev| && vs[v].prev[k] == Some(p)
    requires Consistent(vs, fmt, st) && Settled(st) && v in st.seen
    ensures var r := Expand(vs, fmt, st, v, k);
      forall d :: |st.order| <= d < |r.order| ==> r.order[d] in Dag.Reach(ViewAdj(vs), v)
    decreases v, |vs[v].prev| - k, 0
  {
    var st1 := Edge(st, p, v);
    var st2 := Descent(vs, fmt, st1, p);
    Descend(vs, fmt, st, v, p);
    DescendReach(vs, fmt, st, v, k, p);
    var r := Expand(vs, fmt, st2, v, k + 1);
    ExpandShape(vs, fmt, st2, v, k + 1);
    ExpandReach(vs, fmt, st2, v, k + 1);
    ReachedKept(st2.order, r.order, |st.order|, Dag.Reach(ViewAdj(vs), v));
  }

  /** Every node numbered by the edge step and the descent into `p` is
      reachable from `v`. */
  lemma {:induction false} DescendReach(vs: seq<NodeView>, fmt: Format, st: State, v: nat, k: nat, p: nat)
    requires Closed(vs) && v < |vs| && k < |vs[v].prev| && vs[v].prev[k] == Some(p)
    requires Consistent(vs, fmt, st) && Settled(st) && v in st.seen
    ensures var st2 := Descent(vs, fmt, Edge(st, p, v), p);
      forall d :: |st.order| <= d < |st2.order| ==> st2.order[d] in Dag.Reach(ViewAdj(vs), v)
    decreases v, |vs[v].prev| - k, 0, 0
  {
    var st1 := Edge(st, p, v);
    EdgeStep(vs, fmt, st, p, v);
    ReachThroughDependency(vs, v, k);
    if p !in st1.seen {
      DeclaresAppend(st.events, st1.events[|st.events|]);
      assert |Declares(st1.events)| == |st.order|;
      DfsReach(vs, fmt, st1, p);
      assert var r := Dfs(vs, fmt, st1, p);
        forall d :: |Declares(st1.events)| <= d < |r.order| ==> r.order[d] in Dag.Reach(ViewAdj(vs), p);
      var o := Dfs(vs, fmt, st1, p).order;
      assert forall d :: |Declares(st1.events)| <= d < |o| ==> o[d] in Dag.Reach(ViewAdj(vs), p);
      assert forall d :: |st.order| <= d < |o| ==> o[d] in Dag.Reach(ViewAdj(vs), p);
      Widen(o, |st.order|, Dag.Reach(ViewAdj(vs), p), Dag.Reach(ViewAdj(vs), v));
    } else {
      assert st1.order == st.order;
    }
  }

  lemma Widen(o: seq<nat>, m: nat, a: set<nat>, b: set<nat>)
    requires a <= b && forall d :: m <= d < |o| ==> o[d] in a
    ensures forall d :: m <= d < |o| ==> o[d] in b
  {
  }

  lemma ReachedKept(o: seq<nat>, o': seq<nat>, m: nat, s: set<nat>)
    requires |o| <= |o'| && o'[..|o|] == o
    requires forall d :: m <= d < |o| ==> o[d] in s
    requires forall d :: |o| <= d < |o'| ==> o'[d] in s
    ensures forall d :: m <= d < |o'| ==> o'[d] in s
  {
    forall d | m <= d < |o'| ensures o'[d] in s {
      if d < |o| {
        assert o'[d] == o'[..|o|][d];
      }
    }
  }

  // ---------------------------------------------------------------------
  // The whole walk and the DOT text

  /** `to_dot` from a non-null output `r`. The ids run from 0 in the order
      nodes are first met, so the output is `n0`; the numbered nodes are
      exactly those reachable from `r`, each met once; the declarations are
      written in id order, one per node, each with that node's label; and
      the edges into each node come from exactly its non-null
      dependencies, one per occurrence and in list order, so a repeated
      operand gives repeated edges. Nothing else receives an edge. */
  lemma WalkFromRoot(vs: seq<NodeView>, fmt: Format, r: nat)
    requires Closed(vs) && r < |vs|
    ensures var t := Walk(vs, fmt, Some(r));
      && NoDup(t.order) && |t.order| > 0 && t.order[0] == r
      && (forall d :: 0 <= d < |t.order| ==> t.order[d] < |vs|)
      && (forall x :: x in t.order <==> x in Dag.Reach(ViewAdj(vs), r))
      && t.seen == Dag.Elems(t.order)
      && Declares(t.events) == Decls(vs, fmt, t.order, |t.order|)
      && (forall d :: 0 <= d < |t.order| ==> LinksInto(t.events, d) == Ids(t.order, Somes(vs[t.order[d]].prev)))
      && (forall d: nat :: d >= |t.order| ==> LinksInto(t.events, d) == [])
  {
    var t := Dfs(vs, fmt, State([], {}, []), r);
    FirstDfs(vs, fmt, r, t);
    assert Walk(vs, fmt, Some(r)) == t;
    WalkDone(vs, fmt, t, r);
  }

  /** `dfs(r)` on a fresh walk: consistent, nothing pending, `r` numbered
      first, every node met finished and reachable from `r`. */
  lemma FirstDfs(vs: seq<NodeView>, fmt: Format, r: nat, t: State)
    requires Closed(vs) && r < |vs| && t == Dfs(vs, fmt, State([], {}, []), r)
    ensures Consistent(vs, fmt, t) && Settled(t)
    ensures |t.order| > 0 && t.order[0] == r && NoDup(t.order)
    ensures forall d :: 0 <= d < |t.order| ==> t.order[d] < |vs|
    ensures forall d :: 0 <= d < |t.order| ==> Finished(vs, t, d)
    ensures forall d :: 0 <= d < |t.order| ==> t.order[d] in Dag.Reach(ViewAdj(vs), r)
  {
    var s0 := State([], {}, []);
    assert Consistent(vs, fmt, s0) by {
      assert Decls(vs, fmt, [], 0) == [];
    }
    DfsShape(vs, fmt, s0, r);
    DfsLinks(vs, fmt, s0, r);
    DfsReach(vs, fmt, s0, r);
  }

  /** A consistent walk with nothing pending whose first node is `r`,
      whose nodes are all finished and all reachable from `r`, has the
      shape `WalkFromRoot` states. */
  lemma WalkDone(vs: seq<NodeView>, fmt: Format, t: State, r: nat)
    requires Closed(vs) && r < |vs| && Consistent(vs, fmt, t) && Settled(t)
    requires |t.order| > 0 && t.order[0] == r
    requires forall d :: 0 <= d < |t.order| ==> Finished(vs, t, d)
    requires forall d :: 0 <= d < |t.order| ==> t.order[d] in Dag.Reach(ViewAdj(vs), r)
    ensures (forall x :: x in t.order <==> x in Dag.Reach(ViewAdj(vs), r))
    ensures t.seen == Dag.Elems(t.order)
    ensures Declares(t.events) == Decls(vs, fmt, t.order, |t.order|)
    ensures forall d :: 0 <= d < |t.order| ==> LinksInto(t.events, d) == Ids(t.order, Somes(vs[t.order[d]].prev))
    ensures forall d: nat :: d >= |t.order| ==> LinksInto(t.events, d) == []
  {
    assert t.order[..|t.order|] == t.order;
    WalkReach(vs, t, r);
    forall d | 0 <= d < |t.order| ensures LinksInto(t.events, d) == Ids(t.order, Somes(vs[t.order[d]].prev)) {
      assert Finished(vs, t, d);
    }
    forall d: nat | d >= |t.order| ensures LinksInto(t.events, d) == [] {
      LinksIntoUnused(t.events, |t.order|, |t.order|, d);
    }
  }

  /** The nodes a finished walk met, all reachable and each finished, are
      all the reachable nodes. */
  lemma WalkReach(vs: seq<NodeView>, t: State, r: nat)
    requires Closed(vs) && r < |vs| && r in t.order
    requires forall d :: 0 <= d < |t.order| ==> Finished(vs, t, d)
    requires forall d :: 0 <= d < |t.order| ==> t.order[d] in Dag.Reach(ViewAdj(vs), r)
    ensures forall x :: x in t.order <==> x in Dag.Reach(ViewAdj(vs), r)
  {
    var adj := ViewAdj(vs);
    var s := Dag.Elems(t.order);
    assert Dag.ClosedUnder(adj, s) by {
      forall x, k | x in s && x < |adj| && 0 <= k < |adj[x]| ensures adj[x][k] in s {
        var d :| 0 <= d < |t.order| && t.order[d] == x;
        assert Finished(vs, t, d);
        assert adj[x][k] in Somes(vs[x].prev);
      }
    }
    Dag.ReachLeast(adj, r, s);
    forall x | x in Dag.Reach(adj, r) ensures x in t.order {
      assert x in s;
    }
    forall x | x in t.order ensures x in Dag.Reach(adj, r) {
      var d :| 0 <= d < |t.order| && t.order[d] == x;
    }
  }

  /** A null output writes no node and no edge. */
  lemma WalkFromNull(vs: seq<NodeView>, fmt: Format)
    requires Closed(vs)
    ensures Walk(vs, fmt, None).events == []
  {
  }

  const Header: string := "digraph autograd {\n  rankdir=LR;\n  node [shape=box];\n"
  const Footer: string := "}\n"

  /** The text of one written line. */
  function Line(e: Event): string {
    match e
    case Declare(i, text) => "  n" + Text.NatToString(i) + " [label=\"" + text + "\"];\n"
    case Link(p, d) => "  n" + Text.NatToString(p) + " -> n" + Text.NatToString(d) + ";\n"
  }

  function Render(es: seq<Event>): string {
    if |es| == 0 then "" else Line(es[0]) + Render(es[1..])
  }

  /** `to_dot`: the graph header, the walk's lines in order, the closing
      brace. */
  function ToDot(vs: seq<NodeView>, fmt: Format, root: Option<nat>): (s: string)
    requires Closed(vs) && (root.Some? ==> root.value < |vs|)
    ensures |s| >= |Header| + |Footer|
    ensures s[..|Header|] == Header && s[|s| - |Footer|..] == Footer
    ensures root.None? ==> s == Header + Footer
  {
    var body := Render(Walk(vs, fmt, root).events);
    var s := Header + body + Footer;
    assert s[..|Header|] == Header;
    assert s[|s| - |Footer|..] == Footer;
    s
  }

  // ---------------------------------------------------------------------
  // Engine graphs seen through the export

  /** The export's view of engine node `i`: every dependency non-null, the
      operation printed by its name. */
  function ViewOf(g: Values.Graph, i: nat): NodeView
    requires Values.WellFormed(g) && i < |g.nodes|
  {
    var n := g.nodes[i];
    NodeView(n.data, g.grads[i], Wrap(n.prev), if n.op.Some? then Some(Ops.Name(n.op.value)) else None, n.caption)
  }

  /** A dependency list with no null entry. */
  function Wrap(xs: seq<nat>): (w: seq<Option<nat>>)
    ensures |w| == |xs| && forall k :: 0 <= k < |xs| ==> w[k] == Some(xs[k])
  {
    seq(|xs|, k requires 0 <= k < |xs| => Some(xs[k]))
  }

  function EngineViews(g: Values.Graph): (vs: seq<NodeView>)
    requires Values.WellFormed(g)
    ensures |vs| == |g.nodes| && Closed(vs)
    ensures forall i :: 0 <= i < |g.nodes| ==> vs[i] == ViewOf(g, i)
  {
    seq(|g.nodes|, i requires 0 <= i < |g.nodes| => ViewOf(g, i))
  }

  lemma {:induction false} SomesOfAll(xs: seq<nat>)
    ensures Somes(Wrap(xs)) == xs
    decreases |xs|
  {
    if |xs| > 0 {
      SomesOfAll(xs[1..]);
      assert Wrap(xs)[1..] == Wrap(xs[1..]);
      assert [xs[0]] + xs[1..] == xs;
    }
  }

  /** The export of an engine graph from node `r` numbers exactly the nodes
      the backward pass from `r` visits, and draws into each one edge per
      entry of its dependency list, so `a + a` gets two edges from `a`. */
  lemma EngineWalk(g: Values.Graph, fmt: Format, r: nat)
    requires Values.WellFormed(g) && r < |g.nodes|
    ensures var t := Walk(EngineViews(g), fmt, Some(r));
      && (forall x :: x in t.order <==> x in Backprop.Reachable(g, r))
      && (forall d :: 0 <= d < |t.order| ==> t.order[d] < |g.nodes|)
      && (forall d :: 0 <= d < |t.order| ==> LinksInto(t.events, d) == Ids(t.order, g.nodes[t.order[d]].prev))
  {
    var vs := EngineViews(g);
    WalkFromRoot(vs, fmt, r);
    assert ViewAdj(vs) == Values.Adj(g) by {
      forall i | 0 <= i < |g.nodes| ensures ViewAdj(vs)[i] == Values.Adj(g)[i] {
        SomesOfAll(g.nodes[i].prev);
      }
    }
    var t := Walk(vs, fmt, Some(r));
    forall d | 0 <= d < |t.order| ensures LinksInto(t.events, d) == Ids(t.order, g.nodes[t.order[d]].prev) {
      SomesOfAll(g.nodes[t.order[d]].prev);
    }
  }
}
