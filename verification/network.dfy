/** The network building blocks on top of the engine: a neuron is a weight
    leaf per input and a bias leaf; calling it folds `out + w_i * x_i` from
    the bias and applies tanh. A layer calls each of its neurons on the
    same input; a network feeds each layer's outputs to the next. Every
    call appends nodes to the arena and returns the indices of its
    outputs. */
module Network {
  import opened Results
  import opened Ops
  import opened Values
  import Engine
  import Text

  /** The pseudo-random stream `rand()` draws from, already scaled to
      [-1, 1]: draw `k` is the k-th call's value. */
  type Draws = d: nat -> real | forall k :: -1.0 <= d(k) <= 1.0 witness (k: nat) => 0.0

  datatype Neuron = Neuron(weights: seq<nat>, bias: nat)

  datatype Layer = Layer(neurons: seq<Neuron>)

  datatype Net = Net(layers: seq<Layer>)

  // Labels of the parameters.

  function WeightLabel(l: nat, n: nat, w: nat): string {
    "L" + Text.NatToString(l) + "N" + Text.NatToString(n) + "W" + Text.NatToString(w)
  }

  function BiasLabel(l: nat, n: nat): string {
    "L" + Text.NatToString(l) + "N" + Text.NatToString(n) + "B"
  }

  /** Digit strings followed by a non-digit split the same way. */
  lemma DigitsPrefix(a: string, b: string, c: char, x: string, y: string)
    requires forall i :: 0 <= i < |a| ==> Text.IsDigit(a[i])
    requires forall i :: 0 <= i < |b| ==> Text.IsDigit(b[i])
    requires !Text.IsDigit(c) && a + [c] + x == b + [c] + y
    ensures a == b && x == y
  {
    var s := a + [c] + x;
    assert s[|a|] == c && s[|b|] == c;
    assert forall i :: 0 <= i < |b| ==> s[i] == b[i];
    assert forall i :: 0 <= i < |a| ==> s[i] == a[i];
    assert |a| == |b|;
    assert a == (a + [c] + x)[..|a|];
    assert b == (b + [c] + y)[..|b|];
    assert x == (a + [c] + x)[|a| + 1..];
    assert y == (b + [c] + y)[|b| + 1..];
  }

  /** A weight label names one weight: layer, neuron and weight index can
      be read back from it. */
  lemma WeightLabelInjective(l: nat, n: nat, w: nat, l': nat, n': nat, w': nat)
    requires WeightLabel(l, n, w) == WeightLabel(l', n', w')
    ensures l == l' && n == n' && w == w'
  {
    var sl, sn, sw := Text.NatToString(l), Text.NatToString(n), Text.NatToString(w);
    var tl, tn, tw := Text.NatToString(l'), Text.NatToString(n'), Text.NatToString(w');
    assert WeightLabel(l, n, w) == ['L'] + (sl + ['N'] + (sn + ['W'] + sw));
    assert WeightLabel(l', n', w') == ['L'] + (tl + ['N'] + (tn + ['W'] + tw));
    assert sl + ['N'] + (sn + ['W'] + sw) == tl + ['N'] + (tn + ['W'] + tw) by {
      assert WeightLabel(l, n, w)[1..] == sl + ['N'] + (sn + ['W'] + sw);
      assert WeightLabel(l', n', w')[1..] == tl + ['N'] + (tn + ['W'] + tw);
    }
    DigitsPrefix(sl, tl, 'N', sn + ['W'] + sw, tn + ['W'] + tw);
    DigitsPrefix(sn, tn, 'W', sw, tw);
    Text.NatToStringInjective(l, l');
    Text.NatToStringInjective(n, n');
    Text.NatToStringInjective(w, w');
  }

  /** A bias label names one neuron. */
  lemma BiasLabelInjective(l: nat, n: nat, l': nat, n': nat)
    requires BiasLabel(l, n) == BiasLabel(l', n')
    ensures l == l' && n == n'
  {
    var sl, sn := Text.NatToString(l), Text.NatToString(n);
    var tl, tn := Text.NatToString(l'), Text.NatToString(n');
    assert BiasLabel(l, n) == ['L'] + (sl + ['N'] + (sn + ['B']));
    assert BiasLabel(l', n') == ['L'] + (tl + ['N'] + (tn + ['B']));
    assert sl + ['N'] + (sn + ['B']) == tl + ['N'] + (tn + ['B']) by {
      assert BiasLabel(l, n)[1..] == sl + ['N'] + (sn + ['B']);
      assert BiasLabel(l', n')[1..] == tl + ['N'] + (tn + ['B']);
    }
    DigitsPrefix(sl, tl, 'N', sn + ['B'], tn + ['B']);
    assert sn == (sn + ['B'])[..|sn|] && tn == (tn + ['B'])[..|tn|];
    Text.NatToStringInjective(l, l');
    Text.NatToStringInjective(n, n');
  }

  /** A weight label ends in a digit, a bias label in `B`. */
  lemma WeightIsNotBias(l: nat, n: nat, w: nat, l': nat, n': nat)
    ensures WeightLabel(l, n, w) != BiasLabel(l', n')
  {
    var sw := Text.NatToString(w);
    var wl := WeightLabel(l, n, w);
    assert wl == ("L" + Text.NatToString(l) + "N" + Text.NatToString(n) + "W") + sw;
    assert wl[|wl| - 1] == sw[|sw| - 1];
    var bl := BiasLabel(l', n');
    assert bl[|bl| - 1] == 'B';
  }

  // Construction.

  /** Weights `w`, `w + 1`, ..., `count - 1` of neuron `n` in layer `l`,
      one labelled leaf each, taking draws `k`, `k + 1`, ... in turn. */
  function AddWeights(g: Graph, l: nat, n: nat, w: nat, count: nat, draws: Draws, k: nat): (r: (Graph, seq<nat>))
    requires WellFormed(g) && w <= count
    ensures WellFormed(r.0) && Extends(g, r.0)
    ensures |r.0.nodes| == |g.nodes| + (count - w) && |r.1| == count - w
    ensures forall i :: 0 <= i < |r.1| ==>
      && r.1[i] == |g.nodes| + i
      && GetData(r.0, r.1[i]) == draws(k + i)
      && GetLabel(r.0, r.1[i]) == Some(WeightLabel(l, n, w + i))
      && GetPrev(r.0, r.1[i]) == [] && GetOperation(r.0, r.1[i]) == None
    decreases count - w
  {
    if w == count then (g, [])
    else
      var (g1, v) := Leaf(g, draws(k), Some(WeightLabel(l, n, w)));
      var (h, vs) := AddWeights(g1, l, n, w + 1, count, draws, k + 1);
      ExtendsTransitive(g, g1, h);
      ExtendsKeeps(g1, h);
      assert forall i :: 1 <= i < count - w ==> ([v] + vs)[i] == vs[i - 1];
      (h, [v] + vs)
  }

  /** The `Neuron` constructor: `count` weight leaves labelled
      `L<l>N<n>W<w>` holding draws `k`, `k + 1`, ..., then a bias leaf
      labelled `L<l>N<n>B` holding 0. Returns the next unused draw. */
  function NewNeuron(g: Graph, count: nat, l: nat, n: nat, draws: Draws, k: nat): (r: (Graph, Neuron, nat))
    requires WellFormed(g)
    ensures WellFormed(r.0) && Extends(g, r.0)
    ensures |r.0.nodes| == |g.nodes| + count + 1 && r.2 == k + count
    ensures |r.1.weights| == count && r.1.bias == |g.nodes| + count
    ensures GetData(r.0, r.1.bias) == 0.0 && GetPrev(r.0, r.1.bias) == [] && GetOperation(r.0, r.1.bias) == None
    ensures Labelled(r.0, r.1, l, n)
    ensures Initialised(r.0, r.1, draws, k)
  {
    var (g1, ws) := AddWeights(g, l, n, 0, count, draws, k);
    var (h, b) := Leaf(g1, 0.0, Some(BiasLabel(l, n)));
    ExtendsTransitive(g, g1, h);
    ExtendsKeeps(g1, h);
    (h, Neuron(ws, b), k + count)
  }

  /** Weight `w` of a new neuron is a leaf holding draw `k + w`, so it lies
      in [-1, 1]. */
  lemma NewNeuronWeights(g: Graph, count: nat, l: nat, n: nat, draws: Draws, k: nat)
    requires WellFormed(g)
    ensures var (h, nr, _) := NewNeuron(g, count, l, n, draws, k);
      forall w :: 0 <= w < count ==>
        && GetData(h, nr.weights[w]) == draws(k + w)
        && -1.0 <= GetData(h, nr.weights[w]) <= 1.0
        && GetPrev(h, nr.weights[w]) == [] && GetOperation(h, nr.weights[w]) == None
  {
    var (g1, ws) := AddWeights(g, l, n, 0, count, draws, k);
    var (h, b) := Leaf(g1, 0.0, Some(BiasLabel(l, n)));
    ExtendsKeeps(g1, h);
  }

  /** `parameters()`: the weights in order, then the bias. */
  function Parameters(nr: Neuron): (p: seq<nat>)
    ensures |p| == |nr.weights| + 1
  {
    nr.weights + [nr.bias]
  }

  /** The parameters of a freshly built neuron are exactly the nodes its
      constructor appended, in the order it appended them, weights first. */
  lemma FreshParameters(g: Graph, count: nat, l: nat, n: nat, draws: Draws, k: nat)
    requires WellFormed(g)
    ensures var (h, nr, _) := NewNeuron(g, count, l, n, draws, k);
      && |Parameters(nr)| == |h.nodes| - |g.nodes|
      && (forall i :: 0 <= i < |Parameters(nr)| ==> Parameters(nr)[i] == |g.nodes| + i)
      && Parameters(nr)[count] == nr.bias
      && (forall i :: 0 <= i < count ==> Parameters(nr)[i] == nr.weights[i])
  {
  }

  predicate NeuronIn(g: Graph, nr: Neuron) {
    AllIn(g, nr.weights) && nr.bias < |g.nodes|
  }

  predicate LayerIn(g: Graph, layer: Layer) {
    forall j :: 0 <= j < |layer.neurons| ==> NeuronIn(g, layer.neurons[j])
  }

  predicate NetIn(g: Graph, layers: seq<Layer>) {
    forall i :: 0 <= i < |layers| ==> LayerIn(g, layers[i])
  }

  /** The parameters of `nr` carry the labels of neuron `n` in layer `l`. */
  predicate Labelled(g: Graph, nr: Neuron, l: nat, n: nat) {
    && NeuronIn(g, nr)
    && (forall w :: 0 <= w < |nr.weights| ==> GetLabel(g, nr.weights[w]) == Some(WeightLabel(l, n, w)))
    && GetLabel(g, nr.bias) == Some(BiasLabel(l, n))
  }

  /** A neuron as its constructor leaves it: weight `w` is a leaf holding
      draw `k + w`, and the bias is a leaf holding 0. */
  predicate Initialised(g: Graph, nr: Neuron, draws: Draws, k: nat) {
    && NeuronIn(g, nr)
    && (forall w :: 0 <= w < |nr.weights| ==>
          && GetData(g, nr.weights[w]) == draws(k + w)
          && GetPrev(g, nr.weights[w]) == [] && GetOperation(g, nr.weights[w]) == None)
    && GetData(g, nr.bias) == 0.0 && GetPrev(g, nr.bias) == [] && GetOperation(g, nr.bias) == None
  }

  /** Neuron `j` of a layer of `inputs`-input neurons took the draws from
      `FirstDraw(k, inputs, j)` on. */
  predicate LayerInitialised(g: Graph, layer: Layer, inputs: nat, draws: Draws, k: nat) {
    forall j :: 0 <= j < |layer.neurons| ==> Initialised(g, layer.neurons[j], draws, FirstDraw(k, inputs, j))
  }

  /** The first draw of neuron `j` when each neuron before it took `inputs`
      draws from `k` on; `FirstDrawIsOffset` gives its closed form. */
  function FirstDraw(k: nat, inputs: nat, j: nat): nat {
    if j == 0 then k else FirstDraw(k, inputs, j - 1) + inputs
  }

  lemma {:induction false} FirstDrawIsOffset(k: nat, inputs: nat, j: nat)
    ensures FirstDraw(k, inputs, j) == k + inputs * j
  {
    if j > 0 {
      FirstDrawIsOffset(k, inputs, j - 1);
      assert inputs * j == inputs * (j - 1) + inputs;
    }
  }

  lemma InitialisedKept(g: Graph, h: Graph, nr: Neuron, draws: Draws, k: nat)
    requires Extends(g, h) && Initialised(g, nr, draws, k)
    ensures Initialised(h, nr, draws, k)
  {
    ExtendsKeeps(g, h);
  }

  lemma LayerInitialisedKept(g: Graph, h: Graph, layer: Layer, inputs: nat, draws: Draws, k: nat)
    requires Extends(g, h) && LayerInitialised(g, layer, inputs, draws, k)
    ensures LayerInitialised(h, layer, inputs, draws, k)
  {
    forall j | 0 <= j < |layer.neurons| ensures Initialised(h, layer.neurons[j], draws, FirstDraw(k, inputs, j)) {
      InitialisedKept(g, h, layer.neurons[j], draws, FirstDraw(k, inputs, j));
    }
  }

  lemma LayerInitialisedAppend(g: Graph, ns: seq<Neuron>, nr: Neuron, inputs: nat, draws: Draws, k: nat)
    requires LayerInitialised(g, Layer(ns), inputs, draws, k) && Initialised(g, nr, draws, FirstDraw(k, inputs, |ns|))
    ensures LayerInitialised(g, Layer(ns + [nr]), inputs, draws, k)
  {
    var r := ns + [nr];
    forall j | 0 <= j < |r| ensures Initialised(g, r[j], draws, FirstDraw(k, inputs, j)) {
      if j < |ns| {
        assert r[j] == Layer(ns).neurons[j];
      }
    }
  }

  predicate LayerLabelled(g: Graph, layer: Layer, l: nat) {
    forall j :: 0 <= j < |layer.neurons| ==> Labelled(g, layer.neurons[j], l, j)
  }

  lemma LabelledKept(g: Graph, h: Graph, nr: Neuron, l: nat, n: nat)
    requires Extends(g, h) && Labelled(g, nr, l, n)
    ensures Labelled(h, nr, l, n)
  {
    ExtendsKeeps(g, h);
  }

  lemma LayerLabelledKept(g: Graph, h: Graph, layer: Layer, l: nat)
    requires Extends(g, h) && LayerLabelled(g, layer, l)
    ensures LayerLabelled(h, layer, l)
  {
    forall j | 0 <= j < |layer.neurons| ensures Labelled(h, layer.neurons[j], l, j) {
      LabelledKept(g, h, layer.neurons[j], l, j);
    }
  }

  lemma LayerLabelledAppend(g: Graph, ns: seq<Neuron>, nr: Neuron, l: nat)
    requires LayerLabelled(g, Layer(ns), l) && Labelled(g, nr, l, |ns|)
    ensures LayerLabelled(g, Layer(ns + [nr]), l)
  {
    var r := ns + [nr];
    forall j | 0 <= j < |r| ensures Labelled(g, r[j], l, j) {
      if j < |ns| {
        assert r[j] == Layer(ns).neurons[j];
      }
    }
  }

  /** A labelled neuron's parameters lie in the arena. */
  lemma LayerLabelledIn(g: Graph, layer: Layer, l: nat)
    requires LayerLabelled(g, layer, l)
    ensures LayerIn(g, layer)
  {
    forall j | 0 <= j < |layer.neurons| ensures NeuronIn(g, layer.neurons[j]) {
      assert Labelled(g, layer.neurons[j], l, j);
    }
  }

  /** The first `|ns|` neurons of a layer under construction: each takes
      `inputs` inputs, carries its labels and was initialised from its own
      draws. */
  predicate LayerSoFar(h: Graph, ns: seq<Neuron>, inputs: nat, l: nat, draws: Draws, k: nat) {
    && LayerLabelled(h, Layer(ns), l) && Fits(Layer(ns), inputs)
    && LayerInitialised(h, Layer(ns), inputs, draws, k)
  }

  /** Building the next neuron extends a partial layer by one. */
  lemma LayerStep(h: Graph, ns: seq<Neuron>, inputs: nat, l: nat, draws: Draws, k: nat, next: nat)
    requires WellFormed(h) && LayerSoFar(h, ns, inputs, l, draws, k) && next == FirstDraw(k, inputs, |ns|)
    ensures var r := NewNeuron(h, inputs, l, |ns|, draws, next);
      && LayerSoFar(r.0, ns + [r.1], inputs, l, draws, k) && r.2 == FirstDraw(k, inputs, |ns| + 1)
  {
    var r := NewNeuron(h, inputs, l, |ns|, draws, next);
    LayerLabelledKept(h, r.0, Layer(ns), l);
    LayerLabelledAppend(r.0, ns, r.1, l);
    LayerInitialisedKept(h, r.0, Layer(ns), inputs, draws, k);
    LayerInitialisedAppend(r.0, ns, r.1, inputs, draws, k);
    var ns' := ns + [r.1];
    assert Fits(Layer(ns'), inputs) by {
      forall j | 0 <= j < |ns'| ensures |ns'[j].weights| == inputs {
        if j < |ns| {
          assert ns'[j] == Layer(ns).neurons[j];
        }
      }
    }
  }

  /** A finished layer: its parameters lie in the arena. */
  lemma LayerDone(h: Graph, ns: seq<Neuron>, inputs: nat, l: nat, draws: Draws, k: nat)
    requires LayerSoFar(h, ns, inputs, l, draws, k)
    ensures LayerLabelled(h, Layer(ns), l) && LayerIn(h, Layer(ns)) && Fits(Layer(ns), inputs)
    ensures LayerInitialised(h, Layer(ns), inputs, draws, k)
    ensures FirstDraw(k, inputs, |ns|) == k + inputs * |ns|
  {
    LayerLabelledIn(h, Layer(ns), l);
    FirstDrawIsOffset(k, inputs, |ns|);
  }

  /** The `FullyConnectedLayer` constructor: `outputs` neurons of `inputs`
      inputs each, built in turn, neuron `j` labelled as neuron `j` of
      layer `l`. Returns the next unused draw. */
  method NewLayer(g: Graph, inputs: nat, outputs: nat, l: nat, draws: Draws, k: nat) returns (h: Graph, layer: Layer, next: nat)
    requires WellFormed(g)
    ensures WellFormed(h) && Extends(g, h)
    ensures |layer.neurons| == outputs && Fits(layer, inputs)
    ensures LayerLabelled(h, layer, l) && LayerIn(h, layer)
    ensures LayerInitialised(h, layer, inputs, draws, k)
    ensures next == k + inputs * outputs
  {
    h, next := g, k;
    var ns: seq<Neuron> := [];
    for j := 0 to outputs
      invariant |ns| == j && WellFormed(h) && Extends(g, h)
      invariant LayerSoFar(h, ns, inputs, l, draws, k)
      invariant next == FirstDraw(k, inputs, j)
    {
      var r := NewNeuron(h, inputs, l, j, draws, next);
      ExtendsTransitive(g, h, r.0);
      LayerStep(h, ns, inputs, l, draws, k, next);
      h, ns, next := r.0, ns + [r.1], r.2;
    }
    layer := Layer(ns);
    LayerDone(h, ns, inputs, l, draws, k);
  }

  /** Layer `i` of a network with `inputs` inputs and the given layer sizes
      takes `inputs` inputs if it is the first, else the previous layer's
      size; `InSize(.., |sizes|)` is the network's output size. */
  function InSize(inputs: nat, sizes: seq<nat>, i: nat): nat
    requires i <= |sizes|
  {
    if i == 0 then inputs else sizes[i - 1]
  }

  /** The layers have the sizes given and chain: every neuron of layer `i`
      takes as many inputs as layer `i - 1` has neurons. */
  predicate Shaped(layers: seq<Layer>, inputs: nat, sizes: seq<nat>) {
    && |layers| == |sizes|
    && forall i :: 0 <= i < |layers| ==>
         |layers[i].neurons| == sizes[i] && Fits(layers[i], InSize(inputs, sizes, i))
  }

  /** A layer that fits the output of the first `i` layers extends a
      network shaped by the first `i` sizes to one shaped by `i + 1`. */
  lemma ShapedAppend(layers: seq<Layer>, inputs: nat, sizes: seq<nat>, i: nat, layer: Layer)
    requires i < |sizes| && Shaped(layers, inputs, sizes[..i])
    requires |layer.neurons| == sizes[i] && Fits(layer, InSize(inputs, sizes, i))
    ensures Shaped(layers + [layer], inputs, sizes[..i + 1])
  {
    var ls, ss := layers + [layer], sizes[..i + 1];
    forall n | 0 <= n < |ls| ensures |ls[n].neurons| == ss[n] && Fits(ls[n], InSize(inputs, ss, n)) {
      assert InSize(inputs, ss, n) == InSize(inputs, sizes, n);
      if n < |layers| {
        assert ls[n] == layers[n] && ss[n] == sizes[..i][n];
        assert InSize(inputs, sizes[..i], n) == InSize(inputs, sizes, n);
      }
    }
  }

  /** The draws the first `i` layers take: each of layer `m`'s neurons
      takes one per input of that layer. */
  function DrawsBefore(inputs: nat, sizes: seq<nat>, i: nat): nat
    requires i <= |sizes|
  {
    if i == 0 then 0 else DrawsBefore(inputs, sizes, i - 1) + InSize(inputs, sizes, i - 1) * sizes[i - 1]
  }

  /** Layer `i` was initialised from the draws after those of the layers
      before it. */
  predicate NetInitialised(g: Graph, layers: seq<Layer>, inputs: nat, sizes: seq<nat>, draws: Draws, k: nat) {
    forall i :: 0 <= i < |layers| && i < |sizes| ==>
      LayerInitialised(g, layers[i], InSize(inputs, sizes, i), draws, k + DrawsBefore(inputs, sizes, i))
  }

  lemma NetInitialisedAppend(g: Graph, h: Graph, layers: seq<Layer>, layer: Layer, inputs: nat, sizes: seq<nat>, draws: Draws, k: nat, start: nat)
    requires Extends(g, h) && NetInitialised(g, layers, inputs, sizes, draws, k) && |layers| < |sizes|
    requires start == k + DrawsBefore(inputs, sizes, |layers|)
    requires LayerInitialised(h, layer, InSize(inputs, sizes, |layers|), draws, start)
    ensures NetInitialised(h, layers + [layer], inputs, sizes, draws, k)
  {
    var ls := layers + [layer];
    forall i | 0 <= i < |ls| && i < |sizes|
      ensures LayerInitialised(h, ls[i], InSize(inputs, sizes, i), draws, k + DrawsBefore(inputs, sizes, i))
    {
      if i < |layers| {
        assert ls[i] == layers[i];
        LayerInitialisedKept(g, h, layers[i], InSize(inputs, sizes, i), draws, k + DrawsBefore(inputs, sizes, i));
      } else {
        assert i == |layers| && ls[i] == layer;
        assert k + DrawsBefore(inputs, sizes, i) == start;
      }
    }
    assert ls == layers + [layer];
  }

  /** Layer `i` carries the labels of layer `i`. */
  predicate NetLabelled(g: Graph, layers: seq<Layer>) {
    forall i :: 0 <= i < |layers| ==> LayerLabelled(g, layers[i], i)
  }

  lemma NetLabelledIn(g: Graph, layers: seq<Layer>)
    requires NetLabelled(g, layers)
    ensures NetIn(g, layers)
  {
    forall i | 0 <= i < |layers| ensures LayerIn(g, layers[i]) {
      LayerLabelledIn(g, layers[i], i);
    }
  }

  lemma NetLabelledAppend(g: Graph, h: Graph, layers: seq<Layer>, layer: Layer)
    requires Extends(g, h) && NetLabelled(g, layers) && LayerLabelled(h, layer, |layers|)
    ensures NetLabelled(h, layers + [layer])
  {
    var ls := layers + [layer];
    forall i | 0 <= i < |ls| ensures LayerLabelled(h, ls[i], i) {
      if i < |layers| {
        assert ls[i] == layers[i];
        LayerLabelledKept(g, h, layers[i], i);
      }
    }
  }

  /** The first `|ls|` layers of a network under construction: shaped by
      the first `|ls|` sizes, labelled, and initialised from their draws. */
  predicate NetSoFar(h: Graph, ls: seq<Layer>, inputs: nat, sizes: seq<nat>, draws: Draws, k: nat) {
    && |ls| <= |sizes| && Shaped(ls, inputs, sizes[..|ls|])
    && NetLabelled(h, ls) && NetInitialised(h, ls, inputs, sizes, draws, k)
  }

  /** Appending layer `|ls|`, freshly built from the next draws, keeps a
      partial network shaped, labelled and initialised. */
  lemma NetStep(h: Graph, h1: Graph, ls: seq<Layer>, layer: Layer, inputs: nat, sizes: seq<nat>, draws: Draws, k: nat, next: nat, k1: nat)
    requires Extends(h, h1) && |ls| < |sizes| && next == k + DrawsBefore(inputs, sizes, |ls|)
    requires NetSoFar(h, ls, inputs, sizes, draws, k)
    requires |layer.neurons| == sizes[|ls|] && Fits(layer, InSize(inputs, sizes, |ls|))
    requires LayerLabelled(h1, layer, |ls|) && LayerInitialised(h1, layer, InSize(inputs, sizes, |ls|), draws, next)
    requires k1 == next + InSize(inputs, sizes, |ls|) * sizes[|ls|]
    ensures NetSoFar(h1, ls + [layer], inputs, sizes, draws, k)
    ensures k1 == k + DrawsBefore(inputs, sizes, |ls| + 1)
  {
    NetLabelledAppend(h, h1, ls, layer);
    NetInitialisedAppend(h, h1, ls, layer, inputs, sizes, draws, k, next);
    ShapedAppend(ls, inputs, sizes, |ls|, layer);
  }

  /** A finished network: shaped by all the sizes, with its parameters in
      the arena. */
  lemma NetDone(h: Graph, ls: seq<Layer>, inputs: nat, sizes: seq<nat>, draws: Draws, k: nat)
    requires NetSoFar(h, ls, inputs, sizes, draws, k) && |ls| == |sizes|
    ensures Shaped(ls, inputs, sizes) && NetLabelled(h, ls) && NetIn(h, ls)
    ensures NetInitialised(h, ls, inputs, sizes, draws, k)
  {
    assert sizes[..|ls|] == sizes;
    NetLabelledIn(h, ls);
  }

  /** The `FullyConnectedNetwork` constructor: one layer per size, layer
      `i` labelled as layer `i`, each taking as many inputs as the previous
      one has neurons (the first takes `inputs`). */
  method NewNet(g: Graph, inputs: nat, sizes: seq<nat>, draws: Draws, k: nat) returns (h: Graph, net: Net, next: nat)
    requires WellFormed(g)
    ensures WellFormed(h) && Extends(g, h)
    ensures Shaped(net.layers, inputs, sizes)
    ensures NetLabelled(h, net.layers) && NetIn(h, net.layers)
    ensures NetInitialised(h, net.layers, inputs, sizes, draws, k)
    ensures next == k + DrawsBefore(inputs, sizes, |sizes|)
  {
    h, next := g, k;
    var ls: seq<Layer> := [];
    for i := 0 to |sizes|
      invariant |ls| == i && WellFormed(h) && Extends(g, h)
      invariant NetSoFar(h, ls, inputs, sizes, draws, k)
      invariant next == k + DrawsBefore(inputs, sizes, i)
    {
      var h1, layer, k1 := NewLayer(h, InSize(inputs, sizes, i), sizes[i], i, draws, next);
      ExtendsTransitive(g, h, h1);
      NetStep(h, h1, ls, layer, inputs, sizes, draws, k, next, k1);
      h, ls, next := h1, ls + [layer], k1;
    }
    net := Net(ls);
    NetDone(h, ls, inputs, sizes, draws, k);
  }

  // What a call computes, on the reals.

  /** The dot product, summed from the first pair to the last. */
  function Dot(ws: seq<real>, xs: seq<real>): real
    requires |ws| == |xs|
    decreases |ws|
  {
    if |ws| == 0 then 0.0
    else Dot(ws[..|ws| - 1], xs[..|xs| - 1]) + ws[|ws| - 1] * xs[|xs| - 1]
  }

  /** A neuron's input to its activation for input data `xs`: bias plus
      dot product. */
  function PreActivation(g: Graph, nr: Neuron, xs: seq<real>): real
    requires NeuronIn(g, nr) && |xs| == |nr.weights|
  {
    GetData(g, nr.bias) + Dot(DataOf(g, nr.weights), xs)
  }

  /** A neuron's output for input data `xs`: tanh of bias plus dot product. */
  function NeuronValue(g: Graph, nr: Neuron, xs: seq<real>, e: ExpFn): real
    requires NeuronIn(g, nr) && |xs| == |nr.weights|
  {
    TanhManual(e, PreActivation(g, nr, xs))
  }

  /** Every neuron of the layer takes `m` inputs. */
  predicate Fits(layer: Layer, m: nat) {
    forall j :: 0 <= j < |layer.neurons| ==> |layer.neurons[j].weights| == m
  }

  function LayerValue(g: Graph, layer: Layer, xs: seq<real>, e: ExpFn): (ys: seq<real>)
    requires LayerIn(g, layer) && Fits(layer, |xs|)
    ensures |ys| == |layer.neurons|
  {
    seq(|layer.neurons|, j requires 0 <= j < |layer.neurons| => NeuronValue(g, layer.neurons[j], xs, e))
  }

  /** The output of the first `n` layers on input data `xs`, or None if
      some layer does not fit the previous one's output. */
  function NetValue(g: Graph, layers: seq<Layer>, n: nat, xs: seq<real>, e: ExpFn): Option<seq<real>>
    requires NetIn(g, layers) && n <= |layers|
  {
    if n == 0 then Some(xs)
    else
      match NetValue(g, layers, n - 1, xs, e)
      case None => None
      case Some(ys) => if Fits(layers[n - 1], |ys|) then Some(LayerValue(g, layers[n - 1], ys, e)) else None
  }

  /** Extending the arena does not change what a neuron computes. */
  lemma NeuronValueKept(g: Graph, h: Graph, nr: Neuron, xs: seq<real>, e: ExpFn)
    requires Extends(g, h) && NeuronIn(g, nr) && |xs| == |nr.weights|
    ensures NeuronIn(h, nr) && NeuronValue(h, nr, xs, e) == NeuronValue(g, nr, xs, e)
  {
    PreActivationKept(g, h, nr, xs);
  }

  lemma PreActivationKept(g: Graph, h: Graph, nr: Neuron, xs: seq<real>)
    requires Extends(g, h) && NeuronIn(g, nr) && |xs| == |nr.weights|
    ensures NeuronIn(h, nr) && PreActivation(h, nr, xs) == PreActivation(g, nr, xs)
  {
    DataOfKept(g, h, nr.weights);
    ExtendsKeeps(g, h);
  }

  lemma LayerValueKept(g: Graph, h: Graph, layer: Layer, xs: seq<real>, e: ExpFn)
    requires Extends(g, h) && LayerIn(g, layer) && Fits(layer, |xs|)
    ensures LayerIn(h, layer) && LayerValue(h, layer, xs, e) == LayerValue(g, layer, xs, e)
  {
    forall j | 0 <= j < |layer.neurons|
      ensures NeuronIn(h, layer.neurons[j]) && NeuronValue(h, layer.neurons[j], xs, e) == NeuronValue(g, layer.neurons[j], xs, e)
    {
      NeuronValueKept(g, h, layer.neurons[j], xs, e);
    }
  }

  /** Once a prefix of the layers fails, every longer prefix fails. */
  lemma {:induction false} NetValueStaysNone(g: Graph, layers: seq<Layer>, n: nat, m: nat, xs: seq<real>, e: ExpFn)
    requires NetIn(g, layers) && n <= m <= |layers| && NetValue(g, layers, n, xs, e).None?
    ensures NetValue(g, layers, m, xs, e).None?
    decreases m
  {
    if m > n {
      NetValueStaysNone(g, layers, n, m - 1, xs, e);
    }
  }

  /** A network built for `inputs` inputs accepts every input vector of
      that length, and its output has the last layer's size. */
  lemma {:induction false} ShapedValue(g: Graph, layers: seq<Layer>, inputs: nat, sizes: seq<nat>, n: nat, xs: seq<real>, e: ExpFn)
    requires Shaped(layers, inputs, sizes) && NetIn(g, layers) && n <= |layers| && |xs| == inputs
    ensures NetValue(g, layers, n, xs, e).Some?
    ensures |NetValue(g, layers, n, xs, e).value| == InSize(inputs, sizes, n)
    decreases n
  {
    if n > 0 {
      ShapedValue(g, layers, inputs, sizes, n - 1, xs, e);
    }
  }

  /** A network given the wrong number of inputs has no output, unless its
      first layer has no neurons. */
  lemma WrongSizeValue(g: Graph, layers: seq<Layer>, inputs: nat, sizes: seq<nat>, xs: seq<real>, e: ExpFn)
    requires Shaped(layers, inputs, sizes) && NetIn(g, layers) && |xs| != inputs && |sizes| > 0 && sizes[0] > 0
    ensures NetValue(g, layers, |layers|, xs, e).None?
  {
    assert !Fits(layers[0], |xs|) by {
      assert |layers[0].neurons[0].weights| == inputs;
    }
    NetValueStaysNone(g, layers, 1, |layers|, xs, e);
  }

  // The calls.

  /** The product node leaves earlier nodes' data alone. */
  lemma ProductKeeps(h: Graph, out: nat, w: nat, x: nat)
    requires WellFormed(h) && out < |h.nodes| && w < |h.nodes| && x < |h.nodes|
    ensures GetData(Engine.Product(h, w, x).0, out) == GetData(h, out)
  {
    KeptData(h, Engine.Product(h, w, x).0, out);
  }

  lemma ProductData(h: Graph, w: nat, x: nat)
    requires WellFormed(h) && w < |h.nodes| && x < |h.nodes|
    ensures var p := Engine.Product(h, w, x);
      GetData(p.0, p.1) == GetData(h, w) * GetData(h, x)
  {
  }

  /** One fold step on the arena: the new node holds the old output plus the
      product of the weight and the input. */
  lemma FoldStep(h: Graph, out: nat, w: nat, x: nat)
    requires WellFormed(h) && out < |h.nodes| && w < |h.nodes| && x < |h.nodes|
    ensures var p := Engine.Product(h, w, x);
      var s := Engine.Sum(p.0, out, p.1);
      GetData(s.0, s.1) == GetData(h, out) + GetData(h, w) * GetData(h, x)
  {
    ProductData(h, w, x);
    ProductKeeps(h, out, w, x);
  }

  /** The fold step keeps the loop's account: if the output held the bias
      plus the dot product of the first `i` pairs, the next output holds
      the bias plus the dot product of the first `i + 1`. */
  lemma NeuronStep(g: Graph, h: Graph, nr: Neuron, x: seq<nat>, i: nat, out: nat, w: nat, xi: nat, next: real)
    requires Extends(g, h) && NeuronIn(g, nr) && AllIn(g, x)
    requires |x| == |nr.weights| && i < |x| && w == nr.weights[i] && xi == x[i] && out < |h.nodes|
    requires GetData(h, out) == GetData(g, nr.bias) + Dot(DataOf(g, nr.weights)[..i], DataOf(g, x)[..i])
    requires next == GetData(h, out) + GetData(h, w) * GetData(h, xi)
    ensures next == GetData(g, nr.bias) + Dot(DataOf(g, nr.weights)[..i + 1], DataOf(g, x)[..i + 1])
  {
    var wd, xd := DataOf(g, nr.weights), DataOf(g, x);
    KeptData(g, h, w);
    KeptData(g, h, xi);
    DotStep(wd, xd, i);
    AddProduct(GetData(h, out), GetData(g, nr.bias), Dot(wd[..i], xd[..i]), wd[i], xd[i], GetData(h, w), GetData(h, xi));
  }

  /** One step of the neuron's fold, `out + (w * x)`: a product node of
      the weight and the input, then a sum node of the old output and the
      product. */
  method MultiplyAdd(g: Graph, out: nat, w: nat, x: nat) returns (h: Graph, sum: nat)
    requires WellFormed(g) && out < |g.nodes| && w < |g.nodes| && x < |g.nodes|
    ensures WellFormed(h) && Extends(g, h)
    ensures |h.nodes| == |g.nodes| + 2 && sum == |g.nodes| + 1
    ensures GetData(h, sum) == GetData(g, out) + GetData(g, w) * GetData(g, x)
    ensures GetOperation(h, sum) == Some(Add) && GetPrev(h, sum) == [out, |g.nodes|]
    ensures GetOperation(h, |g.nodes|) == Some(Multiply) && GetPrev(h, |g.nodes|) == [w, x]
  {
    var p := Engine.Product(g, w, x);
    var s := Engine.Sum(p.0, out, p.1);
    FoldStep(g, out, w, x);
    ExtendsTransitive(g, p.0, s.0);
    ExtendsKeeps(p.0, s.0);
    h, sum := s.0, s.1;
  }

  /** Adding the next pair to a dot product of prefixes. */
  lemma DotStep(ws: seq<real>, xs: seq<real>, i: nat)
    requires |ws| == |xs| && i < |ws|
    ensures Dot(ws[..i + 1], xs[..i + 1]) == Dot(ws[..i], xs[..i]) + ws[i] * xs[i]
  {
    assert ws[..i + 1][..i] == ws[..i] && xs[..i + 1][..i] == xs[..i];
  }

  /** Step `i` of the fold, `out = out + (w_i * x_i)`, keeps the fold's
      account. */
  method FoldStepAt(g: Graph, nr: Neuron, x: seq<nat>, i: nat, h: Graph, out: nat) returns (h': Graph, out': nat)
    requires WellFormed(h) && Extends(g, h) && NeuronIn(g, nr) && AllIn(g, x)
    requires |x| == |nr.weights| && i < |x| && out < |h.nodes|
    requires GetData(h, out) == GetData(g, nr.bias) + Dot(DataOf(g, nr.weights)[..i], DataOf(g, x)[..i])
    ensures WellFormed(h') && Extends(g, h') && Extends(h, h') && |h'.nodes| == |h.nodes| + 2 && out' == |h'.nodes| - 1
    ensures GetOperation(h', out') == Some(Add) && GetPrev(h', out') == [out, |h.nodes|]
    ensures GetOperation(h', |h.nodes|) == Some(Multiply) && GetPrev(h', |h.nodes|) == [nr.weights[i], x[i]]
    ensures GetData(h', out') == GetData(g, nr.bias) + Dot(DataOf(g, nr.weights)[..i + 1], DataOf(g, x)[..i + 1])
  {
    var w, xi := nr.weights[i], x[i];
    h', out' := MultiplyAdd(h, out, w, xi);
    NeuronStep(g, h, nr, x, i, out, w, xi, GetData(h', out'));
    ExtendsTransitive(g, h, h');
  }

  /** Step `k` of the fold as it sits in the arena `h` grown from `g`:
      node `|g.nodes| + 2k` is the product of weight `k` and input `k`, and
      the node after it adds that product to the previous output, which is
      the bias for the first step and the previous step's sum after. */
  predicate FoldShape(g: Graph, h: Graph, nr: Neuron, x: seq<nat>, k: nat) {
    var p := |g.nodes| + 2 * k;
    && k < |x| && k < |nr.weights| && p + 1 < |h.nodes|
    && GetOperation(h, p) == Some(Multiply) && GetPrev(h, p) == [nr.weights[k], x[k]]
    && GetOperation(h, p + 1) == Some(Add)
    && GetPrev(h, p + 1) == [if k == 0 then nr.bias else p - 1, p]
  }

  lemma FoldShapeKept(g: Graph, h: Graph, h': Graph, nr: Neuron, x: seq<nat>, i: nat)
    requires Extends(h, h') && forall k :: 0 <= k < i ==> FoldShape(g, h, nr, x, k)
    ensures forall k :: 0 <= k < i ==> FoldShape(g, h', nr, x, k)
  {
    ExtendsKeeps(h, h');
    forall k | 0 <= k < i ensures FoldShape(g, h', nr, x, k) {
      assert FoldShape(g, h, nr, x, k);
      var p := |g.nodes| + 2 * k;
      assert h'.nodes[p] == h.nodes[p] && h'.nodes[p + 1] == h.nodes[p + 1];
    }
  }

  /** Step `i` appended to a fold whose first `i` steps are in place. */
  lemma FoldShapeGrows(g: Graph, h: Graph, h': Graph, nr: Neuron, x: seq<nat>, i: nat, out: nat, out': nat)
    requires Extends(h, h') && |x| == |nr.weights| && i < |x|
    requires |h.nodes| == |g.nodes| + 2 * i && |h'.nodes| == |h.nodes| + 2
    requires i == 0 ==> out == nr.bias
    requires i > 0 ==> out == |h.nodes| - 1
    requires forall k :: 0 <= k < i ==> FoldShape(g, h, nr, x, k)
    requires GetOperation(h', |h.nodes|) == Some(Multiply) && GetPrev(h', |h.nodes|) == [nr.weights[i], x[i]]
    requires out' == |h'.nodes| - 1 && GetOperation(h', out') == Some(Add) && GetPrev(h', out') == [out, |h.nodes|]
    ensures forall k :: 0 <= k < i + 1 ==> FoldShape(g, h', nr, x, k)
  {
    FoldShapeKept(g, h, h', nr, x, i);
    assert FoldShape(g, h', nr, x, i);
  }

  /** The fold of `Neuron::operator()`: from the bias, one `out + (w_i *
      x_i)` step per input, in order, each step's sum taking the previous
      step's sum as its left operand. The output holds the bias plus the
      dot product of the weights' and the inputs' data. */
  method Fold(g: Graph, nr: Neuron, x: seq<nat>) returns (h: Graph, out: nat)
    requires WellFormed(g) && NeuronIn(g, nr) && AllIn(g, x) && |x| == |nr.weights|
    ensures WellFormed(h) && Extends(g, h) && |h.nodes| == |g.nodes| + 2 * |x| && out < |h.nodes|
    ensures |x| == 0 ==> out == nr.bias
    ensures |x| > 0 ==> out == |h.nodes| - 1 && GetOperation(h, out) == Some(Add)
    ensures forall k :: 0 <= k < |x| ==> FoldShape(g, h, nr, x, k)
    ensures GetData(h, out) == PreActivation(g, nr, DataOf(g, x))
  {
    var wd, xd := DataOf(g, nr.weights), DataOf(g, x);
    h, out := g, nr.bias;
    for i := 0 to |x|
      invariant WellFormed(h) && Extends(g, h) && |h.nodes| == |g.nodes| + 2 * i && out < |h.nodes|
      invariant i == 0 ==> out == nr.bias
      invariant i > 0 ==> out == |h.nodes| - 1 && GetOperation(h, out) == Some(Add)
      invariant forall k :: 0 <= k < i ==> FoldShape(g, h, nr, x, k)
      invariant GetData(h, out) == GetData(g, nr.bias) + Dot(wd[..i], xd[..i])
    {
      var h', out' := FoldStepAt(g, nr, x, i, h, out);
      FoldShapeGrows(g, h, h', nr, x, i, out, out');
      h, out := h', out';
    }
    assert wd[..|x|] == wd && xd[..|x|] == xd;
  }

  /** `Neuron::operator()`: fails if the input count differs from the
      weight count; otherwise the fold, two new nodes per input, then a
      tanh node holding the neuron's value. */
  method NeuronCall(g: Graph, nr: Neuron, x: seq<nat>, e: ExpFn) returns (r: Result<(Graph, nat)>)
    requires WellFormed(g) && NeuronIn(g, nr) && AllIn(g, x)
    ensures r.Err? <==> |x| != |nr.weights|
    ensures r.Err? ==> r.error == InputSizeMismatch(|x|, |nr.weights|)
    ensures r.Ok? ==>
      && WellFormed(r.value.0) && Extends(g, r.value.0)
      && |r.value.0.nodes| == |g.nodes| + 2 * |x| + 1 && r.value.1 == |g.nodes| + 2 * |x|
      && GetOperation(r.value.0, r.value.1) == Some(Tanh)
      && GetData(r.value.0, r.value.1) == NeuronValue(g, nr, DataOf(g, x), e)
    ensures r.Ok? && |x| == 0 ==> GetPrev(r.value.0, r.value.1) == [nr.bias]
    ensures r.Ok? && |x| > 0 ==> GetPrev(r.value.0, r.value.1) == [|g.nodes| + 2 * |x| - 1]
    ensures r.Ok? ==> forall k :: 0 <= k < |x| ==> FoldShape(g, r.value.0, nr, x, k)
  {
    if |x| != |nr.weights| {
      return Err(InputSizeMismatch(|x|, |nr.weights|));
    }
    var h, out := Fold(g, nr, x);
    var t := Engine.TanhNode(h, out, e);
    ExtendsTransitive(g, h, t.0);
    FoldShapeKept(g, h, t.0, nr, x, |x|);
    r := Ok(t);
  }

  /** The arithmetic of one fold step. */
  lemma AddProduct(o: real, b: real, d: real, u: real, v: real, u': real, v': real)
    requires o == b + d && u == u' && v == v'
    ensures o + u' * v' == b + (d + u * v)
  {
  }

  /** `outs` are the outputs of the first `|outs|` neurons of the layer on
      input data `xs`: each of those neurons fits `xs`, and output `i` holds
      neuron `i`'s value. */
  predicate Outputs(g: Graph, h: Graph, layer: Layer, xs: seq<real>, outs: seq<nat>, e: ExpFn)
    requires LayerIn(g, layer)
  {
    && AllIn(h, outs) && |outs| <= |layer.neurons|
    && forall i :: 0 <= i < |outs| ==>
         |layer.neurons[i].weights| == |xs| && GetData(h, outs[i]) == NeuronValue(g, layer.neurons[i], xs, e)
  }

  lemma OutputsAppend(g: Graph, h: Graph, h1: Graph, layer: Layer, xs: seq<real>, outs: seq<nat>, v: nat, e: ExpFn)
    requires Extends(h, h1) && LayerIn(g, layer) && Outputs(g, h, layer, xs, outs, e) && |outs| < |layer.neurons|
    requires |layer.neurons[|outs|].weights| == |xs| && v < |h1.nodes|
    requires GetData(h1, v) == NeuronValue(g, layer.neurons[|outs|], xs, e)
    ensures Outputs(g, h1, layer, xs, outs + [v], e)
  {
    var o := outs + [v];
    forall i | 0 <= i < |o|
      ensures o[i] < |h1.nodes|
      ensures |layer.neurons[i].weights| == |xs| && GetData(h1, o[i]) == NeuronValue(g, layer.neurons[i], xs, e)
    {
      if i < |outs| {
        KeptData(h, h1, outs[i]);
      }
    }
  }

  lemma OutputsComplete(g: Graph, h: Graph, layer: Layer, xs: seq<real>, outs: seq<nat>, e: ExpFn)
    requires LayerIn(g, layer) && Outputs(g, h, layer, xs, outs, e) && |outs| == |layer.neurons|
    ensures Fits(layer, |xs|) && DataOf(h, outs) == LayerValue(g, layer, xs, e)
  {
  }

  /** `outs` are tanh nodes appended after `g`, in increasing order, so
      no two of them are the same node and none was there before. */
  predicate FreshTanhs(g: Graph, h: Graph, outs: seq<nat>) {
    && (forall i :: 0 <= i < |outs| ==> |g.nodes| <= outs[i] < |h.nodes| && GetOperation(h, outs[i]) == Some(Tanh))
    && (forall i, j :: 0 <= i < j < |outs| ==> outs[i] < outs[j])
  }

  /** A tanh node appended after all earlier outputs extends them. */
  lemma FreshTanhsAppend(g: Graph, h: Graph, h1: Graph, outs: seq<nat>, v: nat)
    requires Extends(h, h1) && FreshTanhs(g, h, outs) && |g.nodes| <= |h.nodes|
    requires |h.nodes| <= v < |h1.nodes| && GetOperation(h1, v) == Some(Tanh)
    ensures FreshTanhs(g, h1, outs + [v])
  {
    ExtendsKeeps(h, h1);
    var o := outs + [v];
    forall i | 0 <= i < |o|
      ensures |g.nodes| <= o[i] < |h1.nodes| && GetOperation(h1, o[i]) == Some(Tanh)
    {
      if i < |outs| {
        assert o[i] == outs[i];
      }
    }
  }

  /** Nodes fresh after `h` are fresh after anything `h` extends. */
  lemma FreshTanhsWiden(g: Graph, h: Graph, h1: Graph, outs: seq<nat>)
    requires Extends(g, h) && FreshTanhs(h, h1, outs)
    ensures FreshTanhs(g, h1, outs)
  {
  }

  /** `FullyConnectedLayer::operator()`: each neuron in order called on
      `x`; the first neuron whose weight count differs from `|x|` stops the
      call with its error. Output `j` is the tanh node neuron `j`'s call
      appended, and holds neuron `j`'s value. */
  method LayerCall(g: Graph, layer: Layer, x: seq<nat>, e: ExpFn) returns (r: Result<(Graph, seq<nat>)>)
    requires WellFormed(g) && LayerIn(g, layer) && AllIn(g, x)
    ensures r.Ok? <==> Fits(layer, |x|)
    ensures r.Err? ==> exists j :: (0 <= j < |layer.neurons|
      && (forall i :: 0 <= i < j ==> |layer.neurons[i].weights| == |x|)
      && |layer.neurons[j].weights| != |x| && r.error == InputSizeMismatch(|x|, |layer.neurons[j].weights|))
    ensures r.Ok? ==>
      && WellFormed(r.value.0) && Extends(g, r.value.0) && AllIn(r.value.0, r.value.1)
      && DataOf(r.value.0, r.value.1) == LayerValue(g, layer, DataOf(g, x), e)
    ensures r.Ok? ==> |r.value.1| == |layer.neurons| && FreshTanhs(g, r.value.0, r.value.1)
  {
    var xd := DataOf(g, x);
    var h := g;
    var outs: seq<nat> := [];
    for j := 0 to |layer.neurons|
      invariant WellFormed(h) && Extends(g, h) && |outs| == j && Outputs(g, h, layer, xd, outs, e)
      invariant FreshTanhs(g, h, outs)
    {
      var nr := layer.neurons[j];
      DataOfKept(g, h, x);
      var c := NeuronCall(h, nr, x, e);
      if c.Err? {
        return Err(c.error);
      }
      NeuronValueKept(g, h, nr, xd, e);
      var h1, v := c.value.0, c.value.1;
      OutputsAppend(g, h, h1, layer, xd, outs, v, e);
      FreshTanhsAppend(g, h, h1, outs, v);
      ExtendsTransitive(g, h, h1);
      h, outs := h1, outs + [v];
    }
    OutputsComplete(g, h, layer, xd, outs, e);
    r := Ok((h, outs));
  }

  /** `FullyConnectedNetwork::operator()`: the layers called in order, each
      on the previous one's outputs, starting from `x`. The call succeeds
      exactly when the layers chain on `x`, and then its outputs hold the
      network's value, and they are the tanh nodes the last layer's call
      appended. */
  method NetCall(g: Graph, net: Net, x: seq<nat>, e: ExpFn) returns (r: Result<(Graph, seq<nat>)>)
    requires WellFormed(g) && NetIn(g, net.layers) && AllIn(g, x)
    ensures r.Ok? <==> NetValue(g, net.layers, |net.layers|, DataOf(g, x), e).Some?
    ensures r.Err? ==> r.error.InputSizeMismatch?
    ensures |net.layers| == 0 ==> r == Ok((g, x))
    ensures r.Ok? ==>
      && WellFormed(r.value.0) && Extends(g, r.value.0) && AllIn(r.value.0, r.value.1)
      && DataOf(r.value.0, r.value.1) == NetValue(g, net.layers, |net.layers|, DataOf(g, x), e).value
    ensures r.Ok? && |net.layers| > 0 ==>
      |r.value.1| == |net.layers[|net.layers| - 1].neurons| && FreshTanhs(g, r.value.0, r.value.1)
  {
    var xd := DataOf(g, x);
    var h, out := g, x;
    for i := 0 to |net.layers|
      invariant WellFormed(h) && Extends(g, h) && AllIn(h, out)
      invariant i == 0 ==> h == g && out == x
      invariant i > 0 ==> |out| == |net.layers[i - 1].neurons| && FreshTanhs(g, h, out)
      invariant NetValue(g, net.layers, i, xd, e) == Some(DataOf(h, out))
    {
      var layer := net.layers[i];
      assert LayerIn(g, layer);
      var c := LayerCall(h, layer, out, e);
      if c.Err? {
        NetValueStaysNone(g, net.layers, i + 1, |net.layers|, xd, e);
        return Err(c.error);
      }
      LayerValueKept(g, h, layer, DataOf(h, out), e);
      FreshTanhsWiden(g, h, c.value.0, c.value.1);
      h, out := c.value.0, c.value.1;
    }
    r := Ok((h, out));
  }
}
