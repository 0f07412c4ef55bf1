# Scalar reverse-mode autograd, as a Dafny model

This project models the core of a small C++ automatic-differentiation
library and the neural network built on it.

## What is modelled

**Computation graph.** A `Value` holds:
- a scalar `data`;
- a gradient that accumulates;
- the ordered list of values it was computed from (`prev`);
- the operation that produced it, if any;
- an optional label.

Here values live in an append-only arena, `Values.Graph`. Node identity is the arena index, so `a + a` lists the same index twice. Gradients are kept in a parallel sequence, because they are the only field that changes after creation (apart from the label). Every dependency was created before the node that uses it, so the graph is acyclic by construction (`Values.WellFormed`, `Dag.Ordered`).

The model has these parts:

- **The six operations** Add, Subtract, Multiply, Divide, Exp and Tanh (`Ops`, `Engine`).
  - Each has a forward step: it checks the input count, then (for Divide only) a zero divisor, then appends the output node.
  - Each has a backward step: it adds each input's share of the output's gradient with `add_grad`.
  - The public operators are modelled, including the overloads that first wrap a raw scalar as a leaf.
- **The backward pass** (`Sweep`, `Backprop`). It seeds the root with gradient 1.0. Then every reachable node, consumers first, runs its operation's backward step once.
- **The network** (`Network`):
  - neuron, layer and network constructors, with their labelled weight and bias leaves;
  - `parameters()`;
  - the three call operators, built from the public operators.
- **The earlier drafts.** One is a gradient-free engine with a four-tag `enum` (`DraftAutograd`). The other is the first prototype (`Prototype`). Each is proved to be the engine with fields erased.
- **The Graphviz DOT export** (`Vis`): the node label and the deduplicating depth-first walk that writes the graph.
- **The two gradient scenarios of the driver program** (`Scenarios`).

**The backward driver.** `Value::backward` is only declared in the source, with a contract comment; its body is not part of this model. `Backprop.BackwardFrom` is therefore a driver written here, not one checked against source. It composes the per-operation backward steps, seeds the root with 1.0, and visits the reachable nodes in decreasing arena index, which is a consumer-first order. Its proved contract is the chain rule: every node ends with its earlier gradient plus what its reachable consumers push into it, computed from their final gradients.

**Parameters.**
- Numbers are `real`.
- The exponential is a parameter `ExpFn` that is only known to be positive.
- `rand()` is a stream `Draws` of values in [-1, 1].
- The export's number formatting is a parameter `Format` that never produces a backslash.

Modules and files:

| file | module | content |
|---|---|---|
| results.dfy | Results | `Option`, `Result`, the three error kinds |
| dag.dfy | Dag | reachability over an index-ordered graph; consumer-first ordering |
| text.dfy | Text | decimal rendering of indices (`std::to_string`) |
| ops.dfy | Ops | operation tags, names, forward values, partial derivatives |
| values.dfy | Values | node record, arena, constructors, accessors, `set_grad`/`add_grad` |
| engine.dfy | Engine | forward and backward steps, public operators |
| sweep.dfy | Sweep | the accumulation argument behind the backward pass |
| backprop.dfy | Backprop | the backward pass from a root |
| network.dfy | Network | neuron, layer, network |
| draft.dfy | DraftAutograd | the enum-tagged draft engine |
| prototype.dfy | Prototype | the first prototype and `f` |
| vis.dfy | Vis | `value_label` and `to_dot` |
| scenarios.dfy | Scenarios | the diamond and mixed gradient examples |

## Model

| member | source | states |
|---|---|---|
| Ops.NamesDistinct | operation.cpp:28-159 | the six `get_name` tags "+", "-", "*", "/", "exp", "tanh" are pairwise distinct, so a tag identifies its operation |
| Ops.TanhManual | operation.cpp:134-136 | (e^2x - 1) / (e^2x + 1) lies strictly between -1 and 1 for any positive exponential |
| Ops.DividePartialsAreQuotientRule | operation.cpp:90-101 | Divide's backward coefficients, evaluated at the output its forward step produced, are 1/b and -(a/b^2): the quotient rule |
| Ops.TanhPartialIsDerivative | operation.cpp:147-155 | Tanh's backward coefficient 1 - t^2 equals 4E/(E+1)^2, the derivative of the manual tanh with E = exp(2x), and lies in (0, 1] |
| Ops.ExpPartialIsItsValue | operation.cpp:118-126 | Exp's backward coefficient is the output's own data e^x, which is positive |
| Values.Construct | autograd.h:38-40 | a constructed node gets the next index, the given data, dependencies, operation and label, and gradient 0; earlier nodes are kept |
| Values.Leaf | autograd.h:38 | a leaf stores data and label, has no dependencies and no operation, starts with gradient 0, and keeps the graph built |
| Values.KeptData | autograd.h:42-45 | a node's data reads the same after any later growth of the graph |
| Values.SetLabel | autograd.h:51-54 | only the label of the node changes; data, dependencies, operation, gradients and all other nodes are kept |
| Values.SetGrad | autograd.h:70-73 | the node's gradient becomes the value; nodes and every other gradient are untouched |
| Values.AddGrad | autograd.h:75-78 | the node's gradient grows by the increment; nodes and every other gradient are untouched |
| Values.AddGradTwice | autograd.h:75-78 | two increments of one gradient equal one increment by their sum |
| Values.AddGradCommutes | autograd.h:75-78 | increments can be applied in either order with the same result |
| Values.SetGradOverwrites | autograd.h:70-78 | setting a gradient discards earlier increments; an increment after a set adds to the set value |
| Engine.Forward | operation.cpp:79-88 | the input count is checked first, then (Divide) a zero divisor; on success exactly one node is appended holding the operation's value, with the inputs (in order, repeats kept) as dependencies, the operation as producer, no label and gradient 0; on failure the matching error; success keeps the graph built |
| Engine.Backward | operation.cpp:18-27 | wrong input count is an error; otherwise node records are unchanged, non-inputs keep their gradients, and each input gains the sum of the shares aimed at it, computed from the output's gradient as it was before the call, even when the output is one of the inputs (for Multiply, which reads that gradient a second time, only when it is not) |
| Engine.BackwardOwnInput | operation.cpp:18-27 | `backward` on `a + a` with `a` as its own output reads the gradient once, so a's gradient triples |
| Engine.MultiplyBackward | operation.cpp:65-72 | Multiply's two `add_grad` calls, with the second read of the output's gradient, add the product-rule shares to the inputs when the output is not its own input |
| Engine.SharesArePartials | operation.cpp:94-100 | each share a backward step adds is the input's partial derivative times the output's gradient |
| Engine.BackwardRepeatedInput | operation.cpp:18-27 | with the same node as both inputs, that node collects both shares: `a + a` gives 2·g and `a * a` gives 2·a·g |
| Engine.Sum | operation.cpp:167-172 | `a + b` appends exactly one node: a's data plus b's, dependencies `[a, b]`, Add as producer, no label, gradient 0, older nodes kept; a built graph stays built |
| Engine.SumIsForward | operation.cpp:167-172 | `a + b` is exactly the Add forward step on `[a, b]` |
| Engine.Difference | operation.cpp:173-178 | `a - b` appends exactly one node holding a's data minus b's, dependencies `[a, b]` in that order, Subtract as producer; a built graph stays built |
| Engine.DifferenceIsForward | operation.cpp:173-178 | `a - b` is exactly the Subtract forward step on `[a, b]` |
| Engine.Product | operation.cpp:179-184 | `a * b` appends exactly one node: the product of the data, dependencies `[a, b]`, Multiply as producer, no label, gradient 0; a built graph stays built |
| Engine.ProductIsForward | operation.cpp:179-184 | `a * b` is exactly the Multiply forward step on `[a, b]` |
| Engine.Quotient | operation.cpp:185-190 | `a / b` fails with DivisionByZero exactly when b's data is 0, adding nothing; otherwise it appends one Divide node over `[a, b]` holding a/b |
| Engine.QuotientIsForward | operation.cpp:185-190 | `a / b` is exactly the Divide forward step on `[a, b]`, its failure included |
| Engine.TanhNode | operation.cpp:192-197 | `tanh(x)` appends one Tanh node over `[x]` whose data is the manual tanh of x's data, strictly between -1 and 1 |
| Engine.TanhIsForward | operation.cpp:192-197 | `tanh(x)` is exactly the Tanh forward step on `[x]` |
| Engine.ExpNode | operation.cpp:234-238 | `exp(x)` appends one Exp node over `[x]` whose data is exp of x's data, positive |
| Engine.ExpIsForward | operation.cpp:234-238 | `exp(x)` is exactly the Exp forward step on `[x]` |
| Engine.ScalarSum | operation.cpp:201-204 | `s + b` wraps s as a fresh unlabelled leaf and adds it on the left; two nodes are appended, the second an unlabelled Add node with gradient 0 |
| Engine.SumScalar | operation.cpp:205-208 | `a + s` wraps s as a fresh unlabelled leaf and adds it on the right; two nodes are appended, the second an unlabelled Add node with gradient 0 |
| Engine.ScalarDifference | operation.cpp:209-212 | `s - b` wraps s as a leaf, kept as the left operand; two nodes are appended, the second an unlabelled Subtract node with gradient 0 |
| Engine.DifferenceScalar | operation.cpp:213-216 | `a - s` wraps s as a leaf, kept as the right operand; two nodes are appended, the second an unlabelled Subtract node with gradient 0 |
| Engine.ScalarProduct | operation.cpp:217-220 | `s * b` wraps s as a leaf on the left and multiplies; two nodes are appended, the second an unlabelled Multiply node with gradient 0 |
| Engine.ProductScalar | operation.cpp:221-224 | `a * s` wraps s as a leaf on the right and multiplies; two nodes are appended, the second an unlabelled Multiply node with gradient 0 |
| Engine.ScalarQuotient | operation.cpp:225-228 | `s / b` wraps s as a leaf; it fails exactly when b's data is 0; on success two nodes are appended, the second an unlabelled Divide node with gradient 0 |
| Engine.QuotientScalar | operation.cpp:229-232 | `a / s` fails exactly when s is 0, otherwise holds a's data over s; on success two nodes are appended, the second an unlabelled Divide node with gradient 0 |
| Engine.ExpScalar | operation.cpp:240-242 | `exp(s)` wraps s as a leaf and takes its exponential; two nodes are appended, the second an unlabelled Exp node with gradient 0 |
| Engine.ScalarSumsAreForward | operation.cpp:201-208 | `s + b` and `a + s` are the Add forward step on the arena with s's leaf appended, the leaf on the scalar's side |
| Engine.ScalarDifferencesAreForward | operation.cpp:209-216 | `s - b` and `a - s` are the Subtract forward step with the leaf on the scalar's side |
| Engine.ScalarProductsAreForward | operation.cpp:217-224 | `s * b` and `a * s` are the Multiply forward step with the leaf on the scalar's side |
| Engine.ScalarQuotientsAreForward | operation.cpp:225-232 | `s / b` and `a / s` are the Divide forward step with the leaf on the scalar's side, failure included |
| Engine.ExpScalarIsForward | operation.cpp:240-242 | `exp(s)` is the Exp forward step on s's leaf |
| Dag.ConsumerNotReachable | autograd/operation.h:15-17 | since forward takes only existing nodes as dependencies, no node reaches its own consumer: the graph has no cycle |
| Dag.ReachLeast | autograd.h:80 | the nodes the backward pass visits are the least set holding the root and closed under dependencies |
| Backprop.Order | autograd.h:80 | the visiting order starts at the root, lists each reachable node once, and puts every node after all of its consumers |
| Backprop.PushOnlyToDependencies | autograd/operation.h:19-21 | a node's backward step adds only into its own dependencies |
| Backprop.Step | autograd/operation.h:19-21 | one node's backward step leaves the node records as they were and is one step of the gradient sweep |
| Backprop.UnreachedReceivesNothing | autograd.h:80-82 | nodes the root does not reach receive nothing from the backward pass |
| Backprop.BackwardFrom | autograd.h:80-82 | (driver written here, not checked against source) afterwards the root's gradient is exactly 1.0, unreached nodes keep their gradients, and every other node holds its earlier gradient plus what its reachable consumers push into it from their final gradients |
| Sweep.Accumulates | autograd.h:80-82 | sweeping a set of nodes from the highest index down leaves each node with its starting gradient plus the inflow from the swept nodes' final gradients |
| Sweep.Seeded | autograd.h:80-82 | a sweep seeded with 1.0 at the root keeps the root at 1.0 |
| Text.NatToStringRoundTrip | network.cpp:36 | the decimal rendering of an index reads back as that index |
| Network.WeightLabelInjective | network.cpp:36 | the label `L<l>N<n>W<w>` determines layer, neuron and weight index |
| Network.BiasLabelInjective | network.cpp:39 | the label `L<l>N<n>B` determines layer and neuron |
| Network.WeightIsNotBias | network.cpp:36-39 | no weight label equals a bias label |
| Network.AddWeights | network.cpp:31-38 | weights w..count-1 are appended one leaf each, in order, holding successive draws and labelled with their indices |
| Network.NewNeuron | network.cpp:29-40 | the constructor appends `count` weight leaves then one bias leaf holding 0, all labelled for this neuron, and consumes `count` draws |
| Network.NewNeuronWeights | network.cpp:33-38 | weight w of a new neuron is a leaf holding draw k + w, in [-1, 1] |
| Network.Parameters | network.cpp:77-93 | the parameter list has one entry per weight plus the bias |
| Network.FreshParameters | network.cpp:77-93 | a fresh neuron's parameters are exactly the nodes its constructor appended, in order, weights first and bias last |
| Network.NewLayer | network.cpp:96-103 | the layer constructor builds `outputs` neurons of `inputs` inputs each, neuron j labelled as neuron j of this layer, with zero bias and weights holding draws `k + inputs·j`, `k + inputs·j + 1`, ...; it consumes `inputs · outputs` draws |
| Network.NewNet | network.cpp:129-139 | the network constructor builds one layer per size, layer i taking the previous size (the first takes the input count) and labelled as layer i; layer i's neurons are initialised from the draws after those the earlier layers took, and the draws consumed are Σ InSize(i)·sizes[i] |
| Network.MultiplyAdd | network.cpp:59 | `out + (w * x)` appends a product node on `[w, x]` and then a sum node on `[out, product]` holding out + w·x |
| Network.FoldStepAt | network.cpp:57-60 | each loop step appends a product node over `[w_i, x_i]` then a sum node over `[out, product]`, and extends the bias-plus-dot-product account by that pair |
| Network.Fold | network.cpp:56-60 | the fold starts at the bias node and appends, per input in order, a product of weight and input and a sum whose left operand is the previous sum (the bias for the first); it ends holding bias plus the dot product of weights and inputs |
| Network.NeuronCall | network.cpp:42-74 | the call fails with the input and weight counts when they differ; otherwise the fold chain is in the arena and a tanh node over the last sum (over the bias when there are no inputs) holds tanh(bias + Σ w_i·x_i) |
| Network.LayerCall | network.cpp:105-126 | the layer call succeeds exactly when every neuron fits the input, fails with the first misfit neuron's error otherwise; on success there is one output per neuron, output j is the fresh tanh node neuron j's call appended (not in the graph passed in, the outputs strictly increasing, so distinct) and holds neuron j's value |
| Network.NetCall | network.cpp:141-157 | the network call succeeds exactly when the layers chain on the input, returns the input unchanged with no layers, and otherwise its outputs hold the network's value and are the last layer's fresh tanh nodes, one per neuron of that layer, distinct and not in the graph passed in |
| Network.NetValueStaysNone | network.cpp:146-155 | once a layer does not fit the previous output, no later prefix of the network has an output |
| Network.ShapedValue | network.cpp:129-139 | a network built for `inputs` inputs accepts every input vector of that length, and each prefix outputs as many values as its last layer has neurons |
| Network.WrongSizeValue | network.cpp:45-48 | a network given the wrong number of inputs has no output when its first layer is non-empty |
| DraftAutograd.ToString | autograd/autograd.cpp:11-26 | every draft tag prints as a single character |
| DraftAutograd.ToStringMatchesEngine | autograd/autograd.cpp:11-26 | a draft tag prints as the engine's name for the same operation, and distinct tags print differently |
| DraftAutograd.AsEngineOp | autograd/autograd.h:16-22 | each of the four draft tags stands for a binary engine operation |
| DraftAutograd.New | autograd/autograd.h:32-34 | the constructors append a node holding exactly the given data, dependencies, tag and label |
| DraftAutograd.MakeValue | autograd/autograd.cpp:81-84 | `make_value` appends a leaf with the given data and label, no dependencies and no tag |
| DraftAutograd.SetLabel | autograd/autograd.h:45-48 | only the label of the node changes |
| DraftAutograd.Binary | autograd/autograd.cpp:41-52 | `+`, `-`, `*` append a node with the combined data, dependencies `[a, b]` and the matching tag |
| DraftAutograd.Quotient | autograd/autograd.cpp:53-60 | `/` fails with DivisionByZero exactly when b's data is 0, before building anything; otherwise it appends a/b with dependencies `[a, b]` and the Divide tag |
| DraftAutograd.BinaryIsEngineForward | autograd/autograd.cpp:41-52 | the draft's `+`, `-`, `*` equal the engine's forward step on the lifted graph |
| DraftAutograd.QuotientIsEngineForward | autograd/autograd.cpp:53-60 | the draft's `/` fails exactly when the engine's does, with the same error, and otherwise builds the same node |
| Prototype.MakeValue | autograd/simple_nn.cpp:66-68 | `make_value` appends a value with no children |
| Prototype.Apply | autograd/simple_nn.cpp:32-46 | the four operators append a value with children `[a, b]` and the combined data; `/` fails exactly on a zero divisor |
| Prototype.F | autograd/simple_nn.cpp:8-10 | `f(x)` is non-negative and zero exactly at 0 |
| Prototype.FSymmetricMonotone | autograd/simple_nn.cpp:8-10 | `f(-x) = f(x)`, and `f` grows with the magnitude of its argument |
| Prototype.ApplyIsErasedDraft | autograd/simple_nn.cpp:32-46 | each prototype operator equals the draft's operator with tags and labels erased, failures included |
| Prototype.MakeValueIsErasedDraft | autograd/simple_nn.cpp:66-68 | the prototype's `make_value` equals the draft's with the label erased |
| Vis.SplitJoin | autograd/vis.cpp:29-37 | cutting at the escaped line breaks undoes joining lines that hold no backslash |
| Vis.ValueLabelLines | autograd/vis.cpp:24-40 | the label reads back as: the label (when present), `data=…`, `grad=…`, and `op=…` only for a derived node |
| Vis.VisitStep | autograd/vis.cpp:70-78 | the head of `dfs(v)` gives `v` the next id if it has none and declares it once, with its label |
| Vis.EdgeStep | autograd/vis.cpp:84-87 | an edge step numbers the dependency if new and writes one edge from its id to the consumer's |
| Vis.DfsShape | autograd/vis.cpp:66-92 | `dfs(v)` only appends to the order and the lines, keeps every node numbered once and declared once in id order, and leaves every met node declared |
| Vis.DfsLinks | autograd/vis.cpp:80-91 | after `dfs(v)`, every node it numbered has exactly one edge per non-null dependency, in list order |
| Vis.DfsReach | autograd/vis.cpp:66-92 | every node `dfs(v)` numbers is reachable from `v` |
| Vis.WalkFromRoot | autograd/vis.cpp:55-98 | from a non-null output: ids start at 0 with the output; the numbered nodes are exactly the reachable ones, each once; declarations come in id order with their labels; the edges into each node come from exactly its non-null dependencies, one per occurrence; no other node receives an edge |
| Vis.WalkFromNull | autograd/vis.cpp:68 | a null output writes no node and no edge |
| Vis.ToDot | autograd/vis.cpp:55-98 | the text begins with the three header lines and ends with `}` and a newline; a null output gives only those |
| Vis.EngineWalk | autograd/vis.cpp:80-91 | on an engine graph the export numbers exactly the nodes the backward pass visits and draws one edge per dependency entry |
| Scenarios.Diamond | main.cpp:70-72 | `b = a + a` with a = 3 is the built two-node graph whose sum lists `a` twice |
| Scenarios.DiamondGradients | main.cpp:68-76 | after `b.backward()`, b's gradient is 1 and a's is 2 |
| Scenarios.Mixed | main.cpp:78-82 | the mixed graph has the five expected nodes with data -2, 3, -6, 1, -6 and zero gradients |
| Scenarios.MixedGradients | main.cpp:77-85 | after `f.backward()` the gradients are f 1, e -6, d 1, b -8, a -3 |

## Left out

- Console output is not modelled: `print`, the `operator<<` overloads, `print_value`, `print_vector` and the `DBG` macro produce only diagnostics.
- File and process I/O is not modelled: `write_dot_file` and `write_png` (autograd/vis.cpp:104-137).
- Floating point: data and gradients are `real`. Rounding, infinities and NaN are not modelled, and neither are the numeric tolerances of the driver program's examples.
- The exponential is a parameter known only to be positive. So the model proves nothing about the values `std::exp` returns.
- `rand()` is a stream of draws already scaled to [-1, 1]. The scaling `rand() / RAND_MAX * 2 - 1` is not modelled.
- Pointers become arena indices:
  - `shared_ptr` lifetime and `enable_shared_from_this` are not modelled;
  - the `static` per-operator instance caching is replaced by constant operation tags.
- The body of `Value::backward` is not in the source. `Backprop.BackwardFrom` is a driver written to its declared contract and is not checked against source.
- These members are declared in network.h but their bodies are not part of this model:
  - the optimizer (`step`, `zero_grad`);
  - the `trainable_parameters` methods;
  - the batched network call.
- The root-level `make_value` is only declared in autograd.h; its body is not part of this model. `Values.Leaf` models the leaf constructor (autograd.h:38), which it presumably calls, as the draft's `make_value` does (autograd/autograd.cpp:81-84).
- The "finite differences" doc comments in the headers describe none of the code and are not modelled.
- `Engine.Backward` requires a nonzero divisor for Divide. Its rule divides by the divisor's data, and reals cannot express the infinity a float would give. The public operators never build a Divide node over a zero divisor (`Values.Built`).
- `Engine.Backward` states the routed sum for Multiply only when the output is not one of its inputs, for the reason given under `Engine.MultiplyBackward`. The other five operations are covered for every output.
- `Engine.MultiplyBackward` states the product rule only when the output is not its own input. That is the only case in which the second read of the output's gradient differs from the first, and it cannot arise in a graph built from existing nodes.
- Network sizes are `nat`. A negative size would make `reserve` throw in the source, and that error path is not modelled.
- `Network.NeuronCall`, `Network.LayerCall`, `Network.NetCall`: they are proved to keep the graph well formed, not to keep it built. This is weaker than what the public operators give, and the backward pass over a network's output is not stated.
- `Network.Parameters` models `Neuron::parameters()` as defined in network.cpp:77-93. The header network.h declares `trainable_parameters`/`get_trainable_parameters` instead. The model follows the definition, and always includes the bias, which the constructor always creates.
- `Prototype.F` computes `x * x` on unbounded integers. The source squares an `int`, which overflows for |x| > 46340, and then converts to `float`.
- `Vis.ToDot` states the header and footer only. What lies between them is the rendering of the walk's events, whose structure `Vis.WalkFromRoot` states.
- Export details:
  - pointer identity becomes arena position, and the arena order is acyclic;
  - number formatting is a backslash-free parameter;
  - operation names are read through the view as text;
  - the check in `dfs` for an already-declared node is modelled as written, although the walk only calls `dfs` on undeclared nodes.
