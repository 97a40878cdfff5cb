# micrograd in Dafny

A model of micrograd's scalar reverse-mode automatic differentiation engine
(`micrograd/engine.py`) and of the neural-network modules built on it
(`micrograd/nn.py`), with proofs of what they compute.

- `wrappers.dfy` — `Result`, the error channel every operation that can raise
  in Python returns through.
- `engine.dfy` (module `Engine`) — the `Value` graph as an arena: a `Graph` is
  a sequence of `Node(data, grad, op)`, a node's identity is its index, and an
  operation only refers to operands with smaller indices, so every graph is
  acyclic by construction. The closures `_backward` become the `Op` datatype,
  interpreted by `Fire`. The builders `+`, `*`, `**`, `relu` and the derived
  operators return the extended graph and the index of the new node.
- `topo.dfy` (module `Topo`) — reachability, and `build_topo` as a
  depth-first post-order walk with a visited set, proved to produce a
  topological order of exactly the reachable nodes.
- `backward.dfy` (module `Gradients`) — `backward` as a pure fold of `Fire`
  over `reversed(topo)` after seeding the root. Its result is characterised
  by `Adjoint`, the chain rule written as an equation: every node ends with
  the gradient it had before (1 for the root) plus, for each reachable
  consumer, the local derivative times that consumer's final gradient.
- `nn.dfy` (module `Nn`) — `Neuron`, `Layer` and `MLP` as data over the
  indices of their parameter nodes: construction, `parameters()`,
  `zero_grad()`, and `__call__`, which builds the forward graph and is proved
  to compute a reference evaluation on plain numbers.
- `scenarios.dfy` (module `Scenarios`) — small graphs worked through
  `backward`: `a*a`, `a**3`, `relu` at 0, `0**0`, and `backward` called twice.

Raw Python numbers appear as `Operand.Num`; the engine wraps them into fresh
leaves exactly where Python does. Values are mathematical reals.

A second `backward()` without `zero_grad()` need not double the gradients.
Only the root is reset to 1, so a gradient that flows straight from the root
doubles: for `out = a * b` with `a = 2`, `b = 5`, `a.grad` goes from 5 to 10
(`Scenarios.ProductBackwardTwice`).
Inner nodes, though, re-propagate their stale gradients. For `a = 1`,
`b = 2a`, `c = 3b`, the first pass gives `a.grad = 6` and the second gives 18
(`Scenarios.ChainBackwardTwice`).

## Model

| member | source | states |
|---|---|---|
| Engine.Operands | micrograd/engine.py:6-12 | the operands a node keeps are exactly the distinct children it was built from, with no repeats (so `a*a` keeps the single operand `a`), at most two |
| Engine.Push | micrograd/engine.py:6-12 | a new node starts with gradient 0 and is appended after every existing node, which all stay unchanged |
| Engine.Wrap | micrograd/engine.py:15 | a `Value` operand is used as it is; a raw number becomes a fresh leaf holding that number, with gradient 0 and no operands |
| Engine.Add | micrograd/engine.py:14-23 | the new node holds the sum of the operand values and records both operands; a raw right operand is wrapped into a leaf first; no existing node changes |
| Engine.Mul | micrograd/engine.py:25-34 | the new node holds the product of the operand values and records both operands; a raw right operand is wrapped into a leaf first; no existing node changes |
| Engine.IntPow | micrograd/engine.py:38 | for a non-negative exponent it is the repeated product; for a negative one it is the reciprocal of the repeated product |
| Engine.Pow | micrograd/engine.py:36-44 | a non-numeric exponent is rejected; the power fails with a zero division exactly when the base is 0 and the exponent negative; otherwise the new node holds `data ** k` and records its single operand |
| Engine.Relu | micrograd/engine.py:46-53 | the new node holds 0 when the operand is negative and the operand's value otherwise, so it is never negative |
| Engine.Neg | micrograd/engine.py:73-74 | `-a` builds a leaf -1 and a product node whose value is the negated value of `a` |
| Engine.RAdd | micrograd/engine.py:76-77 | `k + a` builds the same nodes as `a + k`: a leaf for `k`, then a sum node with `a` as its first operand |
| Engine.Sub | micrograd/engine.py:79-80 | `a - b` appends exactly the nodes `a + (-b)` builds: a raw number is negated before it becomes a leaf, then summed with `a`; a node `b` gets a leaf -1, the product `-b` and the sum, which holds the difference |
| Engine.RSub | micrograd/engine.py:82-83 | `k - a` appends exactly four nodes: a leaf -1, the product `-a`, a leaf for `k`, and their sum, which holds `k` minus the value of `a` |
| Engine.RMul | micrograd/engine.py:85-86 | `k * a` builds the same nodes as `a * k`, with `a` as the first operand |
| Engine.Div | micrograd/engine.py:88-89 | `a / b` fails with a zero division exactly when the divisor's value is 0; otherwise it appends two nodes and the last holds the quotient |
| Engine.DivByNumber | micrograd/engine.py:88-89 | dividing by a raw non-zero `k` appends a leaf holding `1/k` and the product of `a` with it, which holds `a / k` |
| Engine.DivByNode | micrograd/engine.py:88-89 | dividing by a non-zero node `b` appends the power node `b ** -1` and the product of `a` with it, which holds `a / b` |
| Engine.RDiv | micrograd/engine.py:91-92 | `k / a` fails exactly when `a` is 0; otherwise it appends exactly three nodes: `a ** -1`, a leaf for `k`, and their product, which holds the quotient |
| Engine.AddRuleEffect | micrograd/engine.py:18-20 | the sum rule adds the output gradient once per operand position, so `a + a` adds it twice to `a` |
| Engine.MulRuleEffect | micrograd/engine.py:29-31 | the product rule adds each operand's partner value times the output gradient, and both terms to `a` in `a * a` |
| Engine.PowRuleEffect | micrograd/engine.py:40-41 | the power rule adds `k * data ** (k - 1)` times the output gradient to the base and to no other node |
| Engine.ReluRuleEffect | micrograd/engine.py:49-50 | the ReLU rule passes the output gradient to its operand when the output is positive and nothing otherwise |
| Engine.Fire | micrograd/engine.py:18-51 | a node's rule raises exactly when it would evaluate 0 to a negative power; otherwise it changes only gradients, adding to every node its local derivative times the firing node's gradient |
| Engine.Coef | micrograd/engine.py:18-51 | a rule's local derivative with respect to a node that is not its operand is 0; the sum rule's is 0, 1 or 2; the ReLU rule's is 1 for its operand exactly when the output is positive, and 0 otherwise |
| Engine.CoefValues | micrograd/engine.py:18-41 | the sum rule's derivative is 1 for each operand of `a + b` and 2 exactly for `a + a`; the product rule's is the partner's value, or twice the value for `a * a`; the power rule's is `k * data ** (k - 1)` for its base |
| Engine.CoefOnlyOnOperands | micrograd/engine.py:18-51 | a rule contributes nothing to a node that is not one of its operands |
| Engine.SetGrad | micrograd/engine.py:69 | assigning a gradient changes that node's gradient only |
| Topo.ReachStep | micrograd/engine.py:63-64 | a node is reachable from `v` exactly when it is `v` or reachable from one of `v`'s operands |
| Topo.ReachClosed | micrograd/engine.py:63-64 | every operand of a reachable node is reachable |
| Topo.ReachSameValues | micrograd/engine.py:63-64 | which nodes are reachable depends only on the operations, not on data or gradients |
| Topo.Visit | micrograd/engine.py:60-65 | `build_topo(v)` only adds to `visited` and only appends to `topo`, leaves `v` visited, and does nothing when `v` was already visited |
| Topo.VisitAll | micrograd/engine.py:63-64 | the loop over the operands only adds to `visited` and only appends to `topo`, and leaves every operand visited |
| Topo.VisitCorrect | micrograd/engine.py:60-65 | one call of `build_topo` marks visited exactly the nodes reachable from its argument, keeps what `topo` already held as a prefix, appends each reachable node that was not visited yet, keeps every node after its operands, and appends its argument last |
| Topo.BuildTopo | micrograd/engine.py:58-66 | `topo` lists every node reachable from the root exactly once and nothing else, every node after its operands, with the root last |
| Gradients.FiringOrder | micrograd/engine.py:70 | `reversed(topo)` starts with the root, lists each reachable node once, and puts every consumer of a node before the node |
| Gradients.FireAll | micrograd/engine.py:70-71 | running the rules in turn changes only gradients, never a value or an operation |
| Gradients.GradientFinalWhenFired | micrograd/engine.py:70-71 | when a node's rule fires, every contribution it will ever receive has already arrived |
| Gradients.FireAllCorrect | micrograd/engine.py:70-71 | firing the rest of the order completes every node's gradient to its chain-rule value |
| Gradients.FireAllFails | micrograd/engine.py:70-71 | if any node in the order has a rule that raises, the whole pass fails with a zero division |
| Gradients.Backward | micrograd/engine.py:55-71 | `backward` succeeds exactly when no reachable rule raises; it changes only gradients; every node ends with its old gradient (1 for the root) plus each reachable consumer's local derivative times that consumer's final gradient |
| Gradients.BackwardSeedsRoot | micrograd/engine.py:69 | after `backward` the root's gradient is 1, whatever it was before |
| Gradients.BackwardLeavesUnreachable | micrograd/engine.py:58-71 | a node not reachable from the root is left exactly as it was |
| Gradients.UnreachableAdjoint | micrograd/engine.py:58-71 | no reachable node consumes an unreachable one, so the chain-rule value of an unreachable node is its old gradient |
| Scenarios.SquareGradient | micrograd/engine.py:29-31 | for `a*a` with `a = 3`, `a` is its only operand and `backward` leaves `a.grad = 6` |
| Scenarios.CubeGradient | micrograd/engine.py:40-41 | for `a**3` with `a = 2`, `backward` leaves `a.grad = 12` |
| Scenarios.ReluAtZeroGradient | micrograd/engine.py:49-50 | for `relu(a)` with `a = 0`, `backward` leaves `a.grad = 0` although the output's gradient is 1 |
| Scenarios.ZeroToTheZeroBackwardFails | micrograd/engine.py:36-41 | `a**0` with `a = 0` builds a node holding 1, but `backward` from it raises a zero division |
| Scenarios.ChainBackwardTwice | micrograd/engine.py:69-71 | for `c = 3(2a)`, `backward` gives `a.grad = 6`; a second call gives 18, because inner gradients are not reset |
| Scenarios.ProductAdjoints | micrograd/engine.py:29-31 | for `out = a * b` with `b = 5`, one `backward` adds 5 to whatever gradient `a` held before |
| Scenarios.ProductBackwardTwice | micrograd/engine.py:69-71 | for `out = a * b` with `a = 2`, `b = 5`, `backward` gives `a.grad = 5`, and a second call doubles it to 10, because the root is reset to 1 |
| Nn.Parameters | micrograd/nn.py:14-15 | the base `Module` has no parameters, and every subclass's `parameters()` lists exactly the weights and biases of its neurons |
| Nn.LayerParamsMembers | micrograd/nn.py:52-53 | a layer's parameters are exactly the parameters of its neurons |
| Nn.MlpParamsMembers | micrograd/nn.py:90-91 | an MLP's parameters are exactly the parameters of its layers |
| Nn.NeuronParamsLayout | micrograd/nn.py:33-34 | a neuron's parameters are its weights in order followed by its bias, `nin + 1` in all |
| Nn.LayerParamsLayout | micrograd/nn.py:52-53 | a layer's parameters have length `nout * (nin + 1)`, and neuron `j`'s parameters fill the block starting at `j * (nin + 1)` |
| Nn.LayerParamsAppend | micrograd/nn.py:52-53 | a layer's parameters follow neuron order, so splitting the neurons splits the list |
| Nn.MlpParamsAppend | micrograd/nn.py:90-91 | an MLP's parameters are its layers' parameters in layer order, so splitting the layers splits the list |
| Nn.ZeroGrads | micrograd/nn.py:11-12 | the loop sets the gradient of every listed node to 0, leaves every other gradient as it was, and changes no value |
| Nn.ZeroGrad | micrograd/nn.py:10-12 | `zero_grad` zeroes exactly the module's parameters and changes nothing else |
| Nn.ZeroGradBase | micrograd/nn.py:14-15 | the base `Module` has no parameters, so its `zero_grad` changes nothing |
| Nn.ZeroGradIdempotent | micrograd/nn.py:10-12 | zeroing twice is the same as zeroing once |
| Nn.Leaves | micrograd/nn.py:25 | the weights are fresh leaves, in order, holding the given initial values |
| Nn.NewNeuron | micrograd/nn.py:24-27 | a neuron gets one fresh weight leaf per input and a fresh bias leaf holding 0, keeps `nonlin`, and its parameters are exactly the new nodes in order |
| Nn.NewLayer | micrograd/nn.py:45-46 | a layer has `nout` neurons of `nin` weights with the given `nonlin`, and its parameters are exactly the `nout * (nin + 1)` new nodes in order |
| Nn.NewMlp | micrograd/nn.py:81-83 | `MLP(nin, nouts)` has one layer per entry of `nouts`, layer `i` maps `sz[i]` inputs to `sz[i+1]` outputs, all layers but the last are ReLU, its parameters are exactly the new nodes in order, and every neuron of layer `i` starts as `Neuron.__init__` leaves it: its weights are fresh leaves at grad 0 holding its row of `draws[i]`, and its bias is a leaf holding 0 |
| Nn.NewMlpIn | micrograd/nn.py:81-83 | every parameter of a new MLP is a node of the graph it was built in |
| Nn.RestIsDotTail | micrograd/nn.py:30 | the products still to be added after pair `k` are the whole left-to-right weighted sum minus its first `k` terms |
| Nn.SumStep | micrograd/nn.py:30 | one step of `sum` appends a leaf for a raw input, the product `wi*xi`, and `acc + wi*xi`, exactly these nodes and nothing else |
| Nn.SumFrom | micrograd/nn.py:30 | `sum(..., b)` leaves a chain of sum nodes, all new nodes starting at gradient 0, each adding the product of the next weight and input to the one before, down to the start node; the final node holds the start value plus the remaining products; with nothing to add it returns the start node itself |
| Nn.Affine | micrograd/nn.py:30 | the activation before `relu` is such a chain starting at the bias node, its new nodes at gradient 0, and holds the bias plus the left-to-right weighted sum over the first `min(len(w), len(x))` pairs |
| Nn.NeuronCall | micrograd/nn.py:29-31 | a neuron called on a bare `Value` fails (`zip` cannot iterate it); on a list it yields a node holding `relu` (if `nonlin`) of the bias plus the weighted sum over the first `min(len(w), len(x))` pairs; a nonlinear neuron's output is a ReLU node over the chain of sums, and a linear neuron's output is the chain itself, so with no pairs it is the bias node itself; every node it adds starts at gradient 0 |
| Nn.SumChainReaches | micrograd/nn.py:30 | from a reachable chain of sums, its start node, the weights of its pairs and its node inputs are all reachable |
| Nn.NeuronOutputReaches | micrograd/nn.py:29-31 | `backward` from a neuron's output reaches its bias, every weight the sum used, and every input node |
| Nn.CallEach | micrograd/nn.py:49 | every neuron is called on the same input, in order: output `j` is neuron `j`'s ReLU or sum node over its own weights and bias, holding that neuron's value, and every added node starts at gradient 0 |
| Nn.LayerCall | micrograd/nn.py:48-50 | a layer fails exactly when it has neurons and gets a bare value; otherwise its outputs are the neurons' output nodes in order, holding the neurons' values on its input, unwrapped when there is exactly one, and every added node starts at gradient 0 |
| Nn.CollectOutputs | micrograd/nn.py:49-50 | the neurons' output nodes, the lone one unwrapped, are the layer's output |
| Nn.LayerOutputs | micrograd/nn.py:49-50 | the outputs, unwrapped when there is exactly one, carry what the layer computes on plain numbers |
| Nn.EvalLayerShape | micrograd/nn.py:48-50 | a layer's result is a bare value exactly when it has one neuron, and otherwise a list with one entry per neuron |
| Nn.MlpCall | micrograd/nn.py:85-88 | calling an MLP threads the input through the layers in order; it fails exactly when the reference evaluation does, and otherwise its outputs hold the reference values, each layer's output nodes feed the next layer's neurons, and every added node starts at gradient 0 |
| Nn.MlpCallAppend | micrograd/nn.py:85-88 | calling a stack of layers is calling its first part and then the rest on what the first part returned, and a failure in the first part ends the call |
| Nn.EvalMlpFails | micrograd/nn.py:85-88 | a stack of layers fails exactly when some layer that has neurons is fed a bare value: the input itself, or the output of a one-neuron layer before it |
| Nn.EvalMlpShape | micrograd/nn.py:85-88 | an MLP's result is a bare value exactly when its last layer has one neuron, and otherwise a list with one entry per last-layer neuron |
| Nn.ShapedMlpCallFails | micrograd/nn.py:81-88 | an `MLP(nin, nouts)` called on a list fails exactly when some hidden layer has one neuron and the next layer has neurons |

## Left out

- Floating point: `data` and `grad` are reals, so rounding, infinities and NaN are not modelled; Python's `0.0 ** -1` raises ZeroDivisionError (division goes through `** -1` too); it is modelled as a `ZeroDivision` failure.
- Float exponents of `**`: Python accepts them, but only integer exponents are modelled, because real powers are not expressible here. A non-number exponent is `NonNumeric`, which the `assert` rejects.
- `_op` and every `__repr__`: they only label nodes and format text.
- Python's iteration order over the set `_prev`: the model visits the first operand before the second. The proof of `Topo.VisitAllCorrect` uses nothing about the operand order, and the gradients are sums, so the order does not change them.
- Gradients.Backward: the recursion depth of `build_topo` is unbounded here. In CPython a graph deeper than the interpreter's recursion limit (about 1000 by default) makes `build_topo` raise `RecursionError`, and the model does not say so.
- State left behind by an exception: when a rule raises in the middle of `backward`, Python has already changed some gradients. The model returns the failure and no graph.
- Random initialisation: `random.uniform(-1, 1)` is replaced by initial weights given as arguments, and the bound -1 to 1 is not checked.
- Inputs that are neither a `Value`, a number, nor a list of them (Python's duck typing), and cyclic graphs, which the builders cannot create.
- Nn.NeuronCall: an input list may hold nodes or raw numbers, but not nested lists or other iterables.
