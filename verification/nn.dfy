/** The network components of `micrograd/nn.py`, built from engine nodes.

    A parameter is the index of a leaf node of the graph. The random initial
    weights (`random.uniform(-1, 1)`) are passed in as `draws`, so every
    builder is a deterministic function of the values it is given. */
module Nn {
  import opened Wrappers
  import opened Engine
  import Topo

  datatype Neuron = Neuron(w: seq<nat>, b: nat, nonlin: bool)

  datatype Layer = Layer(neurons: seq<Neuron>)

  datatype Mlp = Mlp(layers: seq<Layer>)

  /** The class a `Module` value belongs to; `Base` is `Module` itself */
  datatype Module = Base | NeuronModule(neuron: Neuron) | LayerModule(layer: Layer) | MlpModule(mlp: Mlp)

  /** What a call takes and returns: a list, or the bare value that a layer
      of exactly one neuron returns */
  datatype Signal<T> = One(x: T) | Many(xs: seq<T>)

  datatype NnError =
    | NotIterable   // `zip(self.w, x)` with `x` a bare `Value` raises TypeError

  /** A builder's result: the extended graph and what was built in it */
  datatype Made<T> = Made(graph: Graph, item: T)

  function Min(a: nat, b: nat): nat {
    if a <= b then a else b
  }

  /** The consecutive indices `lo, lo + 1, ..., hi - 1` */
  function Range(lo: nat, hi: nat): (r: seq<nat>)
    requires lo <= hi
    ensures |r| == hi - lo
    ensures forall k :: 0 <= k < |r| ==> r[k] == lo + k
    decreases hi - lo
  {
    if lo == hi then [] else [lo] + Range(lo + 1, hi)
  }

  lemma RangeAppend(a: nat, b: nat, c: nat)
    requires a <= b <= c
    ensures Range(a, b) + Range(b, c) == Range(a, c)
  {
    assert forall k :: 0 <= k < c - a ==> (Range(a, b) + Range(b, c))[k] == a + k;
  }

  lemma Kept(big: Graph, small: Graph, i: nat)
    requires Extends(big, small) && i < |small|
    ensures big[i] == small[i]
  {
  }

  lemma ExtendsTrans(c: Graph, b: Graph, a: Graph)
    requires Extends(c, b) && Extends(b, a)
    ensures Extends(c, a)
  {
    forall i | 0 <= i < |a|
      ensures c[i] == a[i]
    {
      Kept(c, b, i);
      Kept(b, a, i);
    }
  }

  /** Every node `big` adds to `small` starts with gradient 0, as every new
      `Value` does */
  ghost predicate FreshGrads(big: Graph, small: Graph) {
    forall i :: |small| <= i < |big| ==> big[i].grad == 0.0
  }

  lemma FreshTrans(c: Graph, b: Graph, a: Graph)
    requires Extends(c, b) && Extends(b, a)
    requires FreshGrads(c, b) && FreshGrads(b, a)
    ensures FreshGrads(c, a)
  {
    forall i | |a| <= i < |c|
      ensures c[i].grad == 0.0
    {
      if i < |b| {
        Kept(c, b, i);
      }
    }
  }

  // ---------------------------------------------------------------------
  // parameters()

  /** `Neuron.parameters()`: the weights in order, then the bias */
  function NeuronParams(n: Neuron): seq<nat> {
    n.w + [n.b]
  }

  /** `Layer.parameters()`: the neurons' parameters, neuron after neuron */
  function LayerParams(ns: seq<Neuron>): seq<nat> {
    if |ns| == 0 then [] else NeuronParams(ns[0]) + LayerParams(ns[1..])
  }

  /** `MLP.parameters()`: the layers' parameters, layer after layer */
  function MlpParams(ls: seq<Layer>): seq<nat> {
    if |ls| == 0 then [] else LayerParams(ls[0].neurons) + MlpParams(ls[1..])
  }

  /** A layer's parameters are exactly its neurons' parameters */
  lemma {:induction false} LayerParamsMembers(ns: seq<Neuron>)
    ensures forall x :: x in LayerParams(ns) <==> exists j :: 0 <= j < |ns| && x in NeuronParams(ns[j])
    decreases |ns|
  {
    if |ns| > 0 {
      LayerParamsMembers(ns[1..]);
      assert forall j :: 1 <= j < |ns| ==> ns[j] == ns[1..][j - 1];
    }
  }

  /** An MLP's parameters are exactly its layers' parameters */
  lemma {:induction false} MlpParamsMembers(ls: seq<Layer>)
    ensures forall x :: x in MlpParams(ls) <==> exists i :: 0 <= i < |ls| && x in LayerParams(ls[i].neurons)
    decreases |ls|
  {
    if |ls| > 0 {
      MlpParamsMembers(ls[1..]);
      assert forall i :: 1 <= i < |ls| ==> ls[i] == ls[1..][i - 1];
    }
  }

  /** `n` is one of the neurons of `m` */
  ghost predicate NeuronOf(m: Module, n: Neuron) {
    match m
    case Base => false
    case NeuronModule(n1) => n == n1
    case LayerModule(l) => n in l.neurons
    case MlpModule(p) => exists i :: 0 <= i < |p.layers| && n in p.layers[i].neurons
  }

  /** `m.parameters()`, dispatched on the class: exactly the weights and
      biases of the module's neurons */
  function Parameters(m: Module): (r: seq<nat>)
    ensures forall x :: x in r <==> exists n :: NeuronOf(m, n) && x in NeuronParams(n)
  {
    match m
    case Base => []
    case NeuronModule(n) => NeuronParams(n)
    case LayerModule(l) =>
      LayerParamsMembers(l.neurons);
      LayerParams(l.neurons)
    case MlpModule(p) =>
      MlpParamsMembers(p.layers);
      forall i | 0 <= i < |p.layers| {
        LayerParamsMembers(p.layers[i].neurons);
      }
      MlpParams(p.layers)
  }

  /** A neuron's parameters are its weights in order, then its bias */
  lemma NeuronParamsLayout(n: Neuron)
    ensures |NeuronParams(n)| == |n.w| + 1
    ensures forall k :: 0 <= k < |n.w| ==> NeuronParams(n)[k] == n.w[k]
    ensures NeuronParams(n)[|n.w|] == n.b
  {
  }

  lemma MulStep(j: nat, w: nat)
    requires j >= 1
    ensures j * w == w + (j - 1) * w
  {
  }

  lemma SliceOfAppend(a: seq<nat>, b: seq<nat>, lo: nat, hi: nat)
    requires |a| <= lo <= hi <= |a| + |b|
    ensures (a + b)[lo..hi] == b[lo - |a|..hi - |a|]
  {
  }

  /** The `j`-th block of width `w` in `s`, or nothing when `s` is too short
      to hold it */
  function Block(s: seq<nat>, j: nat, w: nat): (r: seq<nat>)
    ensures (j + 1) * w <= |s| ==> |r| == w
    ensures (j + 1) * w > |s| ==> r == []
  {
    if (j + 1) * w <= |s| then s[j * w..(j + 1) * w] else []
  }

  /** A layer's parameters are its neurons' parameters, neuron after neuron:
      with `nin` weights each, neuron `j` owns the block starting at
      `j * (nin + 1)` */
  lemma LayerParamsLayout(ns: seq<Neuron>, nin: nat)
    requires forall j :: 0 <= j < |ns| ==> |ns[j].w| == nin
    ensures |LayerParams(ns)| == |ns| * (nin + 1)
    ensures forall j :: 0 <= j < |ns| ==> Block(LayerParams(ns), j, nin + 1) == NeuronParams(ns[j])
  {
    LayerParamsLength(ns, nin);
    forall j | 0 <= j < |ns|
      ensures Block(LayerParams(ns), j, nin + 1) == NeuronParams(ns[j])
    {
      LayerParamsBlockAt(ns, nin, j);
    }
  }

  lemma LayerParamsBlockAt(ns: seq<Neuron>, nin: nat, j: nat)
    requires forall k :: 0 <= k < |ns| ==> |ns[k].w| == nin
    requires j < |ns|
    ensures Block(LayerParams(ns), j, nin + 1) == NeuronParams(ns[j])
  {
    LayerParamsBlock(ns, nin, j);
    MulSucc(j, nin + 1);
  }

  lemma MulSucc(j: nat, w: nat)
    ensures (j + 1) * w == j * w + w
  {
  }

  lemma {:induction false} LayerParamsLength(ns: seq<Neuron>, nin: nat)
    requires forall j :: 0 <= j < |ns| ==> |ns[j].w| == nin
    ensures |LayerParams(ns)| == |ns| * (nin + 1)
    decreases |ns|
  {
    if |ns| > 0 {
      LayerParamsLength(ns[1..], nin);
      MulStep(|ns|, nin + 1);
    }
  }

  /** Neuron `j`'s parameters fill the block of the layer's that starts at
      `j * (nin + 1)` */
  lemma {:induction false} LayerParamsBlock(ns: seq<Neuron>, nin: nat, j: nat)
    requires forall k :: 0 <= k < |ns| ==> |ns[k].w| == nin
    requires j < |ns|
    ensures j * (nin + 1) + (nin + 1) <= |LayerParams(ns)|
    ensures LayerParams(ns)[j * (nin + 1)..j * (nin + 1) + (nin + 1)] == NeuronParams(ns[j])
    decreases |ns|
  {
    var w := nin + 1;
    var head, tail := NeuronParams(ns[0]), LayerParams(ns[1..]);
    assert LayerParams(ns) == head + tail;
    NeuronParamsLayout(ns[0]);
    if j == 0 {
      assert (head + tail)[..w] == head;
    } else {
      LayerParamsBlock(ns[1..], nin, j - 1);
      MulStep(j, w);
      assert ns[1..][j - 1] == ns[j];
      BlockAfterHead(head, tail, j * w, NeuronParams(ns[j]));
    }
  }

  /** The block of `tail` at `lo - |head|` is the block of `head + tail` at `lo` */
  lemma BlockAfterHead(head: seq<nat>, tail: seq<nat>, lo: nat, x: seq<nat>)
    requires |head| <= lo <= |tail|
    requires tail[lo - |head|..lo] == x
    ensures (head + tail)[lo..lo + |head|] == x
  {
    SliceOfAppend(head, tail, lo, lo + |head|);
  }

  /** The parameters of two runs of neurons side by side are those of the
      first run followed by those of the second */
  lemma {:induction false} LayerParamsAppend(a: seq<Neuron>, b: seq<Neuron>)
    ensures LayerParams(a + b) == LayerParams(a) + LayerParams(b)
    decreases |a|
  {
    if |a| > 0 {
      assert (a + b)[1..] == a[1..] + b;
      LayerParamsAppend(a[1..], b);
    } else {
      assert a + b == b;
    }
  }

  /** The parameters of a network made of two stacks of layers are those of
      the first stack followed by those of the second */
  lemma {:induction false} MlpParamsAppend(a: seq<Layer>, b: seq<Layer>)
    ensures MlpParams(a + b) == MlpParams(a) + MlpParams(b)
    decreases |a|
  {
    if |a| > 0 {
      assert (a + b)[1..] == a[1..] + b;
      MlpParamsAppend(a[1..], b);
    } else {
      assert a + b == b;
    }
  }

  // ---------------------------------------------------------------------
  // zero_grad()

  /** Resets the gradient of every listed node to 0 */
  function ZeroGrads(g: Graph, ps: seq<nat>): (r: Graph)
    requires forall k :: 0 <= k < |ps| ==> ps[k] < |g|
    ensures SameValues(r, g)
    ensures forall i :: 0 <= i < |g| ==> r[i].grad == if i in ps then 0.0 else g[i].grad
    decreases |ps|
  {
    if |ps| == 0 then g
    else
      var r := ZeroGrads(SetGrad(g, ps[0], 0.0), ps[1..]);
      assert forall i :: i in ps <==> i == ps[0] || i in ps[1..];
      r
  }

  /** `m.zero_grad()` */
  function ZeroGrad(g: Graph, m: Module): (r: Graph)
    requires forall k :: 0 <= k < |Parameters(m)| ==> Parameters(m)[k] < |g|
    ensures SameValues(r, g)
    ensures forall i :: 0 <= i < |g| ==>
              r[i].grad == if i in Parameters(m) then 0.0 else g[i].grad
  {
    ZeroGrads(g, Parameters(m))
  }

  /** The base `Module` has no parameters, so `zero_grad` changes nothing */
  lemma ZeroGradBase(g: Graph)
    ensures ZeroGrad(g, Base) == g
  {
  }

  /** Zeroing twice is zeroing once */
  lemma ZeroGradIdempotent(g: Graph, m: Module)
    requires forall k :: 0 <= k < |Parameters(m)| ==> Parameters(m)[k] < |g|
    ensures ZeroGrad(ZeroGrad(g, m), m) == ZeroGrad(g, m)
  {
    var once := ZeroGrad(g, m);
    var twice := ZeroGrad(once, m);
    assert forall i :: 0 <= i < |g| ==> twice[i] == once[i];
  }

  // ---------------------------------------------------------------------
  // Construction

  /** One fresh leaf per initial value, in the order given */
  function Leaves(g: Graph, ds: seq<real>): (r: Graph)
    requires WellFormed(g)
    ensures WellFormed(r) && Extends(r, g) && |r| == |g| + |ds|
    ensures forall k :: 0 <= k < |ds| ==> r[|g| + k] == Node(ds[k], 0.0, Const)
    decreases |ds|
  {
    if |ds| == 0 then g
    else
      var p := Push(g, ds[0], Const);
      var r := Leaves(p.graph, ds[1..]);
      ExtendsTrans(r, p.graph, g);
      Kept(r, p.graph, |g|);
      assert forall k :: 1 <= k < |ds| ==> ds[1..][k - 1] == ds[k];
      r
  }

  /** The parameters of `n` are leaves of `h` holding their initial values:
      the weights hold `ws`, the bias holds 0 */
  predicate InitialNeuron(h: Graph, n: Neuron, ws: seq<real>) {
    && |n.w| == |ws|
    && (forall k :: 0 <= k < |ws| ==> n.w[k] < |h| && h[n.w[k]] == Node(ws[k], 0.0, Const))
    && n.b < |h| && h[n.b] == Node(0.0, 0.0, Const)
  }

  lemma InitialKept(big: Graph, small: Graph, n: Neuron, ws: seq<real>)
    requires Extends(big, small) && InitialNeuron(small, n, ws)
    ensures InitialNeuron(big, n, ws)
  {
    forall k | 0 <= k < |ws|
      ensures big[n.w[k]] == small[n.w[k]]
    {
      Kept(big, small, n.w[k]);
    }
    Kept(big, small, n.b);
  }

  /** `Neuron(nin, nonlin)`, with the weights' initial values given */
  function NewNeuron(g: Graph, draws: seq<real>, nonlin: bool): (r: Made<Neuron>)
    requires WellFormed(g)
    ensures WellFormed(r.graph) && Extends(r.graph, g)
    ensures |r.graph| == |g| + |draws| + 1
    ensures |r.item.w| == |draws| && r.item.nonlin == nonlin
    ensures NeuronParams(r.item) == Range(|g|, |r.graph|)
    ensures InitialNeuron(r.graph, r.item, draws)
  {
    var h := Leaves(g, draws);
    var p := Push(h, 0.0, Const);
    var n := Neuron(Range(|g|, |h|), |h|, nonlin);
    forall k | 0 <= k < |draws|
      ensures p.graph[n.w[k]] == Node(draws[k], 0.0, Const)
    {
      Kept(p.graph, h, |g| + k);
    }
    assert Range(|g|, |h|) + [|h|] == Range(|g|, |h| + 1);
    Made(p.graph, n)
  }

  /** The shape of a layer built with `nin` inputs */
  ghost predicate LayerShape(l: Layer, nin: nat, nout: nat, nonlin: bool) {
    && |l.neurons| == nout
    && forall j :: 0 <= j < nout ==> |l.neurons[j].w| == nin && l.neurons[j].nonlin == nonlin
  }

  /** `Layer(nin, nout, nonlin=...)`, with one row of initial weights per neuron */
  function NewLayer(g: Graph, nin: nat, draws: seq<seq<real>>, nonlin: bool): (r: Made<Layer>)
    requires WellFormed(g)
    requires forall j :: 0 <= j < |draws| ==> |draws[j]| == nin
    ensures WellFormed(r.graph) && Extends(r.graph, g)
    ensures LayerShape(r.item, nin, |draws|, nonlin)
    ensures |r.graph| == |g| + |draws| * (nin + 1)
    ensures LayerParams(r.item.neurons) == Range(|g|, |r.graph|)
    ensures forall j :: 0 <= j < |draws| ==> InitialNeuron(r.graph, r.item.neurons[j], draws[j])
    decreases |draws|
  {
    if |draws| == 0 then Made(g, Layer([]))
    else
      var n := NewNeuron(g, draws[0], nonlin);
      var rest := NewLayer(n.graph, nin, draws[1..], nonlin);
      NeuronsJoin(g, nin, draws, nonlin, n, rest);
      Made(rest.graph, Layer([n.item] + rest.item.neurons))
  }

  /** A first neuron followed by the rest of the layer */
  lemma {:induction false} NeuronsJoin(g: Graph, nin: nat, draws: seq<seq<real>>, nonlin: bool, n: Made<Neuron>, rest: Made<Layer>)
    requires |draws| > 0 && forall j :: 0 <= j < |draws| ==> |draws[j]| == nin
    requires Extends(n.graph, g) && |n.graph| == |g| + nin + 1
    requires |n.item.w| == nin && n.item.nonlin == nonlin
    requires NeuronParams(n.item) == Range(|g|, |n.graph|)
    requires InitialNeuron(n.graph, n.item, draws[0])
    requires Extends(rest.graph, n.graph)
    requires LayerShape(rest.item, nin, |draws| - 1, nonlin)
    requires |rest.graph| == |n.graph| + (|draws| - 1) * (nin + 1)
    requires LayerParams(rest.item.neurons) == Range(|n.graph|, |rest.graph|)
    requires forall j :: 0 <= j < |draws| - 1 ==> InitialNeuron(rest.graph, rest.item.neurons[j], draws[1..][j])
    ensures var l := Layer([n.item] + rest.item.neurons);
            && Extends(rest.graph, g)
            && LayerShape(l, nin, |draws|, nonlin)
            && |rest.graph| == |g| + |draws| * (nin + 1)
            && LayerParams(l.neurons) == Range(|g|, |rest.graph|)
            && forall j :: 0 <= j < |draws| ==> InitialNeuron(rest.graph, l.neurons[j], draws[j])
  {
    var ns := [n.item] + rest.item.neurons;
    ExtendsTrans(rest.graph, n.graph, g);
    RangeAppend(|g|, |n.graph|, |rest.graph|);
    MulStep(|draws|, nin + 1);
    assert ns[1..] == rest.item.neurons;
    InitialKept(rest.graph, n.graph, n.item, draws[0]);
    forall j | 1 <= j < |draws|
      ensures ns[j] == rest.item.neurons[j - 1] && draws[j] == draws[1..][j - 1]
    {
    }
  }


  /** The sizes `sz = [nin] + nouts`: layer `i` maps `sz[i]` inputs to
      `sz[i + 1]` outputs, and only the last layer is linear */
  ghost predicate MlpShape(m: Mlp, nin: nat, nouts: seq<nat>) {
    && |m.layers| == |nouts|
    && forall i :: 0 <= i < |nouts| ==>
         LayerShape(m.layers[i], ([nin] + nouts)[i], nouts[i], i != |nouts| - 1)
  }

  /** The initial weights fit the sizes `sz`, from layer `i` on */
  ghost predicate DrawsFit(sz: seq<nat>, i: nat, draws: seq<seq<seq<real>>>) {
    && |draws| == |sz| - 1
    && forall q :: i <= q < |draws| ==>
         |draws[q]| == sz[q + 1] && forall j :: 0 <= j < |draws[q]| ==> |draws[q][j]| == sz[q]
  }

  /** Every neuron of layer `q` in `ls` holds its initial values in `h`: the
      weights hold its row of `ds[q]`, the bias holds 0 */
  ghost predicate InitialLayers(h: Graph, ls: seq<Layer>, ds: seq<seq<seq<real>>>) {
    && |ls| == |ds|
    && (forall q :: 0 <= q < |ls| ==> |ls[q].neurons| == |ds[q]|)
    && forall q, j :: 0 <= q < |ls| && 0 <= j < |ls[q].neurons| ==>
         InitialNeuron(h, ls[q].neurons[j], ds[q][j])
  }

  lemma InitialLayersKept(big: Graph, small: Graph, ls: seq<Layer>, ds: seq<seq<seq<real>>>)
    requires Extends(big, small) && InitialLayers(small, ls, ds)
    ensures InitialLayers(big, ls, ds)
  {
    forall q, j | 0 <= q < |ls| && 0 <= j < |ls[q].neurons|
      ensures InitialNeuron(big, ls[q].neurons[j], ds[q][j])
    {
      InitialKept(big, small, ls[q].neurons[j], ds[q][j]);
    }
  }

  /** A first layer whose neurons hold the rows of `d`, in front of layers
      that already hold theirs */
  lemma InitialLayersCons(h: Graph, small: Graph, l: Layer, d: seq<seq<real>>, rest: seq<Layer>, ds: seq<seq<seq<real>>>)
    requires Extends(h, small) && |l.neurons| == |d|
    requires forall j :: 0 <= j < |d| ==> InitialNeuron(small, l.neurons[j], d[j])
    requires InitialLayers(h, rest, ds)
    ensures InitialLayers(h, [l] + rest, [d] + ds)
  {
    var ls, lds := [l] + rest, [d] + ds;
    forall q | 1 <= q < |ls|
      ensures ls[q] == rest[q - 1] && lds[q] == ds[q - 1]
    {
    }
    forall q, j | 0 <= q < |ls| && 0 <= j < |ls[q].neurons|
      ensures InitialNeuron(h, ls[q].neurons[j], lds[q][j])
    {
      if q == 0 {
        InitialKept(h, small, l.neurons[j], d[j]);
      } else {
        assert InitialNeuron(h, rest[q - 1].neurons[j], ds[q - 1][j]);
      }
    }
  }

  /** Layer `i`, built from `draws[i]`, in front of the layers after it */
  lemma InitialLayersFrom(draws: seq<seq<seq<real>>>, i: nat, l: Made<Layer>, rest: Made<seq<Layer>>)
    requires i < |draws| && Extends(rest.graph, l.graph)
    requires |l.item.neurons| == |draws[i]|
    requires forall j :: 0 <= j < |draws[i]| ==> InitialNeuron(l.graph, l.item.neurons[j], draws[i][j])
    requires InitialLayers(rest.graph, rest.item, draws[i + 1..])
    ensures InitialLayers(rest.graph, [l.item] + rest.item, draws[i..])
  {
    InitialLayersCons(rest.graph, l.graph, l.item, draws[i], rest.item, draws[i + 1..]);
    assert [draws[i]] + draws[i + 1..] == draws[i..];
  }

  /** The layers `i` onwards of `MLP.__init__` */
  function NewLayers(g: Graph, sz: seq<nat>, i: nat, draws: seq<seq<seq<real>>>): (r: Made<seq<Layer>>)
    requires WellFormed(g) && 0 < |sz| && i < |sz| && DrawsFit(sz, i, draws)
    ensures WellFormed(r.graph) && Extends(r.graph, g)
    ensures |r.item| == |sz| - 1 - i
    ensures forall q :: 0 <= q < |r.item| ==>
              LayerShape(r.item[q], sz[i + q], sz[i + q + 1], i + q != |sz| - 2)
    ensures MlpParams(r.item) == Range(|g|, |r.graph|)
    ensures InitialLayers(r.graph, r.item, draws[i..])
    decreases |sz| - i
  {
    if i == |sz| - 1 then Made(g, [])
    else
      var l := NewLayer(g, sz[i], draws[i], i != |sz| - 2);
      var rest := NewLayers(l.graph, sz, i + 1, draws);
      LayersJoin(g, sz, i, l, rest);
      InitialLayersFrom(draws, i, l, rest);
      Made(rest.graph, [l.item] + rest.item)
  }

  /** A first layer followed by the layers after it */
  lemma {:induction false} LayersJoin(g: Graph, sz: seq<nat>, i: nat, l: Made<Layer>, rest: Made<seq<Layer>>)
    requires i + 1 < |sz|
    requires Extends(l.graph, g) && Extends(rest.graph, l.graph)
    requires LayerShape(l.item, sz[i], sz[i + 1], i != |sz| - 2)
    requires LayerParams(l.item.neurons) == Range(|g|, |l.graph|)
    requires |rest.item| == |sz| - 1 - (i + 1)
    requires forall q :: 0 <= q < |rest.item| ==>
               LayerShape(rest.item[q], sz[i + 1 + q], sz[i + 1 + q + 1], i + 1 + q != |sz| - 2)
    requires MlpParams(rest.item) == Range(|l.graph|, |rest.graph|)
    ensures Extends(rest.graph, g)
    ensures forall q :: 0 <= q < |rest.item| + 1 ==>
              LayerShape(([l.item] + rest.item)[q], sz[i + q], sz[i + q + 1], i + q != |sz| - 2)
    ensures MlpParams([l.item] + rest.item) == Range(|g|, |rest.graph|)
  {
    var ls := [l.item] + rest.item;
    ExtendsTrans(rest.graph, l.graph, g);
    RangeAppend(|g|, |l.graph|, |rest.graph|);
    assert ls[1..] == rest.item;
    forall q | 1 <= q < |ls|
      ensures ls[q] == rest.item[q - 1] && i + q == (i + 1) + (q - 1)
    {
    }
  }

  /** `MLP(nin, nouts)`, with the initial weights of every layer given */
  function NewMlp(g: Graph, nin: nat, nouts: seq<nat>, draws: seq<seq<seq<real>>>): (r: Made<Mlp>)
    requires WellFormed(g) && DrawsFit([nin] + nouts, 0, draws)
    ensures WellFormed(r.graph) && Extends(r.graph, g)
    ensures MlpShape(r.item, nin, nouts)
    ensures MlpParams(r.item.layers) == Range(|g|, |r.graph|)
    ensures InitialLayers(r.graph, r.item.layers, draws)
  {
    var r := NewLayers(g, [nin] + nouts, 0, draws);
    assert draws[0..] == draws;
    assert forall q :: 0 <= q < |nouts| ==> ([nin] + nouts)[q + 1] == nouts[q];
    Made(r.graph, Mlp(r.item))
  }

  /** A new MLP's parameters are nodes of the graph it was built in, so it
      can be called there */
  lemma NewMlpIn(g: Graph, nin: nat, nouts: seq<nat>, draws: seq<seq<seq<real>>>)
    requires WellFormed(g) && DrawsFit([nin] + nouts, 0, draws)
    ensures var r := NewMlp(g, nin, nouts, draws); LayersIn(r.item.layers, |r.graph|)
  {
    var r := NewMlp(g, nin, nouts, draws);
    RangeBelow(|g|, |r.graph|);
    LayersInFromParams(r.item.layers, |r.graph|);
  }

  lemma RangeBelow(lo: nat, hi: nat)
    requires lo <= hi
    ensures forall x :: x in Range(lo, hi) ==> x < hi
  {
  }

  /** Every parameter of the layer's neurons is below `size` */
  lemma {:induction false} LayerInFromParams(ns: seq<Neuron>, size: nat)
    requires forall x :: x in LayerParams(ns) ==> x < size
    ensures LayerIn(Layer(ns), size)
    decreases |ns|
  {
    if |ns| > 0 {
      var head, tail := NeuronParams(ns[0]), LayerParams(ns[1..]);
      assert LayerParams(ns) == head + tail;
      forall x | x in tail
        ensures x < size
      {
        assert x in head + tail;
      }
      LayerInFromParams(ns[1..], size);
      forall j | 0 <= j < |ns|
        ensures NeuronIn(ns[j], size)
      {
        if j == 0 {
          forall k | 0 <= k < |ns[0].w|
            ensures ns[0].w[k] < size
          {
            assert ns[0].w[k] in head + tail;
          }
          assert ns[0].b in head + tail;
        } else {
          assert ns[j] == ns[1..][j - 1];
        }
      }
    }
  }

  /** Every parameter of the layers is below `size` */
  lemma {:induction false} LayersInFromParams(ls: seq<Layer>, size: nat)
    requires forall x :: x in MlpParams(ls) ==> x < size
    ensures LayersIn(ls, size)
    decreases |ls|
  {
    if |ls| > 0 {
      var head, tail := LayerParams(ls[0].neurons), MlpParams(ls[1..]);
      assert MlpParams(ls) == head + tail;
      forall x | x in head || x in tail
        ensures x < size
      {
        assert x in head + tail;
      }
      LayerInFromParams(ls[0].neurons, size);
      LayersInFromParams(ls[1..], size);
      forall i | 1 <= i < |ls|
        ensures LayerIn(ls[i], size)
      {
        assert ls[i] == ls[1..][i - 1];
      }
    }
  }

  // ---------------------------------------------------------------------
  // Calls: the graph that `__call__` builds, and what it computes

  /** Every parameter of `n` is a node of a graph of `size` nodes */
  predicate NeuronIn(n: Neuron, size: nat) {
    (forall k :: 0 <= k < |n.w| ==> n.w[k] < size) && n.b < size
  }

  predicate LayerIn(l: Layer, size: nat) {
    forall j :: 0 <= j < |l.neurons| ==> NeuronIn(l.neurons[j], size)
  }

  predicate LayersIn(ls: seq<Layer>, size: nat) {
    forall i :: 0 <= i < |ls| ==> LayerIn(ls[i], size)
  }

  predicate OperandsIn(g: Graph, xs: seq<Operand>) {
    forall k :: 0 <= k < |xs| ==> ValidOperand(g, xs[k])
  }

  predicate SignalIn(g: Graph, x: Signal<Operand>) {
    match x
    case One(y) => ValidOperand(g, y)
    case Many(xs) => OperandsIn(g, xs)
  }

  /** The current values of the weight nodes `w` */
  function Weights(g: Graph, w: seq<nat>): (r: seq<real>)
    requires forall k :: 0 <= k < |w| ==> w[k] < |g|
    ensures |r| == |w|
  {
    seq(|w|, k requires 0 <= k < |w| => g[w[k]].data)
  }

  /** The values of the inputs `xs`, nodes or raw numbers */
  function Values(g: Graph, xs: seq<Operand>): (r: seq<real>)
    requires OperandsIn(g, xs)
    ensures |r| == |xs|
  {
    seq(|xs|, k requires 0 <= k < |xs| => ValueOf(g, xs[k]))
  }

  function SignalData(g: Graph, x: Signal<Operand>): Signal<real>
    requires SignalIn(g, x)
  {
    match x
    case One(y) => One(ValueOf(g, y))
    case Many(xs) => Many(Values(g, xs))
  }

  lemma WeightsKept(big: Graph, small: Graph, w: seq<nat>)
    requires Extends(big, small) && forall k :: 0 <= k < |w| ==> w[k] < |small|
    ensures forall k :: 0 <= k < |w| ==> w[k] < |big|
    ensures Weights(big, w) == Weights(small, w)
  {
    forall k | 0 <= k < |w|
      ensures big[w[k]] == small[w[k]]
    {
      Kept(big, small, w[k]);
    }
  }

  lemma ValuesKept(big: Graph, small: Graph, xs: seq<Operand>)
    requires Extends(big, small) && OperandsIn(small, xs)
    ensures OperandsIn(big, xs) && Values(big, xs) == Values(small, xs)
  {
    forall k | 0 <= k < |xs| && xs[k].Ref?
      ensures big[xs[k].index] == small[xs[k].index]
    {
      Kept(big, small, xs[k].index);
    }
  }

  lemma SignalKept(big: Graph, small: Graph, x: Signal<Operand>)
    requires Extends(big, small) && SignalIn(small, x)
    ensures SignalIn(big, x) && SignalData(big, x) == SignalData(small, x)
  {
    match x
    case One(y) =>
      if y.Ref? {
        Kept(big, small, y.index);
      }
    case Many(xs) =>
      ValuesKept(big, small, xs);
  }

  /** `w0*x0 + w1*x1 + ...` over the first `m` pairs, summed left to right */
  function Dot(ws: seq<real>, xs: seq<real>, m: nat): real
    requires m <= |ws| && m <= |xs|
  {
    if m == 0 then 0.0 else Dot(ws, xs, m - 1) + ws[m - 1] * xs[m - 1]
  }

  /** `w[k]*xs[k] + ... ` over the pairs from `k` up to the shorter length,
      read off the graph */
  ghost function Rest(g: Graph, w: seq<nat>, xs: seq<Operand>, k: nat): real
    requires (forall j :: 0 <= j < |w| ==> w[j] < |g|) && OperandsIn(g, xs)
    requires k <= Min(|w|, |xs|)
    decreases Min(|w|, |xs|) - k
  {
    if k == Min(|w|, |xs|) then 0.0
    else g[w[k]].data * ValueOf(g, xs[k]) + Rest(g, w, xs, k + 1)
  }

  lemma {:induction false} RestKept(big: Graph, small: Graph, w: seq<nat>, xs: seq<Operand>, k: nat)
    requires Extends(big, small)
    requires (forall j :: 0 <= j < |w| ==> w[j] < |small|) && OperandsIn(small, xs)
    requires k <= Min(|w|, |xs|)
    ensures (forall j :: 0 <= j < |w| ==> w[j] < |big|) && OperandsIn(big, xs)
    ensures Rest(big, w, xs, k) == Rest(small, w, xs, k)
    decreases Min(|w|, |xs|) - k
  {
    WeightsKept(big, small, w);
    ValuesKept(big, small, xs);
    if k < Min(|w|, |xs|) {
      Kept(big, small, w[k]);
      if xs[k].Ref? {
        Kept(big, small, xs[k].index);
      }
      RestKept(big, small, w, xs, k + 1);
    }
  }

  /** The pairs from `k` on are what the left-to-right sum adds after pair `k` */
  lemma {:induction false} RestIsDotTail(g: Graph, w: seq<nat>, xs: seq<Operand>, k: nat)
    requires (forall j :: 0 <= j < |w| ==> w[j] < |g|) && OperandsIn(g, xs)
    requires k <= Min(|w|, |xs|)
    ensures Rest(g, w, xs, k)
            == Dot(Weights(g, w), Values(g, xs), Min(|w|, |xs|)) - Dot(Weights(g, w), Values(g, xs), k)
    decreases Min(|w|, |xs|) - k
  {
    if k < Min(|w|, |xs|) {
      RestIsDotTail(g, w, xs, k + 1);
      var ws, vs := Weights(g, w), Values(g, xs);
      assert Dot(ws, vs, k + 1) == Dot(ws, vs, k) + ws[k] * vs[k];
    }
  }

  /** `relu` when `nonlin`, the identity otherwise */
  function Activate(nonlin: bool, y: real): real {
    if nonlin && y < 0.0 then 0.0 else y
  }

  /** What a neuron computes on plain numbers: its bias plus the weighted sum
      of the first `min(len(w), len(x))` inputs, through `relu` if `nonlin` */
  function EvalNeuron(g: Graph, n: Neuron, xs: seq<real>): real
    requires NeuronIn(n, |g|)
  {
    Activate(n.nonlin, g[n.b].data + Dot(Weights(g, n.w), xs, Min(|n.w|, |xs|)))
  }

  /** What a layer computes on plain numbers */
  function EvalLayer(g: Graph, l: Layer, x: Signal<real>): Result<Signal<real>, NnError>
    requires LayerIn(l, |g|)
  {
    if |l.neurons| == 0 then Success(Many([]))
    else
      match x
      case One(_) => Failure(NotIterable)
      case Many(xs) =>
        var ys := seq(|l.neurons|, j requires 0 <= j < |l.neurons| => EvalNeuron(g, l.neurons[j], xs));
        Success(if |ys| == 1 then One(ys[0]) else Many(ys))
  }

  /** What a stack of layers computes on plain numbers */
  function EvalMlp(g: Graph, ls: seq<Layer>, x: Signal<real>): Result<Signal<real>, NnError>
    requires LayersIn(ls, |g|)
    decreases |ls|
  {
    if |ls| == 0 then Success(x)
    else
      var y :- EvalLayer(g, ls[0], x);
      EvalMlp(g, ls[1..], y)
  }

  lemma EvalNeuronKept(big: Graph, small: Graph, n: Neuron, xs: seq<real>)
    requires Extends(big, small) && NeuronIn(n, |small|)
    ensures NeuronIn(n, |big|) && EvalNeuron(big, n, xs) == EvalNeuron(small, n, xs)
  {
    WeightsKept(big, small, n.w);
    Kept(big, small, n.b);
  }

  lemma EvalLayerKept(big: Graph, small: Graph, l: Layer, x: Signal<real>)
    requires Extends(big, small) && LayerIn(l, |small|)
    ensures LayerIn(l, |big|) && EvalLayer(big, l, x) == EvalLayer(small, l, x)
  {
    forall j | 0 <= j < |l.neurons|
      ensures NeuronIn(l.neurons[j], |big|)
      ensures x.Many? ==> EvalNeuron(big, l.neurons[j], x.xs) == EvalNeuron(small, l.neurons[j], x.xs)
    {
      EvalNeuronKept(big, small, l.neurons[j], if x.Many? then x.xs else []);
    }
    if |l.neurons| > 0 && x.Many? {
      assert seq(|l.neurons|, j requires 0 <= j < |l.neurons| => EvalNeuron(big, l.neurons[j], x.xs))
          == seq(|l.neurons|, j requires 0 <= j < |l.neurons| => EvalNeuron(small, l.neurons[j], x.xs));
    }
  }

  lemma {:induction false} EvalMlpKept(big: Graph, small: Graph, ls: seq<Layer>, x: Signal<real>)
    requires Extends(big, small) && LayersIn(ls, |small|)
    ensures LayersIn(ls, |big|) && EvalMlp(big, ls, x) == EvalMlp(small, ls, x)
    decreases |ls|
  {
    forall i | 0 <= i < |ls|
      ensures LayerIn(ls[i], |big|)
    {
      EvalLayerKept(big, small, ls[i], x);
    }
    if |ls| > 0 {
      EvalLayerKept(big, small, ls[0], x);
      var y := EvalLayer(small, ls[0], x);
      if y.Success? {
        EvalMlpKept(big, small, ls[1..], y.value);
      }
    }
  }

  lemma NeuronsKept(big: Graph, small: Graph, ns: seq<Neuron>, vs: seq<real>)
    requires Extends(big, small) && forall j :: 0 <= j < |ns| ==> NeuronIn(ns[j], |small|)
    ensures forall j :: 0 <= j < |ns| ==>
              NeuronIn(ns[j], |big|) && EvalNeuron(big, ns[j], vs) == EvalNeuron(small, ns[j], vs)
  {
    forall j | 0 <= j < |ns|
      ensures NeuronIn(ns[j], |big|) && EvalNeuron(big, ns[j], vs) == EvalNeuron(small, ns[j], vs)
    {
      EvalNeuronKept(big, small, ns[j], vs);
    }
  }

  /** Node `m` of `h` multiplies the weight node `wi` by the input `x`; a raw
      number is held by a leaf of its own */
  ghost predicate ProductOf(h: Graph, m: nat, wi: nat, x: Operand) {
    && m < |h| && h[m].op.MulOp? && h[m].op.a == wi
    && match x
       case Ref(i) => h[m].op.b == i
       case Num(v) => h[m].op.b < |h| && h[h[m].op.b] == Node(v, 0.0, Const)
  }

  /** Node `out` of `h` is `acc + w[k]*xs[k] + ... + w[m-1]*xs[m-1]`, added
      left to right: one sum node per pair, whose second operand is that
      pair's product and whose first is the total of the pairs before it */
  ghost predicate SumChain(h: Graph, w: seq<nat>, xs: seq<Operand>, k: nat, m: nat, acc: nat, out: nat)
    requires k <= m <= |w| && m <= |xs|
    decreases m - k
  {
    && out < |h|
    && if m == k then out == acc
       else
         && h[out].op.AddOp?
         && ProductOf(h, h[out].op.b, w[m - 1], xs[m - 1])
         && SumChain(h, w, xs, k, m - 1, acc, h[out].op.a)
  }

  lemma {:induction false} SumChainKept(big: Graph, small: Graph, w: seq<nat>, xs: seq<Operand>, k: nat, m: nat, acc: nat, out: nat)
    requires Extends(big, small) && k <= m <= |w| && m <= |xs|
    requires SumChain(small, w, xs, k, m, acc, out)
    ensures SumChain(big, w, xs, k, m, acc, out)
    decreases m - k
  {
    Kept(big, small, out);
    if m > k {
      var p := small[out].op.b;
      Kept(big, small, p);
      if xs[m - 1].Num? {
        Kept(big, small, small[p].op.b);
      }
      SumChainKept(big, small, w, xs, k, m - 1, acc, small[out].op.a);
    }
  }

  /** A chain from pair `k + 1` on, started at a node that adds pair `k` to
      `acc`, is a chain from pair `k` on started at `acc` */
  lemma {:induction false} SumChainPrepend(h: Graph, w: seq<nat>, xs: seq<Operand>, k: nat, m: nat, acc: nat, mid: nat, out: nat)
    requires k < m <= |w| && m <= |xs| && acc < |h|
    requires mid < |h| && h[mid].op.AddOp? && h[mid].op.a == acc
    requires ProductOf(h, h[mid].op.b, w[k], xs[k])
    requires SumChain(h, w, xs, k + 1, m, mid, out)
    ensures SumChain(h, w, xs, k, m, acc, out)
    decreases m - k
  {
    if m == k + 1 {
      assert out == mid;
      assert SumChain(h, w, xs, k, k, acc, h[out].op.a);
    } else {
      SumChainPrepend(h, w, xs, k, m - 1, acc, mid, h[out].op.a);
    }
  }

  /** One step of `sum`: the product of the weight node `w` and the input `x`
      (a raw number first becomes a leaf), then the running total `acc` plus
      that product */
  function SumStep(g: Graph, acc: nat, w: nat, x: Operand): (r: Built)
    requires WellFormed(g) && acc < |g| && w < |g| && ValidOperand(g, x)
    ensures WellFormed(r.graph) && Extends(r.graph, g) && r.out == |r.graph| - 1
    ensures r.graph == g + (if x.Num? then [Node(x.x, 0.0, Const)] else [])
                         + [Node(g[w].data * ValueOf(g, x), 0.0, MulOp(w, WrappedIndex(g, x))),
                            Node(g[acc].data + g[w].data * ValueOf(g, x), 0.0, AddOp(acc, |g| + (if x.Num? then 1 else 0)))]
  {
    var t := Mul(g, w, x);
    var s := Add(t.graph, acc, Ref(t.out));
    ExtendsTrans(s.graph, t.graph, g);
    Kept(t.graph, g, acc);
    assert s.graph == t.graph + [s.graph[t.out + 1]];
    assert t.graph == g + (if x.Num? then [Node(x.x, 0.0, Const)] else []) + [t.graph[t.out]];
    s
  }

  /** The step's new nodes all start with gradient 0 */
  lemma SumStepFresh(g: Graph, acc: nat, w: nat, x: Operand)
    requires WellFormed(g) && acc < |g| && w < |g| && ValidOperand(g, x)
    ensures FreshGrads(SumStep(g, acc, w, x).graph, g)
  {
    var s := SumStep(g, acc, w, x);
    forall i | |g| <= i < |s.graph|
      ensures s.graph[i].grad == 0.0
    {
    }
  }

  /** The step's sum node adds its product to `acc` */
  lemma SumStepShape(g: Graph, acc: nat, w: nat, x: Operand)
    requires WellFormed(g) && acc < |g| && w < |g| && ValidOperand(g, x)
    ensures var s := SumStep(g, acc, w, x);
            && s.graph[s.out].op.AddOp? && s.graph[s.out].op.a == acc
            && ProductOf(s.graph, s.graph[s.out].op.b, w, x)
  {
    var s := SumStep(g, acc, w, x);
    assert s.graph[|s.graph| - 2].op == MulOp(w, WrappedIndex(g, x));
    if x.Num? {
      assert s.graph[|g|] == Node(x.x, 0.0, Const);
    }
  }

  /** `sum` over the pairs `zip` yields from pair `k` on, with the running
      total held by node `acc`: the final node holds the total, and is the
      chain of sums of products over those pairs */
  function SumFrom(g: Graph, w: seq<nat>, xs: seq<Operand>, k: nat, acc: nat): (r: Made<nat>)
    requires WellFormed(g) && acc < |g| && k <= Min(|w|, |xs|)
    requires (forall j :: 0 <= j < |w| ==> w[j] < |g|) && OperandsIn(g, xs)
    ensures WellFormed(r.graph) && Extends(r.graph, g) && r.item < |r.graph|
    ensures r.graph[r.item].data == g[acc].data + Rest(g, w, xs, k)
    ensures SumChain(r.graph, w, xs, k, Min(|w|, |xs|), acc, r.item)
    ensures FreshGrads(r.graph, g)
    ensures k == Min(|w|, |xs|) ==> r == Made(g, acc)
    decreases Min(|w|, |xs|) - k
  {
    if k == Min(|w|, |xs|) then Made(g, acc)
    else
      var s := SumStep(g, acc, w[k], xs[k]);
      RestKept(s.graph, g, w, xs, k + 1);
      var r := SumFrom(s.graph, w, xs, k + 1, s.out);
      ExtendsTrans(r.graph, s.graph, g);
      SumStepFresh(g, acc, w[k], xs[k]);
      FreshTrans(r.graph, s.graph, g);
      SumFromJoin(g, w, xs, k, acc, s, r);
      r
  }

  lemma SumFromJoin(g: Graph, w: seq<nat>, xs: seq<Operand>, k: nat, acc: nat, s: Built, r: Made<nat>)
    requires WellFormed(g) && acc < |g| && k < Min(|w|, |xs|)
    requires (forall j :: 0 <= j < |w| ==> w[j] < |g|) && OperandsIn(g, xs)
    requires s == SumStep(g, acc, w[k], xs[k])
    requires Extends(r.graph, s.graph)
    requires SumChain(r.graph, w, xs, k + 1, Min(|w|, |xs|), s.out, r.item)
    ensures SumChain(r.graph, w, xs, k, Min(|w|, |xs|), acc, r.item)
  {
    SumStepShape(g, acc, w[k], xs[k]);
    var p := s.graph[s.out].op.b;
    Kept(r.graph, s.graph, s.out);
    Kept(r.graph, s.graph, p);
    if xs[k].Num? {
      Kept(r.graph, s.graph, s.graph[p].op.b);
    }
    SumChainPrepend(r.graph, w, xs, k, Min(|w|, |xs|), acc, s.out, r.item);
  }

  /** The activation before `relu`: the bias plus the weighted inputs, summed
      pair by pair starting from the bias node */
  function Affine(g: Graph, n: Neuron, xs: seq<Operand>): (r: Made<nat>)
    requires WellFormed(g) && NeuronIn(n, |g|) && OperandsIn(g, xs)
    ensures WellFormed(r.graph) && Extends(r.graph, g) && r.item < |r.graph|
    ensures r.graph[r.item].data == g[n.b].data + Dot(Weights(g, n.w), Values(g, xs), Min(|n.w|, |xs|))
    ensures SumChain(r.graph, n.w, xs, 0, Min(|n.w|, |xs|), n.b, r.item)
    ensures FreshGrads(r.graph, g)
    ensures Min(|n.w|, |xs|) == 0 ==> r == Made(g, n.b)
  {
    var s := SumFrom(g, n.w, xs, 0, n.b);
    RestIsDotTail(g, n.w, xs, 0);
    s
  }

  /** Node `o` of `h` is what calling `n` on `xs` builds: the chain of sums
      from the bias node over the weighted inputs, under a ReLU node when the
      neuron is nonlinear */
  ghost predicate NeuronOutput(h: Graph, n: Neuron, xs: seq<Operand>, o: nat) {
    && o < |h|
    && if n.nonlin then
         h[o].op.ReluOp? && SumChain(h, n.w, xs, 0, Min(|n.w|, |xs|), n.b, h[o].op.a)
       else
         SumChain(h, n.w, xs, 0, Min(|n.w|, |xs|), n.b, o)
  }

  lemma NeuronOutputKept(big: Graph, small: Graph, n: Neuron, xs: seq<Operand>, o: nat)
    requires Extends(big, small) && NeuronOutput(small, n, xs, o)
    ensures NeuronOutput(big, n, xs, o)
  {
    Kept(big, small, o);
    var top := if n.nonlin then small[o].op.a else o;
    SumChainKept(big, small, n.w, xs, 0, Min(|n.w|, |xs|), n.b, top);
  }

  /** Everything a reachable chain of sums adds up is reachable too: its start
      node, the weights of its pairs, and the inputs that are nodes */
  lemma {:induction false} SumChainReaches(h: Graph, w: seq<nat>, xs: seq<Operand>, k: nat, m: nat, acc: nat, out: nat, root: nat)
    requires WellFormed(h) && root < |h| && k <= m <= |w| && m <= |xs|
    requires SumChain(h, w, xs, k, m, acc, out) && out in Topo.Reach(h, root)
    ensures acc in Topo.Reach(h, root)
    ensures forall j :: k <= j < m ==> w[j] in Topo.Reach(h, root)
    ensures forall j :: k <= j < m && xs[j].Ref? ==> xs[j].index in Topo.Reach(h, root)
    decreases m - k
  {
    if m > k {
      var a, p := h[out].op.a, h[out].op.b;
      Topo.ReachClosed(h, root, out, a);
      Topo.ReachClosed(h, root, out, p);
      Topo.ReachClosed(h, root, p, w[m - 1]);
      if xs[m - 1].Ref? {
        Topo.ReachClosed(h, root, p, xs[m - 1].index);
      }
      SumChainReaches(h, w, xs, k, m - 1, acc, a, root);
    }
  }

  /** `backward` from a neuron's output reaches its bias, every weight the sum
      used, and every input node, so gradients flow back to all of them */
  lemma NeuronOutputReaches(h: Graph, n: Neuron, xs: seq<Operand>, o: nat)
    requires WellFormed(h) && NeuronOutput(h, n, xs, o)
    ensures n.b in Topo.Reach(h, o)
    ensures forall j :: 0 <= j < Min(|n.w|, |xs|) ==> n.w[j] in Topo.Reach(h, o)
    ensures forall j :: 0 <= j < Min(|n.w|, |xs|) && xs[j].Ref? ==> xs[j].index in Topo.Reach(h, o)
  {
    var top := o;
    if n.nonlin {
      top := h[o].op.a;
      Topo.ReachClosed(h, o, o, top);
    }
    SumChainReaches(h, n.w, xs, 0, Min(|n.w|, |xs|), n.b, top, o);
  }

  /** `act.relu()`: a ReLU node over the chain of sums, holding the neuron's value */
  lemma ReluOverAffine(g: Graph, n: Neuron, xs: seq<Operand>)
    requires WellFormed(g) && NeuronIn(n, |g|) && OperandsIn(g, xs) && n.nonlin
    ensures var s := Affine(g, n, xs);
            var a := Relu(s.graph, s.item);
            && Extends(a.graph, g) && FreshGrads(a.graph, g)
            && a.graph[a.out].data == EvalNeuron(g, n, Values(g, xs))
            && a.graph[a.out].op.ReluOp?
            && SumChain(a.graph, n.w, xs, 0, Min(|n.w|, |xs|), n.b, a.graph[a.out].op.a)
            && NeuronOutput(a.graph, n, xs, a.out)
  {
    var s := Affine(g, n, xs);
    ReluOverChain(g, n, xs, s, Relu(s.graph, s.item));
  }

  /** A ReLU node appended over a chain of sums keeps the chain below it */
  lemma ReluOverChain(g: Graph, n: Neuron, xs: seq<Operand>, s: Made<nat>, a: Built)
    requires WellFormed(s.graph) && s.item < |s.graph| && n.nonlin
    requires Extends(s.graph, g) && FreshGrads(s.graph, g)
    requires SumChain(s.graph, n.w, xs, 0, Min(|n.w|, |xs|), n.b, s.item)
    requires a == Relu(s.graph, s.item)
    ensures Extends(a.graph, g) && FreshGrads(a.graph, g)
    ensures a.graph[a.out].data == Activate(true, s.graph[s.item].data)
    ensures a.graph[a.out].op.ReluOp?
    ensures SumChain(a.graph, n.w, xs, 0, Min(|n.w|, |xs|), n.b, a.graph[a.out].op.a)
    ensures NeuronOutput(a.graph, n, xs, a.out)
  {
    ExtendsTrans(a.graph, s.graph, g);
    SumChainKept(a.graph, s.graph, n.w, xs, 0, Min(|n.w|, |xs|), n.b, s.item);
    FreshTrans(a.graph, s.graph, g);
  }

  /** Calling a neuron: the activation, passed through `relu` when the neuron
      is nonlinear */
  function NeuronCall(g: Graph, n: Neuron, x: Signal<Operand>): (r: Result<Made<nat>, NnError>)
    requires WellFormed(g) && NeuronIn(n, |g|) && SignalIn(g, x)
    ensures r.Failure? <==> x.One?
    ensures r.Failure? ==> r.error == NotIterable
    ensures r.Success? ==>
              && WellFormed(r.value.graph) && Extends(r.value.graph, g)
              && r.value.item < |r.value.graph|
              && r.value.graph[r.value.item].data == EvalNeuron(g, n, Values(g, x.xs))
    ensures r.Success? && n.nonlin ==>
              && r.value.graph[r.value.item].op.ReluOp?
              && SumChain(r.value.graph, n.w, x.xs, 0, Min(|n.w|, |x.xs|), n.b, r.value.graph[r.value.item].op.a)
    ensures r.Success? && !n.nonlin ==> SumChain(r.value.graph, n.w, x.xs, 0, Min(|n.w|, |x.xs|), n.b, r.value.item)
    ensures r.Success? && !n.nonlin && Min(|n.w|, |x.xs|) == 0 ==> r.value == Made(g, n.b)
    ensures r.Success? ==> NeuronOutput(r.value.graph, n, x.xs, r.value.item) && FreshGrads(r.value.graph, g)
  {
    match x
    case One(_) => Failure(NotIterable)
    case Many(xs) =>
      var s := Affine(g, n, xs);
      if n.nonlin then
        var a := Relu(s.graph, s.item);
        ReluOverAffine(g, n, xs);
        Success(Made(a.graph, a.out))
      else
        Success(s)
  }

  /** Calls every neuron on the same input, one after the other, and lists
      their outputs in order */
  function CallEach(g: Graph, ns: seq<Neuron>, x: Signal<Operand>): (r: Result<Made<seq<nat>>, NnError>)
    requires WellFormed(g) && (forall j :: 0 <= j < |ns| ==> NeuronIn(ns[j], |g|)) && SignalIn(g, x)
    ensures r.Failure? <==> |ns| > 0 && x.One?
    ensures r.Failure? ==> r.error == NotIterable
    ensures r.Success? ==>
              && WellFormed(r.value.graph) && Extends(r.value.graph, g)
              && |r.value.item| == |ns|
              && forall j :: 0 <= j < |ns| ==>
                   && x.Many? && r.value.item[j] < |r.value.graph|
                   && r.value.graph[r.value.item[j]].data == EvalNeuron(g, ns[j], Values(g, x.xs))
    ensures r.Success? ==>
              && FreshGrads(r.value.graph, g)
              && forall j :: 0 <= j < |ns| ==> x.Many? && NeuronOutput(r.value.graph, ns[j], x.xs, r.value.item[j])
    decreases |ns|
  {
    if |ns| == 0 then Success(Made(g, []))
    else if x.One? then Failure(NotIterable)
    else
      var o := NeuronCall(g, ns[0], x).value;
      var vs := Values(g, x.xs);
      NeuronsKept(o.graph, g, ns, vs);
      SignalKept(o.graph, g, x);
      var rest := CallEach(o.graph, ns[1..], x).value;
      CallEachJoin(g, ns, vs, o, rest);
      CallEachOutputs(g, ns, x.xs, o, rest);
      Success(Made(rest.graph, [o.item] + rest.item))
  }

  /** The first neuron's output node followed by the others', each still built
      as that neuron's call */
  lemma {:induction false} CallEachOutputs(g: Graph, ns: seq<Neuron>, xs: seq<Operand>, o: Made<nat>, rest: Made<seq<nat>>)
    requires |ns| > 0 && Extends(o.graph, g) && Extends(rest.graph, o.graph)
    requires NeuronOutput(o.graph, ns[0], xs, o.item) && FreshGrads(o.graph, g)
    requires |rest.item| == |ns| - 1 && FreshGrads(rest.graph, o.graph)
    requires forall j :: 0 <= j < |ns| - 1 ==> NeuronOutput(rest.graph, ns[1..][j], xs, rest.item[j])
    ensures FreshGrads(rest.graph, g)
    ensures forall j :: 0 <= j < |ns| ==> NeuronOutput(rest.graph, ns[j], xs, ([o.item] + rest.item)[j])
  {
    FreshTrans(rest.graph, o.graph, g);
    NeuronOutputKept(rest.graph, o.graph, ns[0], xs, o.item);
    forall j | 0 <= j < |ns|
      ensures NeuronOutput(rest.graph, ns[j], xs, ([o.item] + rest.item)[j])
    {
      if j > 0 {
        assert ns[1..][j - 1] == ns[j];
      }
    }
  }

  /** The first neuron's output followed by the others' */
  lemma {:induction false} CallEachJoin(g: Graph, ns: seq<Neuron>, vs: seq<real>, o: Made<nat>, rest: Made<seq<nat>>)
    requires |ns| > 0 && forall j :: 0 <= j < |ns| ==> NeuronIn(ns[j], |g|)
    requires Extends(o.graph, g) && o.item < |o.graph|
    requires o.graph[o.item].data == EvalNeuron(g, ns[0], vs)
    requires forall j :: 0 <= j < |ns| ==>
               NeuronIn(ns[j], |o.graph|) && EvalNeuron(o.graph, ns[j], vs) == EvalNeuron(g, ns[j], vs)
    requires Extends(rest.graph, o.graph) && |rest.item| == |ns| - 1
    requires forall j :: 0 <= j < |ns| - 1 ==>
               rest.item[j] < |rest.graph| && rest.graph[rest.item[j]].data == EvalNeuron(o.graph, ns[1..][j], vs)
    ensures Extends(rest.graph, g)
    ensures forall j :: 0 <= j < |ns| ==>
              ([o.item] + rest.item)[j] < |rest.graph|
              && rest.graph[([o.item] + rest.item)[j]].data == EvalNeuron(g, ns[j], vs)
  {
    ExtendsTrans(rest.graph, o.graph, g);
    Kept(rest.graph, o.graph, o.item);
    forall j | 0 <= j < |ns|
      ensures ([o.item] + rest.item)[j] < |rest.graph|
      ensures rest.graph[([o.item] + rest.item)[j]].data == EvalNeuron(g, ns[j], vs)
    {
      if j > 0 {
        assert ns[1..][j - 1] == ns[j];
      }
    }
  }

  function Refs(os: seq<nat>): (r: seq<Operand>)
    ensures |r| == |os| && forall k :: 0 <= k < |os| ==> r[k] == Ref(os[k])
  {
    seq(|os|, k requires 0 <= k < |os| => Ref(os[k]))
  }

  /** `y` is what calling layer `l` on `x` builds in `h`: the output node of
      each neuron's call, in order, the lone one unwrapped */
  ghost predicate LayerOutput(h: Graph, l: Layer, x: Signal<Operand>, y: Signal<Operand>) {
    if |l.neurons| == 0 then y == Many([])
    else
      && x.Many?
      && match y
         case One(o) =>
           |l.neurons| == 1 && o.Ref? && NeuronOutput(h, l.neurons[0], x.xs, o.index)
         case Many(ys) =>
           && |l.neurons| != 1 && |ys| == |l.neurons|
           && forall j :: 0 <= j < |ys| ==> ys[j].Ref? && NeuronOutput(h, l.neurons[j], x.xs, ys[j].index)
  }

  lemma LayerOutputKept(big: Graph, small: Graph, l: Layer, x: Signal<Operand>, y: Signal<Operand>)
    requires Extends(big, small) && LayerOutput(small, l, x, y)
    ensures LayerOutput(big, l, x, y)
  {
    if |l.neurons| > 0 {
      match y
      case One(o) =>
        NeuronOutputKept(big, small, l.neurons[0], x.xs, o.index);
      case Many(ys) =>
        forall j | 0 <= j < |ys|
          ensures NeuronOutput(big, l.neurons[j], x.xs, ys[j].index)
        {
          NeuronOutputKept(big, small, l.neurons[j], x.xs, ys[j].index);
        }
    }
  }

  /** Collecting the neurons' output nodes gives the layer's output */
  lemma CollectOutputs(h: Graph, l: Layer, x: Signal<Operand>, os: seq<nat>)
    requires |os| == |l.neurons| && (|os| > 0 ==> x.Many?)
    requires forall j :: 0 <= j < |os| ==> x.Many? && NeuronOutput(h, l.neurons[j], x.xs, os[j])
    ensures LayerOutput(h, l, x, Collect(os))
  {
  }

  /** `l(x)`: the outputs of all neurons, the lone output unwrapped when the
      layer has exactly one neuron */
  function LayerCall(g: Graph, l: Layer, x: Signal<Operand>): (r: Result<Made<Signal<Operand>>, NnError>)
    requires WellFormed(g) && LayerIn(l, |g|) && SignalIn(g, x)
    ensures r.Failure? <==> EvalLayer(g, l, SignalData(g, x)).Failure?
    ensures r.Failure? ==> r.error == NotIterable
    ensures r.Success? ==>
              && WellFormed(r.value.graph) && Extends(r.value.graph, g)
              && SignalIn(r.value.graph, r.value.item)
              && SignalData(r.value.graph, r.value.item) == EvalLayer(g, l, SignalData(g, x)).value
    ensures r.Success? ==> FreshGrads(r.value.graph, g) && LayerOutput(r.value.graph, l, x, r.value.item)
  {
    var outs :- CallEach(g, l.neurons, x);
    LayerOutputs(g, outs.graph, l, x, outs.item);
    CollectOutputs(outs.graph, l, x, outs.item);
    Success(Made(outs.graph, Collect(outs.item)))
  }

  /** A layer's outputs as a signal: the lone output itself, otherwise the list */
  function Collect(os: seq<nat>): Signal<Operand> {
    if |os| == 1 then One(Ref(os[0])) else Many(Refs(os))
  }

  /** The collected output nodes carry what the layer computes on plain numbers */
  lemma LayerOutputs(g: Graph, h: Graph, l: Layer, x: Signal<Operand>, os: seq<nat>)
    requires LayerIn(l, |g|) && SignalIn(g, x)
    requires |os| == |l.neurons| && (|os| > 0 ==> x.Many?)
    requires forall j :: 0 <= j < |os| ==>
               x.Many? && os[j] < |h| && h[os[j]].data == EvalNeuron(g, l.neurons[j], Values(g, x.xs))
    ensures EvalLayer(g, l, SignalData(g, x)).Success?
    ensures SignalIn(h, Collect(os)) && SignalData(h, Collect(os)) == EvalLayer(g, l, SignalData(g, x)).value
  {
    if |os| > 0 {
      var vs := Values(g, x.xs);
      var ys := seq(|l.neurons|, j requires 0 <= j < |l.neurons| => EvalNeuron(g, l.neurons[j], vs));
      assert SignalData(g, x) == Many(vs);
      assert EvalLayer(g, l, SignalData(g, x)) == Success(if |ys| == 1 then One(ys[0]) else Many(ys));
      if |os| != 1 {
        assert Values(h, Refs(os)) == ys;
      }
    }
  }

  /** `y` is what calling the layers `ls` on `x` builds in `h`: some signal
      `mid` is the first layer's output on `x`, and the rest of the layers
      lead from `mid` to `y` */
  ghost predicate MlpOutput(h: Graph, ls: seq<Layer>, x: Signal<Operand>, y: Signal<Operand>)
    decreases |ls|
  {
    if |ls| == 0 then y == x
    else exists mid :: LayerOutput(h, ls[0], x, mid) && MlpOutput(h, ls[1..], mid, y)
  }

  lemma {:induction false} MlpOutputKept(big: Graph, small: Graph, ls: seq<Layer>, x: Signal<Operand>, y: Signal<Operand>)
    requires Extends(big, small) && MlpOutput(small, ls, x, y)
    ensures MlpOutput(big, ls, x, y)
    decreases |ls|
  {
    if |ls| > 0 {
      var mid :| LayerOutput(small, ls[0], x, mid) && MlpOutput(small, ls[1..], mid, y);
      LayerOutputKept(big, small, ls[0], x, mid);
      MlpOutputKept(big, small, ls[1..], mid, y);
    }
  }

  /** The first layer's output followed by the rest of the layers' */
  lemma MlpOutputJoin(h: Graph, m: Graph, ls: seq<Layer>, x: Signal<Operand>, mid: Signal<Operand>, y: Signal<Operand>)
    requires |ls| > 0 && Extends(h, m) && LayerOutput(m, ls[0], x, mid)
    requires MlpOutput(h, ls[1..], mid, y)
    ensures MlpOutput(h, ls, x, y)
  {
    LayerOutputKept(h, m, ls[0], x, mid);
  }

  /** Calling an MLP: each layer is applied to what the previous one returned */
  function MlpCall(g: Graph, ls: seq<Layer>, x: Signal<Operand>): (r: Result<Made<Signal<Operand>>, NnError>)
    requires WellFormed(g) && LayersIn(ls, |g|) && SignalIn(g, x)
    ensures r.Failure? <==> EvalMlp(g, ls, SignalData(g, x)).Failure?
    ensures r.Failure? ==> r.error == NotIterable
    ensures r.Success? ==>
              && WellFormed(r.value.graph) && Extends(r.value.graph, g)
              && SignalIn(r.value.graph, r.value.item)
              && SignalData(r.value.graph, r.value.item) == EvalMlp(g, ls, SignalData(g, x)).value
    ensures r.Success? ==> FreshGrads(r.value.graph, g) && MlpOutput(r.value.graph, ls, x, r.value.item)
    decreases |ls|
  {
    if |ls| == 0 then Success(Made(g, x))
    else
      var y :- LayerCall(g, ls[0], x);
      EvalMlpKept(y.graph, g, ls[1..], SignalData(y.graph, y.item));
      var r := MlpCall(y.graph, ls[1..], y.item);
      if r.Success? then
        ExtendsTrans(r.value.graph, y.graph, g);
        FreshTrans(r.value.graph, y.graph, g);
        MlpOutputJoin(r.value.graph, y.graph, ls, x, y.item, r.value.item);
        r
      else
        r
  }

  lemma LayersInMono(ls: seq<Layer>, small: nat, big: nat)
    requires LayersIn(ls, small) && small <= big
    ensures LayersIn(ls, big)
  {
  }

  /** Calling a stack of layers is calling its first part, then the rest on
      what the first part returned; a failure in the first part ends the call */
  lemma {:induction false} MlpCallAppend(g: Graph, a: seq<Layer>, b: seq<Layer>, x: Signal<Operand>)
    requires WellFormed(g) && LayersIn(a + b, |g|) && SignalIn(g, x)
    ensures LayersIn(a, |g|) && LayersIn(b, |g|)
    ensures MlpCall(g, a, x).Failure? ==> MlpCall(g, a + b, x) == MlpCall(g, a, x)
    ensures MlpCall(g, a, x).Success? ==>
              var m := MlpCall(g, a, x).value;
              LayersIn(b, |m.graph|) && MlpCall(g, a + b, x) == MlpCall(m.graph, b, m.item)
    decreases |a|
  {
    assert forall i :: 0 <= i < |a| ==> (a + b)[i] == a[i];
    assert forall i :: 0 <= i < |b| ==> (a + b)[|a| + i] == b[i];
    if |a| == 0 {
      assert a + b == b;
    } else {
      assert (a + b)[0] == a[0] && (a + b)[1..] == a[1..] + b;
      var y := LayerCall(g, a[0], x);
      if y.Success? {
        var h := y.value.graph;
        LayersInMono(a[1..] + b, |g|, |h|);
        MlpCallAppend(h, a[1..], b, y.value.item);
        var r := MlpCall(h, a[1..], y.value.item);
        if r.Success? {
          LayersInMono(b, |h|, |r.value.graph|);
        }
      }
    }
  }

  /** The input of layer `i` is a bare value: `x` itself for the first layer,
      the output of a one-neuron layer after it */
  predicate BareInput(ls: seq<Layer>, bare: bool, i: nat)
    requires i < |ls|
  {
    if i == 0 then bare else |ls[i - 1].neurons| == 1
  }

  /** Some layer with neurons is fed a bare value */
  predicate FedBare(ls: seq<Layer>, bare: bool) {
    exists i :: 0 <= i < |ls| && |ls[i].neurons| > 0 && BareInput(ls, bare, i)
  }

  /** What one layer returns: a bare value exactly when it has one neuron,
      otherwise one output per neuron */
  lemma EvalLayerShape(g: Graph, l: Layer, x: Signal<real>)
    requires LayerIn(l, |g|)
    ensures EvalLayer(g, l, x).Failure? <==> |l.neurons| > 0 && x.One?
    ensures EvalLayer(g, l, x).Success? ==>
              var y := EvalLayer(g, l, x).value;
              (y.One? <==> |l.neurons| == 1) && (y.Many? ==> |y.xs| == |l.neurons|)
  {
  }

  /** A stack of layers fails exactly when a layer that has neurons is fed a
      bare value */
  lemma {:induction false} EvalMlpFails(g: Graph, ls: seq<Layer>, x: Signal<real>)
    requires LayersIn(ls, |g|)
    ensures EvalMlp(g, ls, x).Failure? <==> FedBare(ls, x.One?)
    decreases |ls|
  {
    if |ls| > 0 {
      EvalLayerShape(g, ls[0], x);
      var y := EvalLayer(g, ls[0], x);
      if y.Failure? {
        assert |ls[0].neurons| > 0 && BareInput(ls, x.One?, 0);
      } else {
        var tail := ls[1..];
        EvalMlpFails(g, tail, y.value);
        if FedBare(tail, y.value.One?) {
          var i :| 0 <= i < |tail| && |tail[i].neurons| > 0 && BareInput(tail, y.value.One?, i);
          assert |ls[i + 1].neurons| > 0 && BareInput(ls, x.One?, i + 1);
        }
        if FedBare(ls, x.One?) {
          var i :| 0 <= i < |ls| && |ls[i].neurons| > 0 && BareInput(ls, x.One?, i);
          assert i > 0;
          assert |tail[i - 1].neurons| > 0 && BareInput(tail, y.value.One?, i - 1);
        }
      }
    }
  }

  /** What a stack of layers returns: the shape of its last layer's output */
  lemma {:induction false} EvalMlpShape(g: Graph, ls: seq<Layer>, x: Signal<real>)
    requires LayersIn(ls, |g|) && |ls| > 0
    ensures EvalMlp(g, ls, x).Success? ==>
              var y := EvalMlp(g, ls, x).value;
              var last := ls[|ls| - 1].neurons;
              (y.One? <==> |last| == 1) && (y.Many? ==> |y.xs| == |last|)
    decreases |ls|
  {
    EvalLayerShape(g, ls[0], x);
    var y := EvalLayer(g, ls[0], x);
    if y.Success? && |ls| > 1 {
      EvalMlpShape(g, ls[1..], y.value);
    }
  }

  /** An MLP of the shape `MLP(nin, nouts)` builds, called on a list of
      inputs, fails exactly when a hidden layer of one neuron feeds a layer
      that has neurons */
  lemma ShapedMlpCallFails(h: Graph, m: Mlp, nin: nat, nouts: seq<nat>, xs: seq<Operand>)
    requires WellFormed(h) && MlpShape(m, nin, nouts) && LayersIn(m.layers, |h|) && OperandsIn(h, xs)
    ensures MlpCall(h, m.layers, Many(xs)).Failure? <==>
              exists i :: 0 <= i < |nouts| - 1 && nouts[i] == 1 && nouts[i + 1] > 0
  {
    var ls := m.layers;
    EvalMlpFails(h, ls, SignalData(h, Many(xs)));
    if FedBare(ls, false) {
      var i :| 0 <= i < |ls| && |ls[i].neurons| > 0 && BareInput(ls, false, i);
      assert nouts[i - 1] == 1 && nouts[(i - 1) + 1] > 0;
    }
    if exists i :: 0 <= i < |nouts| - 1 && nouts[i] == 1 && nouts[i + 1] > 0 {
      var i :| 0 <= i < |nouts| - 1 && nouts[i] == 1 && nouts[i + 1] > 0;
      assert |ls[i + 1].neurons| > 0 && BareInput(ls, false, i + 1);
    }
  }
}
