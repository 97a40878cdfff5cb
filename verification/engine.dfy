/** The scalar autodiff graph of micrograd's `Value` class, as an arena.

    Every `Value` is a node of a `Graph` (a sequence of nodes) and is named by
    its index, which plays the part of Python object identity. A node only ever
    refers to operands built before it, so operand indices are strictly smaller
    than the node's own index and the graph is acyclic by construction. The
    closure `_backward` is replaced by the node's `Op`, which records the
    operation and its operand indices; `Fire` interprets it. */
module Engine {
  import opened Wrappers

  /** The operation a node was built by, with its operand indices */
  datatype Op =
    | Const                   // a leaf: no operands, no-op backward rule
    | AddOp(a: nat, b: nat)   // a + b
    | MulOp(a: nat, b: nat)   // a * b
    | PowOp(a: nat, k: int)   // a ** k, integer exponent only
    | ReluOp(a: nat)          // relu(a)

  /** One `Value`: forward result, accumulated gradient, and how it was built */
  datatype Node = Node(data: real, grad: real, op: Op)

  type Graph = seq<Node>

  /** A builder's result: the extended graph and the index of the new node */
  datatype Built = Built(graph: Graph, out: nat)

  /** The right operand of a binary operator: a node, or a raw Python number */
  datatype Operand = Ref(index: nat) | Num(x: real)

  /** The exponent given to `**`: an integer, or something that is not a number */
  datatype Exponent = IntPower(k: int) | NonNumeric

  datatype EngineError =
    | UnsupportedExponentType   // the assert in `__pow__`
    | ZeroDivision              // Python raises when 0 is raised to a negative power

  /** The operand set `set(_children)` of a node built by `op` */
  function OperandSet(op: Op): set<nat> {
    match op
    case Const => {}
    case AddOp(a, b) => {a, b}
    case MulOp(a, b) => {a, b}
    case PowOp(a, _) => {a}
    case ReluOp(a) => {a}
  }

  ghost predicate NoDup(s: seq<nat>) {
    forall p, q :: 0 <= p < q < |s| ==> s[p] != s[q]
  }

  /** The operands in the order `build_topo` visits them: the de-duplicated
      children, so that `a * a` has the single operand `a`. */
  function Operands(op: Op): (cs: seq<nat>)
    ensures forall c :: c in cs <==> c in OperandSet(op)
    ensures NoDup(cs)
    ensures |cs| <= 2
  {
    match op
    case Const => []
    case AddOp(a, b) => if a == b then [a] else [a, b]
    case MulOp(a, b) => if a == b then [a] else [a, b]
    case PowOp(a, _) => [a]
    case ReluOp(a) => [a]
  }

  /** Every operand of `op` was built before node `v` */
  predicate OperandsBelow(op: Op, v: nat) {
    match op
    case Const => true
    case AddOp(a, b) => a < v && b < v
    case MulOp(a, b) => a < v && b < v
    case PowOp(a, _) => a < v
    case ReluOp(a) => a < v
  }

  lemma OperandsBelowAll(op: Op, v: nat, c: nat)
    requires OperandsBelow(op, v) && c in OperandSet(op)
    ensures c < v
  {
  }

  /** Every node refers only to earlier nodes: the arena is acyclic */
  predicate WellFormed(g: Graph) {
    forall v :: 0 <= v < |g| ==> OperandsBelow(g[v].op, v)
  }

  /** `big` is `small` with nodes appended and nothing else changed */
  predicate Extends(big: Graph, small: Graph) {
    |small| <= |big| && forall i :: 0 <= i < |small| ==> big[i] == small[i]
  }

  /** Two graphs that differ at most in their gradients */
  ghost predicate SameValues(g: Graph, h: Graph) {
    |g| == |h| && forall i :: 0 <= i < |g| ==> g[i].data == h[i].data && g[i].op == h[i].op
  }

  predicate ValidOperand(g: Graph, x: Operand) {
    x.Ref? ==> x.index < |g|
  }

  function ValueOf(g: Graph, x: Operand): real
    requires ValidOperand(g, x)
  {
    match x
    case Ref(i) => g[i].data
    case Num(r) => r
  }

  // ---------------------------------------------------------------------
  // Integer powers on the reals

  function NatPow(x: real, n: nat): real {
    if n == 0 then 1.0 else x * NatPow(x, n - 1)
  }

  lemma {:induction false} NatPowNonZero(x: real, n: nat)
    requires x != 0.0
    ensures NatPow(x, n) != 0.0
  {
    if n > 0 {
      NatPowNonZero(x, n - 1);
    }
  }

  /** `x ** k` for an integer `k`; undefined (Python raises) for `0 ** -n` */
  function IntPow(x: real, k: int): (r: real)
    requires x != 0.0 || k >= 0
    ensures k >= 0 ==> r == NatPow(x, k)
    ensures k < 0 ==> r * NatPow(x, -k) == 1.0
  {
    if k >= 0 then NatPow(x, k)
    else
      NatPowNonZero(x, -k);
      1.0 / NatPow(x, -k)
  }

  lemma InverseOfNonZero(x: real)
    requires x != 0.0
    ensures IntPow(x, -1) == 1.0 / x
  {
    assert NatPow(x, 1) == x;
  }

  // ---------------------------------------------------------------------
  // Node construction (`Value.__init__`) and the primitive builders

  /** Appends a freshly constructed node: gradient 0, the given operation */
  function Push(g: Graph, data: real, op: Op): (r: Built)
    requires WellFormed(g) && OperandsBelow(op, |g|)
    ensures WellFormed(r.graph) && Extends(r.graph, g)
    ensures |r.graph| == |g| + 1 && r.out == |g|
    ensures r.graph[r.out] == Node(data, 0.0, op)
  {
    Built(g + [Node(data, 0.0, op)], |g|)
  }

  /** The node an operand stands for: a node is used as it is, while a plain
      number first gets a fresh constant node of its own */
  function Wrap(g: Graph, x: Operand): (r: Built)
    requires WellFormed(g) && ValidOperand(g, x)
    ensures WellFormed(r.graph) && Extends(r.graph, g)
    ensures r.out < |r.graph| && r.graph[r.out].data == ValueOf(g, x)
    ensures x.Ref? ==> r.graph == g && r.out == x.index
    ensures x.Num? ==> r.out == |g| && |r.graph| == |g| + 1
                       && r.graph[r.out] == Node(x.x, 0.0, Const)
  {
    match x
    case Ref(i) => Built(g, i)
    case Num(v) => Push(g, v, Const)
  }

  /** The index the right operand ends up at once wrapped */
  function WrappedIndex(g: Graph, x: Operand): nat {
    match x
    case Ref(i) => i
    case Num(_) => |g|
  }

  /** `a + other` */
  function Add(g: Graph, a: nat, other: Operand): (r: Built)
    requires WellFormed(g) && a < |g| && ValidOperand(g, other)
    ensures WellFormed(r.graph) && Extends(r.graph, g)
    ensures |r.graph| == |g| + (if other.Num? then 2 else 1) && r.out == |r.graph| - 1
    ensures other.Num? ==> r.graph[|g|] == Node(other.x, 0.0, Const)
    ensures r.graph[r.out] == Node(g[a].data + ValueOf(g, other), 0.0, AddOp(a, WrappedIndex(g, other)))
  {
    var w := Wrap(g, other);
    Push(w.graph, w.graph[a].data + w.graph[w.out].data, AddOp(a, w.out))
  }

  /** `a * other` */
  function Mul(g: Graph, a: nat, other: Operand): (r: Built)
    requires WellFormed(g) && a < |g| && ValidOperand(g, other)
    ensures WellFormed(r.graph) && Extends(r.graph, g)
    ensures |r.graph| == |g| + (if other.Num? then 2 else 1) && r.out == |r.graph| - 1
    ensures other.Num? ==> r.graph[|g|] == Node(other.x, 0.0, Const)
    ensures r.graph[r.out] == Node(g[a].data * ValueOf(g, other), 0.0, MulOp(a, WrappedIndex(g, other)))
  {
    var w := Wrap(g, other);
    Push(w.graph, w.graph[a].data * w.graph[w.out].data, MulOp(a, w.out))
  }

  /** `a ** e`: rejects a non-numeric exponent, and fails like Python on `0 ** -n` */
  function Pow(g: Graph, a: nat, e: Exponent): (r: Result<Built, EngineError>)
    requires WellFormed(g) && a < |g|
    ensures e.NonNumeric? ==> r == Failure(UnsupportedExponentType)
    ensures e.IntPower? ==> (r.Failure? <==> g[a].data == 0.0 && e.k < 0)
    ensures r.Failure? ==> e.NonNumeric? || r.error == ZeroDivision
    ensures r.Success? ==>
              && WellFormed(r.value.graph) && Extends(r.value.graph, g)
              && |r.value.graph| == |g| + 1 && r.value.out == |g|
              && r.value.graph[|g|] == Node(IntPow(g[a].data, e.k), 0.0, PowOp(a, e.k))
  {
    match e
    case NonNumeric => Failure(UnsupportedExponentType)
    case IntPower(k) =>
      if g[a].data == 0.0 && k < 0 then Failure(ZeroDivision)
      else Success(Push(g, IntPow(g[a].data, k), PowOp(a, k)))
  }

  /** `a.relu()` */
  function Relu(g: Graph, a: nat): (r: Built)
    requires WellFormed(g) && a < |g|
    ensures WellFormed(r.graph) && Extends(r.graph, g)
    ensures |r.graph| == |g| + 1 && r.out == |g|
    ensures r.graph[r.out].op == ReluOp(a) && r.graph[r.out].grad == 0.0
    ensures r.graph[r.out].data >= 0.0
    ensures g[a].data < 0.0 ==> r.graph[r.out].data == 0.0
    ensures g[a].data >= 0.0 ==> r.graph[r.out].data == g[a].data
  {
    Push(g, if g[a].data < 0.0 then 0.0 else g[a].data, ReluOp(a))
  }

  // ---------------------------------------------------------------------
  // Derived operators, defined through the primitives as micrograd defines them

  /** `-a`, which micrograd writes as `a * -1` */
  function Neg(g: Graph, a: nat): (r: Built)
    requires WellFormed(g) && a < |g|
    ensures WellFormed(r.graph) && Extends(r.graph, g)
    ensures |r.graph| == |g| + 2 && r.out == |g| + 1
    ensures r.graph[|g|] == Node(-1.0, 0.0, Const)
    ensures r.graph[r.out] == Node(-g[a].data, 0.0, MulOp(a, |g|))
  {
    Mul(g, a, Num(-1.0))
  }

  /** `other + a` with `other` a raw number, which Python turns into `a + other` */
  function RAdd(g: Graph, a: nat, other: real): (r: Built)
    requires WellFormed(g) && a < |g|
    ensures WellFormed(r.graph) && Extends(r.graph, g)
    ensures |r.graph| == |g| + 2 && r.out == |g| + 1
    ensures r.graph[|g|] == Node(other, 0.0, Const)
    ensures r.graph[r.out] == Node(other + g[a].data, 0.0, AddOp(a, |g|))
  {
    Add(g, a, Num(other))
  }

  /** `other * a` with `other` a raw number, which Python turns into `a * other` */
  function RMul(g: Graph, a: nat, other: real): (r: Built)
    requires WellFormed(g) && a < |g|
    ensures WellFormed(r.graph) && Extends(r.graph, g)
    ensures |r.graph| == |g| + 2 && r.out == |g| + 1
    ensures r.graph[|g|] == Node(other, 0.0, Const)
    ensures r.graph[r.out] == Node(other * g[a].data, 0.0, MulOp(a, |g|))
  {
    Mul(g, a, Num(other))
  }

  /** `a - other`, written `a + (-other)`: a number is negated by Python before
      it is wrapped, a node goes through `Neg` */
  function Sub(g: Graph, a: nat, other: Operand): (r: Built)
    requires WellFormed(g) && a < |g| && ValidOperand(g, other)
    ensures WellFormed(r.graph) && Extends(r.graph, g)
    ensures r.out == |r.graph| - 1
    ensures r.graph[r.out].data == g[a].data - ValueOf(g, other)
    ensures r.graph[r.out].grad == 0.0
    ensures other.Num? ==> r.graph == g + [Node(-other.x, 0.0, Const), Node(g[a].data - other.x, 0.0, AddOp(a, |g|))]
    ensures other.Ref? ==>
              r.graph == g + [Node(-1.0, 0.0, Const),
                              Node(-g[other.index].data, 0.0, MulOp(other.index, |g|)),
                              Node(g[a].data - g[other.index].data, 0.0, AddOp(a, |g| + 1))]
  {
    match other
    case Num(x) => Add(g, a, Num(-x))
    case Ref(b) =>
      var n := Neg(g, b);
      Add(n.graph, a, Ref(n.out))
  }

  /** `other - a` with `other` a raw number: `other + (-a)`, which Python
      evaluates as `(-a).__radd__(other)`, that is `(-a) + other` */
  function RSub(g: Graph, a: nat, other: real): (r: Built)
    requires WellFormed(g) && a < |g|
    ensures WellFormed(r.graph) && Extends(r.graph, g)
    ensures r.out == |g| + 3
    ensures r.graph == g + [Node(-1.0, 0.0, Const),
                            Node(-g[a].data, 0.0, MulOp(a, |g|)),
                            Node(other, 0.0, Const),
                            Node(other - g[a].data, 0.0, AddOp(|g| + 1, |g| + 2))]
  {
    var n := Neg(g, a);
    Add(n.graph, n.out, Num(other))
  }

  /** `a / other`, written `a * other ** -1`. For a raw number Python computes
      `other ** -1` itself, and raises on zero. */
  function Div(g: Graph, a: nat, other: Operand): (r: Result<Built, EngineError>)
    requires WellFormed(g) && a < |g| && ValidOperand(g, other)
    ensures r.Failure? <==> ValueOf(g, other) == 0.0
    ensures r.Failure? ==> r.error == ZeroDivision
    ensures r.Success? ==> WellFormed(r.value.graph) && Extends(r.value.graph, g) && r.value.out == |g| + 1
    ensures r.Success? && other.Num? ==>
              r.value.graph == g + [Node(1.0 / other.x, 0.0, Const),
                                    Node(g[a].data / other.x, 0.0, MulOp(a, |g|))]
    ensures r.Success? && other.Ref? ==>
              r.value.graph == g + [Node(1.0 / g[other.index].data, 0.0, PowOp(other.index, -1)),
                                    Node(g[a].data / g[other.index].data, 0.0, MulOp(a, |g|))]
  {
    if ValueOf(g, other) == 0.0 then Failure(ZeroDivision)
    else
      match other
      case Num(x) => Success(DivByNumber(g, a, x))
      case Ref(b) => Success(DivByNode(g, a, b))
  }

  /** `a / x` for a raw non-zero number `x`: a leaf holding `x ** -1`, then the product */
  function DivByNumber(g: Graph, a: nat, x: real): (r: Built)
    requires WellFormed(g) && a < |g| && x != 0.0
    ensures WellFormed(r.graph) && Extends(r.graph, g) && r.out == |g| + 1
    ensures r.graph == g + [Node(1.0 / x, 0.0, Const), Node(g[a].data / x, 0.0, MulOp(a, |g|))]
  {
    InverseOfNonZero(x);
    var m := Mul(g, a, Num(IntPow(x, -1)));
    assert g[a].data * (1.0 / x) == g[a].data / x;
    assert m.graph[|g|] == Node(1.0 / x, 0.0, Const);
    assert m.graph[|g| + 1] == Node(g[a].data / x, 0.0, MulOp(a, |g|));
    m
  }

  /** `a / b` for a node `b` holding a non-zero value: `b ** -1`, then the product */
  function DivByNode(g: Graph, a: nat, b: nat): (r: Built)
    requires WellFormed(g) && a < |g| && b < |g| && g[b].data != 0.0
    ensures WellFormed(r.graph) && Extends(r.graph, g) && r.out == |g| + 1
    ensures r.graph == g + [Node(1.0 / g[b].data, 0.0, PowOp(b, -1)),
                            Node(g[a].data / g[b].data, 0.0, MulOp(a, |g|))]
  {
    var p := Pow(g, b, IntPower(-1)).value;
    InverseOfNonZero(g[b].data);
    var m := Mul(p.graph, a, Ref(p.out));
    assert p.graph == g + [Node(1.0 / g[b].data, 0.0, PowOp(b, -1))];
    assert m.graph == p.graph + [m.graph[|g| + 1]];
    assert p.graph[a] == g[a];
    assert g[a].data * (1.0 / g[b].data) == g[a].data / g[b].data;
    assert m.graph[|g| + 1] == Node(g[a].data / g[b].data, 0.0, MulOp(a, |g|));
    m
  }

  /** `other / a` with `other` a raw number: `other * a ** -1`, which Python
      evaluates as `(a ** -1) * other` */
  function RDiv(g: Graph, a: nat, other: real): (r: Result<Built, EngineError>)
    requires WellFormed(g) && a < |g|
    ensures r.Failure? <==> g[a].data == 0.0
    ensures r.Failure? ==> r.error == ZeroDivision
    ensures r.Success? ==>
              && WellFormed(r.value.graph) && Extends(r.value.graph, g)
              && r.value.out == |g| + 2
              && r.value.graph == g + [Node(1.0 / g[a].data, 0.0, PowOp(a, -1)),
                                       Node(other, 0.0, Const),
                                       Node(other / g[a].data, 0.0, MulOp(|g|, |g| + 1))]
  {
    var p :- Pow(g, a, IntPower(-1));
    InverseOfNonZero(g[a].data);
    var m := Mul(p.graph, p.out, Num(other));
    assert p.graph == g + [Node(1.0 / g[a].data, 0.0, PowOp(a, -1))];
    assert m.graph == p.graph + [m.graph[|g| + 1], m.graph[|g| + 2]];
    assert (1.0 / g[a].data) * other == other / g[a].data;
    assert m.graph[|g| + 1] == Node(other, 0.0, Const);
    assert m.graph[|g| + 2] == Node(other / g[a].data, 0.0, MulOp(|g|, |g| + 1));
    Success(m)
  }

  // ---------------------------------------------------------------------
  // The local backward rules (`_backward`)

  /** Firing this node's rule would evaluate `0 ** (k - 1)` with `k - 1 < 0`,
      which raises in Python */
  predicate Singular(g: Graph, v: nat)
    requires WellFormed(g) && v < |g|
  {
    match g[v].op
    case PowOp(a, k) => g[a].data == 0.0 && k < 1
    case _ => false
  }

  /** The local partial derivative of node `v` with respect to node `i`,
      summed over every operand position that `i` fills */
  function Coef(g: Graph, v: nat, i: nat): (r: real)
    requires WellFormed(g) && v < |g| && !Singular(g, v)
    ensures i !in OperandSet(g[v].op) ==> r == 0.0
    ensures g[v].op.AddOp? ==> r == 0.0 || r == 1.0 || r == 2.0
    ensures g[v].op.ReluOp? ==> (r == 1.0 <==> i == g[v].op.a && g[v].data > 0.0) && (r == 0.0 || r == 1.0)
  {
    match g[v].op
    case Const => 0.0
    case AddOp(a, b) => (if i == a then 1.0 else 0.0) + (if i == b then 1.0 else 0.0)
    case MulOp(a, b) => (if i == a then g[b].data else 0.0) + (if i == b then g[a].data else 0.0)
    case PowOp(a, k) => if i == a then (k as real) * IntPow(g[a].data, k - 1) else 0.0
    case ReluOp(a) => if i == a && g[v].data > 0.0 then 1.0 else 0.0
  }

  /** The local derivative of each rule with respect to its own operands: the
      sum rule counts the positions `i` fills (2 exactly for `a + a`), the
      product rule takes the partner's value (twice the value for `a * a`),
      the power rule `k * x ** (k - 1)` */
  lemma CoefValues(g: Graph, v: nat, i: nat)
    requires WellFormed(g) && v < |g| && !Singular(g, v)
    ensures g[v].op.AddOp? ==> (Coef(g, v, i) == 2.0 <==> g[v].op == AddOp(i, i))
    ensures g[v].op.AddOp? && i in OperandSet(g[v].op) && g[v].op.a != g[v].op.b ==> Coef(g, v, i) == 1.0
    ensures g[v].op.MulOp? && g[v].op.a == i && g[v].op.b != i ==> Coef(g, v, i) == g[g[v].op.b].data
    ensures g[v].op.MulOp? && g[v].op.b == i && g[v].op.a != i ==> Coef(g, v, i) == g[g[v].op.a].data
    ensures g[v].op == MulOp(i, i) ==> Coef(g, v, i) == 2.0 * g[i].data
    ensures g[v].op.PowOp? && g[v].op.a == i ==>
              Coef(g, v, i) == (g[v].op.k as real) * IntPow(g[i].data, g[v].op.k - 1)
  {
  }

  lemma CoefOnlyOnOperands(g: Graph, v: nat, i: nat)
    requires WellFormed(g) && v < |g| && !Singular(g, v)
    requires i !in OperandSet(g[v].op)
    ensures Coef(g, v, i) == 0.0
  {
  }

  /** Adds `delta` to the gradient of node `i`, leaving everything else alone */
  function AddGrad(g: Graph, i: nat, delta: real): (r: Graph)
    requires i < |g|
    ensures SameValues(r, g)
    ensures forall j :: 0 <= j < |g| ==> r[j].grad == g[j].grad + (if j == i then delta else 0.0)
  {
    g[i := g[i].(grad := g[i].grad + delta)]
  }

  lemma SameValuesWellFormed(g: Graph, h: Graph)
    requires SameValues(g, h) && WellFormed(h)
    ensures WellFormed(g)
  {
    forall v | 0 <= v < |g|
      ensures OperandsBelow(g[v].op, v)
    {
      assert g[v].op == h[v].op;
    }
  }

  /** The sum rule: the output gradient once per operand position */
  lemma AddRuleEffect(g: Graph, v: nat, g2: Graph)
    requires WellFormed(g) && v < |g| && g[v].op.AddOp?
    requires g2 == AddGrad(AddGrad(g, g[v].op.a, g[v].grad), g[v].op.b, g[v].grad)
    ensures forall i :: 0 <= i < |g| ==> g2[i].grad == g[i].grad + Coef(g, v, i) * g[v].grad
  {
    var a, b, d := g[v].op.a, g[v].op.b, g[v].grad;
    forall i | 0 <= i < |g|
      ensures g2[i].grad == g[i].grad + Coef(g, v, i) * d
    {
      var ca, cb := if i == a then 1.0 else 0.0, if i == b then 1.0 else 0.0;
      assert Coef(g, v, i) == ca + cb;
      assert (ca + cb) * d == ca * d + cb * d;
    }
  }

  /** The product rule, with the second update reading `self.data` and
      `out.grad` after the first update, as micrograd does */
  lemma MulRuleEffect(g: Graph, v: nat, a: nat, b: nat, g1: Graph, g2: Graph)
    requires WellFormed(g) && v < |g| && g[v].op == MulOp(a, b)
    requires g1 == AddGrad(g, a, g[b].data * g[v].grad)
    requires g2 == AddGrad(g1, b, g1[a].data * g1[v].grad)
    ensures forall i :: 0 <= i < |g| ==> g2[i].grad == g[i].grad + Coef(g, v, i) * g[v].grad
  {
    assert OperandsBelow(g[v].op, v);
    assert g1[a].data == g[a].data && g1[v].grad == g[v].grad;
    forall i | 0 <= i < |g|
      ensures g2[i].grad == g[i].grad + Coef(g, v, i) * g[v].grad
    {
      MulRuleAt(g[i].grad, g1[i].grad, g2[i].grad, g[a].data, g[b].data, g[v].grad, i == a, i == b);
    }
  }

  /** The product rule's two updates, seen from one node that is the left
      operand when `isA` and the right one when `isB` */
  lemma MulRuleAt(before: real, mid: real, after: real, x: real, y: real, d: real, isA: bool, isB: bool)
    requires mid == before + (if isA then y * d else 0.0)
    requires after == mid + (if isB then x * d else 0.0)
    ensures after == before + ((if isA then y else 0.0) + (if isB then x else 0.0)) * d
  {
    if isA && isB {
      assert (y + x) * d == y * d + x * d;
    }
  }

  /** The power rule: `k * data ** (k - 1)` times the output gradient */
  lemma PowRuleEffect(g: Graph, v: nat, a: nat, k: int, g1: Graph)
    requires WellFormed(g) && v < |g| && g[v].op == PowOp(a, k) && !Singular(g, v)
    requires g1 == AddGrad(g, a, ((k as real) * IntPow(g[a].data, k - 1)) * g[v].grad)
    ensures forall i :: 0 <= i < |g| ==> g1[i].grad == g[i].grad + Coef(g, v, i) * g[v].grad
  {
  }

  /** The ReLU rule: the output gradient when the output is positive, else nothing */
  lemma ReluRuleEffect(g: Graph, v: nat, a: nat, g1: Graph)
    requires WellFormed(g) && v < |g| && g[v].op == ReluOp(a)
    requires g1 == AddGrad(g, a, (if g[v].data > 0.0 then 1.0 else 0.0) * g[v].grad)
    ensures forall i :: 0 <= i < |g| ==> g1[i].grad == g[i].grad + Coef(g, v, i) * g[v].grad
  {
  }

  /** Calls node `v`'s `_backward`: adds its local derivative times `v`'s
      current gradient to each operand, one statement after the other */
  function Fire(g: Graph, v: nat): (r: Result<Graph, EngineError>)
    requires WellFormed(g) && v < |g|
    ensures r.Failure? <==> Singular(g, v)
    ensures r.Failure? ==> r.error == ZeroDivision
    ensures r.Success? ==> SameValues(r.value, g) && WellFormed(r.value)
    ensures r.Success? ==> forall i :: 0 <= i < |g| ==>
              r.value[i].grad == g[i].grad + Coef(g, v, i) * g[v].grad
  {
    match g[v].op
    case Const => Success(g)
    case AddOp(a, b) =>
      var g1 := AddGrad(g, a, g[v].grad);
      var g2 := AddGrad(g1, b, g1[v].grad);
      SameValuesWellFormed(g2, g);
      AddRuleEffect(g, v, g2);
      Success(g2)
    case MulOp(a, b) =>
      var g1 := AddGrad(g, a, g[b].data * g[v].grad);
      var g2 := AddGrad(g1, b, g1[a].data * g1[v].grad);
      SameValuesWellFormed(g2, g);
      MulRuleEffect(g, v, a, b, g1, g2);
      Success(g2)
    case PowOp(a, k) =>
      if g[a].data == 0.0 && k - 1 < 0 then Failure(ZeroDivision)
      else
        var g1 := AddGrad(g, a, ((k as real) * IntPow(g[a].data, k - 1)) * g[v].grad);
        SameValuesWellFormed(g1, g);
        PowRuleEffect(g, v, a, k, g1);
        Success(g1)
    case ReluOp(a) =>
      var g1 := AddGrad(g, a, (if g[v].data > 0.0 then 1.0 else 0.0) * g[v].grad);
      SameValuesWellFormed(g1, g);
      ReluRuleEffect(g, v, a, g1);
      Success(g1)
  }

  /** Overwrites the gradient of node `i` with `x`, leaving everything else alone */
  function SetGrad(g: Graph, i: nat, x: real): (r: Graph)
    requires i < |g|
    ensures SameValues(r, g) && r[i].grad == x
    ensures forall j :: 0 <= j < |g| && j != i ==> r[j] == g[j]
  {
    g[i := g[i].(grad := x)]
  }
}
