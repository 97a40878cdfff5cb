/** `Value.backward`: seed the root's gradient with 1, then fire every
    reachable node's rule once, in reverse topological order.

    The result is characterised by `Adjoint`, which states the chain rule as
    an equation over the graph: a node's final gradient is its gradient before
    the call (1 for the root) plus, for every reachable consumer, the local
    derivative times that consumer's final gradient. */
module Gradients {
  import opened Wrappers
  import opened Engine
  import opened Topo

  function Reversed(s: seq<nat>): (r: seq<nat>)
    ensures IsReverse(r, s)
  {
    if |s| == 0 then [] else [s[|s| - 1]] + Reversed(s[..|s| - 1])
  }

  /** No node of `order` is an operand of a node that comes after it: when a
      node's rule fires, every consumer in `order` has already fired */
  ghost predicate ConsumersFirst(g: Graph, order: seq<nat>)
    requires forall p :: 0 <= p < |order| ==> order[p] < |g|
  {
    forall p, q :: 0 <= p < q < |order| ==> order[p] !in OperandSet(g[order[q]].op)
  }

  lemma LaterNotOperand(g: Graph, topo: seq<nat>, a: nat, b: nat)
    requires NoDup(topo) && OperandsFirst(g, topo) && b < a < |topo|
    ensures topo[a] !in OperandSet(g[topo[b]].op)
  {
  }

  /** `r` lists `s` back to front */
  ghost predicate IsReverse(r: seq<nat>, s: seq<nat>) {
    |r| == |s| && forall p :: 0 <= p < |s| ==> r[p] == s[|s| - 1 - p]
  }

  lemma ReversedElements(topo: seq<nat>, r: seq<nat>)
    requires IsReverse(r, topo)
    ensures forall x :: x in r <==> x in topo
  {
    forall x | x in topo
      ensures x in r
    {
      var p :| 0 <= p < |topo| && topo[p] == x;
      assert r[|topo| - 1 - p] == x;
    }
  }

  lemma ReversedNoDup(topo: seq<nat>, r: seq<nat>)
    requires IsReverse(r, topo) && NoDup(topo)
    ensures NoDup(r)
  {
    forall p, q | 0 <= p < q < |r|
      ensures r[p] != r[q]
    {
      assert r[p] == topo[|topo| - 1 - p] && r[q] == topo[|topo| - 1 - q];
    }
  }

  /** No node of `topo` is an operand of a node before it */
  ghost predicate NoLaterOperand(g: Graph, topo: seq<nat>)
    requires forall p :: 0 <= p < |topo| ==> topo[p] < |g|
  {
    forall a, b :: 0 <= b < a < |topo| ==> topo[a] !in OperandSet(g[topo[b]].op)
  }

  lemma TopoFacts(g: Graph, root: nat, topo: seq<nat>)
    requires WellFormed(g) && root < |g| && TopoOrderOf(g, root, topo)
    ensures forall p :: 0 <= p < |topo| ==> topo[p] <= root
    ensures NoLaterOperand(g, topo)
  {
    forall p | 0 <= p < |topo|
      ensures topo[p] <= root
    {
      assert topo[p] in topo;
    }
    forall a, b | 0 <= b < a < |topo|
      ensures topo[a] !in OperandSet(g[topo[b]].op)
    {
      LaterNotOperand(g, topo, a, b);
    }
  }

  lemma ReversedConsumersFirst(g: Graph, topo: seq<nat>, r: seq<nat>)
    requires IsReverse(r, topo)
    requires forall p :: 0 <= p < |topo| ==> topo[p] < |g|
    requires NoLaterOperand(g, topo)
    ensures forall p :: 0 <= p < |r| ==> r[p] < |g|
    ensures ConsumersFirst(g, r)
  {
    forall p, q | 0 <= p < q < |r|
      ensures r[p] !in OperandSet(g[r[q]].op)
    {
      var a, b := |topo| - 1 - p, |topo| - 1 - q;
      assert r[p] == topo[a] && r[q] == topo[b];
    }
  }

  /** `reversed(topo)`: the order in which `backward` fires the rules. Each
      reachable node occurs once, the root first, and every consumer of a node
      before the node itself. */
  function FiringOrder(g: Graph, root: nat): (r: seq<nat>)
    requires WellFormed(g) && root < |g|
    ensures NoDup(r)
    ensures forall x :: x in r <==> x in Reach(g, root)
    ensures |r| > 0 && r[0] == root
    ensures forall p :: 0 <= p < |r| ==> r[p] <= root
    ensures ConsumersFirst(g, r)
  {
    var topo := BuildTopo(g, root);
    var r := Reversed(topo);
    TopoFacts(g, root, topo);
    ReversedElements(topo, r);
    ReversedNoDup(topo, r);
    ReversedConsumersFirst(g, topo, r);
    r
  }

  function Elements(s: seq<nat>): set<nat> {
    set k | k in s
  }

  /** Runs the local rule of each node of `order` in turn, and stops at the
      first rule that raises */
  function FireAll(g: Graph, order: seq<nat>): (r: Result<Graph, EngineError>)
    requires WellFormed(g) && forall p :: 0 <= p < |order| ==> order[p] < |g|
    ensures r.Success? ==> SameValues(r.value, g) && WellFormed(r.value)
    decreases |order|
  {
    if |order| == 0 then Success(g)
    else
      var g1 :- Fire(g, order[0]);
      var r := FireAll(g1, order[1..]);
      r
  }

  /** No reachable node would raise when its rule fires */
  ghost predicate Regular(g: Graph, root: nat)
    requires WellFormed(g) && root < |g|
  {
    forall v :: v in Reach(g, root) ==> !Singular(g, v)
  }

  /** The gradient every node holds once `backward` from `root` has run: the
      root's is 1; any other node's is what it held before, plus each reachable
      consumer's local derivative times that consumer's own final gradient */
  function Adjoint(g: Graph, root: nat, i: nat): real
    requires WellFormed(g) && root < |g| && i < |g| && Regular(g, root)
    decreases |g| - i, 1
  {
    (if i == root then 1.0 else g[i].grad) + Inflow(g, root, Reach(g, root), i, i + 1)
  }

  /** The sum, over the nodes `k` of `s` with `j <= k`, of the contribution
      node `k`'s rule makes to node `i` */
  function Inflow(g: Graph, root: nat, s: set<nat>, i: nat, j: nat): real
    requires WellFormed(g) && root < |g| && Regular(g, root)
    requires s <= Reach(g, root) && j <= |g|
    decreases |g| - j + 1, 0
  {
    if j == |g| then 0.0
    else Contribution(g, root, s, i, j) + Inflow(g, root, s, i, j + 1)
  }

  /** What node `j`'s rule passes to node `i`, when `j` belongs to `s` */
  function Contribution(g: Graph, root: nat, s: set<nat>, i: nat, j: nat): real
    requires WellFormed(g) && root < |g| && Regular(g, root)
    requires s <= Reach(g, root) && j < |g|
    decreases |g| - j, 2
  {
    if j in s then Coef(g, j, i) * Adjoint(g, root, j) else 0.0
  }

  /** The gradients right after `self.grad = 1` */
  function Seeded(g: Graph, root: nat, i: nat): real
    requires i < |g|
  {
    if i == root then 1.0 else g[i].grad
  }

  /** `Value.backward` on the node `root` */
  function Backward(g: Graph, root: nat): (r: Result<Graph, EngineError>)
    requires WellFormed(g) && root < |g|
    ensures r.Success? <==> Regular(g, root)
    ensures r.Failure? ==> r.error == ZeroDivision
    ensures r.Success? ==> SameValues(r.value, g)
    ensures r.Success? ==> forall i :: 0 <= i < |g| ==> r.value[i].grad == Adjoint(g, root, i)
  {
    var order := FiringOrder(g, root);
    var seeded := SetGrad(g, root, 1.0);
    SameValuesWellFormed(seeded, g);
    FireAllOutcome(g, root, seeded);
    FireAll(seeded, order)
  }

  /** The root ends with gradient 1: nothing reachable from it consumes it */
  lemma BackwardSeedsRoot(g: Graph, root: nat)
    requires WellFormed(g) && root < |g|
    ensures var r := Backward(g, root); r.Success? ==> r.value[root].grad == 1.0
  {
    if Regular(g, root) {
      InflowNone(g, root, Reach(g, root), root, root + 1);
    }
  }

  /** A node not reachable from the root keeps the gradient it had */
  lemma BackwardLeavesUnreachable(g: Graph, root: nat, i: nat)
    requires WellFormed(g) && root < |g| && i < |g| && i !in Reach(g, root)
    ensures var r := Backward(g, root); r.Success? ==> r.value[i] == g[i]
  {
    if Regular(g, root) {
      UnreachableAdjoint(g, root, i);
    }
  }

  /** No reachable node consumes an unreachable one, so nothing flows into it */
  lemma {:induction false} UnreachableAdjoint(g: Graph, root: nat, i: nat)
    requires WellFormed(g) && root < |g| && i < |g| && i !in Reach(g, root)
    requires Regular(g, root)
    ensures Adjoint(g, root, i) == g[i].grad
  {
    forall k | i + 1 <= k < |g| && i in OperandSet(g[k].op)
      ensures k in Reach(g, root) <==> k in {}
    {
      if k in Reach(g, root) {
        ReachClosed(g, root, k, i);
      }
    }
    InflowAgree(g, root, Reach(g, root), {}, i, i + 1);
    InflowNone(g, root, {}, i, i + 1);
  }

  // ---------------------------------------------------------------------
  // Sums of contributions

  lemma {:induction false} InflowNone(g: Graph, root: nat, s: set<nat>, i: nat, j: nat)
    requires WellFormed(g) && root < |g| && Regular(g, root)
    requires s <= Reach(g, root) && j <= |g|
    requires forall k :: k in s ==> k < j
    ensures Inflow(g, root, s, i, j) == 0.0
    decreases |g| - j
  {
    if j < |g| {
      InflowNone(g, root, s, i, j + 1);
    }
  }

  lemma {:induction false} InflowInsert(g: Graph, root: nat, s: set<nat>, v: nat, i: nat, j: nat)
    requires WellFormed(g) && root < |g| && Regular(g, root)
    requires s + {v} <= Reach(g, root) && v !in s && j <= |g|
    ensures v < |g|
    ensures Inflow(g, root, s + {v}, i, j)
            == Inflow(g, root, s, i, j) + (if j <= v then Coef(g, v, i) * Adjoint(g, root, v) else 0.0)
    decreases |g| - j
  {
    assert v in Reach(g, root);
    if j < |g| {
      InflowInsert(g, root, s, v, i, j + 1);
      if j == v {
        assert Contribution(g, root, s, i, j) == 0.0;
        assert Contribution(g, root, s + {v}, i, j) == Coef(g, v, i) * Adjoint(g, root, v);
      } else {
        assert Contribution(g, root, s + {v}, i, j) == Contribution(g, root, s, i, j);
      }
    }
  }

  /** Only consumers of `i` contribute, so two sets that agree on them give
      the same sum */
  lemma {:induction false} InflowAgree(g: Graph, root: nat, s1: set<nat>, s2: set<nat>, i: nat, j: nat)
    requires WellFormed(g) && root < |g| && Regular(g, root)
    requires s1 <= Reach(g, root) && s2 <= Reach(g, root) && j <= |g|
    requires forall k :: j <= k < |g| && i in OperandSet(g[k].op) ==> (k in s1 <==> k in s2)
    ensures Inflow(g, root, s1, i, j) == Inflow(g, root, s2, i, j)
    decreases |g| - j
  {
    if j < |g| {
      InflowAgree(g, root, s1, s2, i, j + 1);
      if i !in OperandSet(g[j].op) {
        if j in s1 { CoefOnlyOnOperands(g, j, i); }
        if j in s2 { CoefOnlyOnOperands(g, j, i); }
      }
    }
  }

  /** Nodes up to `i` cannot consume `i` */
  lemma {:induction false} InflowFromAbove(g: Graph, root: nat, s: set<nat>, i: nat, j: nat)
    requires WellFormed(g) && root < |g| && Regular(g, root)
    requires s <= Reach(g, root) && j <= i + 1 && i < |g|
    ensures Inflow(g, root, s, i, j) == Inflow(g, root, s, i, i + 1)
    decreases i + 1 - j
  {
    if j <= i {
      InflowFromAbove(g, root, s, i, j + 1);
      if j in s {
        assert OperandsBelow(g[j].op, j);
        if i in OperandSet(g[j].op) {
          OperandsBelowAll(g[j].op, j, i);
        }
        CoefOnlyOnOperands(g, j, i);
      }
    }
  }

  // ---------------------------------------------------------------------
  // The fold

  lemma SameValuesRule(g: Graph, h: Graph, v: nat)
    requires WellFormed(g) && SameValues(h, g) && v < |g|
    ensures WellFormed(h)
    ensures Singular(h, v) == Singular(g, v)
    ensures !Singular(g, v) ==> forall i :: Coef(h, v, i) == Coef(g, v, i)
  {
    SameValuesWellFormed(h, g);
    assert OperandsBelow(g[v].op, v);
  }

  /** What the fold relies on about the order it fires in */
  ghost predicate ValidFiring(g: Graph, root: nat, order: seq<nat>)
    requires WellFormed(g) && root < |g|
  {
    && (forall p :: 0 <= p < |order| ==> order[p] < |g|)
    && NoDup(order)
    && (forall x :: x in order <==> x in Reach(g, root))
    && ConsumersFirst(g, order)
  }

  /** When `order[p]` fires, its gradient has received every contribution */
  lemma GradientFinalWhenFired(g: Graph, root: nat, order: seq<nat>, p: nat)
    requires WellFormed(g) && root < |g| && Regular(g, root)
    requires ValidFiring(g, root, order) && p < |order|
    ensures order[p] < |g|
    ensures Inflow(g, root, Elements(order[..p]), order[p], 0) == Inflow(g, root, Reach(g, root), order[p], order[p] + 1)
  {
    var v, done := order[p], Elements(order[..p]);
    assert v in order;
    InflowFromAbove(g, root, done, v, 0);
    forall k | v + 1 <= k < |g| && v in OperandSet(g[k].op)
      ensures k in done <==> k in Reach(g, root)
    {
      if k in Reach(g, root) {
        var q :| 0 <= q < |order| && order[q] == k;
        assert q < p;
        assert k == order[..p][q];
      }
    }
    InflowAgree(g, root, done, Reach(g, root), v, v + 1);
  }

  lemma FiredSetGrows(order: seq<nat>, p: nat)
    requires NoDup(order) && p < |order|
    ensures order[p] !in Elements(order[..p])
    ensures Elements(order[..p + 1]) == Elements(order[..p]) + {order[p]}
  {
    assert order[..p + 1] == order[..p] + [order[p]];
  }

  /** The fold's invariant: `h` holds the seeded gradients plus every
      contribution from the nodes in `done` */
  ghost predicate HoldsContributions(g: Graph, root: nat, h: Graph, done: set<nat>)
    requires WellFormed(g) && root < |g| && Regular(g, root) && done <= Reach(g, root)
  {
    && SameValues(h, g)
    && forall i :: 0 <= i < |g| ==> h[i].grad == Seeded(g, root, i) + Inflow(g, root, done, i, 0)
  }

  lemma AllFired(g: Graph, root: nat, h: Graph)
    requires WellFormed(g) && root < |g| && Regular(g, root)
    requires HoldsContributions(g, root, h, Reach(g, root))
    ensures forall i :: 0 <= i < |g| ==> h[i].grad == Adjoint(g, root, i)
  {
    forall i | 0 <= i < |g|
      ensures h[i].grad == Adjoint(g, root, i)
    {
      InflowFromAbove(g, root, Reach(g, root), i, 0);
    }
  }

  /** Firing `v`, which turns `h` into `h1`, adds its contribution to node `i` */
  lemma {:induction false} FireOneAt(g: Graph, root: nat, done: set<nat>, v: nat, h: Graph, h1: Graph, i: nat)
    requires WellFormed(g) && root < |g| && Regular(g, root)
    requires done <= Reach(g, root) && v in Reach(g, root) && v !in done && i < |g|
    requires SameValues(h, g) && WellFormed(h) && !Singular(h, v) && |h1| == |h|
    requires h1[i].grad == h[i].grad + Coef(h, v, i) * h[v].grad
    requires h[i].grad == Seeded(g, root, i) + Inflow(g, root, done, i, 0)
    requires h[v].grad == Adjoint(g, root, v)
    ensures h1[i].grad == Seeded(g, root, i) + Inflow(g, root, done + {v}, i, 0)
  {
    SameValuesRule(g, h, v);
    InflowInsert(g, root, done, v, i, 0);
  }

  /** Firing one more node adds its contributions to the invariant */
  lemma {:induction false} FireOne(g: Graph, root: nat, done: set<nat>, v: nat, h: Graph)
    requires WellFormed(g) && root < |g| && Regular(g, root)
    requires done <= Reach(g, root) && v in Reach(g, root) && v !in done
    requires HoldsContributions(g, root, h, done)
    requires h[v].grad == Adjoint(g, root, v)
    ensures WellFormed(h) && v < |h| && Fire(h, v).Success?
    ensures HoldsContributions(g, root, Fire(h, v).value, done + {v})
  {
    SameValuesWellFormed(h, g);
    SameValuesRule(g, h, v);
    var h1 := Fire(h, v).value;
    forall i | 0 <= i < |g|
      ensures h1[i].grad == Seeded(g, root, i) + Inflow(g, root, done + {v}, i, 0)
    {
      FireOneAt(g, root, done, v, h, h1, i);
    }
  }

  lemma FireNext(g: Graph, root: nat, order: seq<nat>, p: nat, h: Graph)
    requires WellFormed(g) && root < |g| && Regular(g, root)
    requires ValidFiring(g, root, order) && p < |order|
    requires Elements(order[..p]) <= Reach(g, root)
    requires HoldsContributions(g, root, h, Elements(order[..p]))
    ensures WellFormed(h) && order[p] < |h| && Fire(h, order[p]).Success?
    ensures Elements(order[..p + 1]) <= Reach(g, root)
    ensures HoldsContributions(g, root, Fire(h, order[p]).value, Elements(order[..p + 1]))
  {
    var v, done := order[p], Elements(order[..p]);
    assert v in Reach(g, root) by { assert v in order; }
    GradientFinalWhenFired(g, root, order, p);
    FiredSetGrows(order, p);
    FireOne(g, root, done, v, h);
  }

  /** Firing `order[p..]` on gradients that already hold every contribution
      from `order[..p]` completes the sum over all of `order` */
  lemma {:induction false} FireAllCorrect(g: Graph, root: nat, order: seq<nat>, p: nat, h: Graph)
    requires WellFormed(g) && root < |g| && Regular(g, root)
    requires ValidFiring(g, root, order) && p <= |order|
    requires Elements(order[..p]) <= Reach(g, root)
    requires HoldsContributions(g, root, h, Elements(order[..p]))
    ensures WellFormed(h)
    ensures FireAll(h, order[p..]).Success?
    ensures forall i :: 0 <= i < |g| ==> FireAll(h, order[p..]).value[i].grad == Adjoint(g, root, i)
    decreases |order| - p
  {
    SameValuesWellFormed(h, g);
    if p == |order| {
      assert Elements(order[..p]) == Reach(g, root) by {
        assert order[..p] == order;
      }
      AllFired(g, root, h);
    } else {
      FireNext(g, root, order, p, h);
      var h1 := Fire(h, order[p]).value;
      FireAllCorrect(g, root, order, p + 1, h1);
      assert order[p..][1..] == order[p + 1..];
    }
  }

  lemma FireAllOutcome(g: Graph, root: nat, seeded: Graph)
    requires WellFormed(g) && root < |g| && seeded == SetGrad(g, root, 1.0)
    ensures WellFormed(seeded)
    ensures var r := FireAll(seeded, FiringOrder(g, root));
            && (r.Success? <==> Regular(g, root))
            && (r.Failure? ==> r.error == ZeroDivision)
            && (r.Success? ==> forall i :: 0 <= i < |g| ==> r.value[i].grad == Adjoint(g, root, i))
  {
    SameValuesWellFormed(seeded, g);
    var order := FiringOrder(g, root);
    assert ValidFiring(g, root, order);
    if Regular(g, root) {
      assert Elements(order[..0]) == {};
      forall i | 0 <= i < |g|
        ensures seeded[i].grad == Seeded(g, root, i) + Inflow(g, root, {}, i, 0)
      {
        InflowNone(g, root, {}, i, 0);
      }
      FireAllCorrect(g, root, order, 0, seeded);
      assert order[0..] == order;
    } else {
      var v :| v in Reach(g, root) && Singular(g, v);
      var p :| 0 <= p < |order| && order[p] == v;
      FireAllFails(g, order, seeded);
    }
  }

  lemma {:induction false} FireAllFails(g: Graph, order: seq<nat>, h: Graph)
    requires WellFormed(g)
    requires SameValues(h, g) && forall p :: 0 <= p < |order| ==> order[p] < |g|
    requires exists p :: 0 <= p < |order| && Singular(g, order[p])
    ensures WellFormed(h)
    ensures FireAll(h, order).Failure? && FireAll(h, order).error == ZeroDivision
    decreases |order|
  {
    SameValuesWellFormed(h, g);
    SameValuesRule(g, h, order[0]);
    if !Singular(g, order[0]) {
      var h1 := Fire(h, order[0]).value;
      var p :| 0 <= p < |order| && Singular(g, order[p]);
      assert order[1..][p - 1] == order[p];
      FireAllFails(g, order[1..], h1);
    }
  }
}
