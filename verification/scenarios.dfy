/** Small graphs worked through `backward` by hand, each pinning down one
    behaviour of the engine on concrete numbers. */
module Scenarios {
  import opened Wrappers
  import opened Engine
  import opened Topo
  import opened Gradients

  /** `a * a` with `a = 3`: the node has the single operand `a`, and firing its
      rule adds both partial derivatives to `a`, so `a.grad` is `2 * 3` */
  lemma SquareGradient()
    ensures var g := [Node(3.0, 0.0, Const), Node(9.0, 0.0, MulOp(0, 0))];
            && WellFormed(g)
            && Operands(g[1].op) == [0]
            && Backward(g, 1).Success?
            && Backward(g, 1).value[0].grad == 6.0
  {
    var g := [Node(3.0, 0.0, Const), Node(9.0, 0.0, MulOp(0, 0))];
    assert OperandsBelow(g[1].op, 1);
    assert Reach(g, 0) == {0};
    assert Reach(g, 1) == {0, 1} by {
      assert Operands(g[1].op) == [0];
      assert ReachAll(g, 1, [0]) == Reach(g, 0) + ReachAll(g, 1, []);
    }
    assert Regular(g, 1);
    var r := Reach(g, 1);
    assert Adjoint(g, 1, 1) == 1.0 by {
      assert Inflow(g, 1, r, 1, 2) == 0.0;
    }
    assert Coef(g, 1, 0) == 6.0;
    assert Inflow(g, 1, r, 0, 1) == 6.0 by {
      assert Inflow(g, 1, r, 0, 2) == 0.0;
    }
  }

  /** `a ** 3` with `a = 2`: the rule adds `3 * 2 ** 2` */
  lemma CubeGradient()
    ensures var g := [Node(2.0, 0.0, Const), Node(8.0, 0.0, PowOp(0, 3))];
            && WellFormed(g)
            && Backward(g, 1).Success?
            && Backward(g, 1).value[0].grad == 12.0
  {
    var g := [Node(2.0, 0.0, Const), Node(8.0, 0.0, PowOp(0, 3))];
    assert OperandsBelow(g[1].op, 1);
    assert Reach(g, 1) == {0, 1} by {
      assert Operands(g[1].op) == [0];
      assert ReachAll(g, 1, [0]) == Reach(g, 0) + ReachAll(g, 1, []);
    }
    var r := Reach(g, 1);
    assert Adjoint(g, 1, 1) == 1.0 by {
      assert Inflow(g, 1, r, 1, 2) == 0.0;
    }
    assert IntPow(2.0, 2) == 4.0 by {
      assert NatPow(2.0, 2) == 2.0 * NatPow(2.0, 1);
    }
    assert Inflow(g, 1, r, 0, 1) == 12.0 by {
      assert Inflow(g, 1, r, 0, 2) == 0.0;
    }
  }

  /** `relu(a)` with `a = 0`: the output is 0, so the rule passes nothing
      back, even though the output gradient is 1 */
  lemma ReluAtZeroGradient()
    ensures var g := [Node(0.0, 0.0, Const), Node(0.0, 0.0, ReluOp(0))];
            && WellFormed(g)
            && Backward(g, 1).Success?
            && Backward(g, 1).value[0].grad == 0.0
            && Backward(g, 1).value[1].grad == 1.0
  {
    var g := [Node(0.0, 0.0, Const), Node(0.0, 0.0, ReluOp(0))];
    assert OperandsBelow(g[1].op, 1);
    assert Reach(g, 1) == {0, 1} by {
      assert Operands(g[1].op) == [0];
      assert ReachAll(g, 1, [0]) == Reach(g, 0) + ReachAll(g, 1, []);
    }
    var r := Reach(g, 1);
    assert Adjoint(g, 1, 1) == 1.0 by {
      assert Inflow(g, 1, r, 1, 2) == 0.0;
    }
    assert Inflow(g, 1, r, 0, 1) == 0.0 by {
      assert Inflow(g, 1, r, 0, 2) == 0.0;
    }
  }

  /** `a ** 0` with `a = 0` builds fine (the value is 1), but its rule
      evaluates `0 ** -1`, so `backward` raises */
  lemma ZeroToTheZeroBackwardFails()
    ensures var g := [Node(0.0, 0.0, Const)];
            && Pow(g, 0, IntPower(0)).Success?
            && var b := Pow(g, 0, IntPower(0)).value;
               && b.graph[b.out].data == 1.0
               && Backward(b.graph, b.out) == Failure(ZeroDivision)
  {
    var g := [Node(0.0, 0.0, Const)];
    var b := Pow(g, 0, IntPower(0)).value;
    assert Singular(b.graph, 1);
    assert 1 in Reach(b.graph, 1);
  }

  /** `a = 1`, `b = a * 2`, `c = b * 3` */
  function Chain(): Graph {
    [ Node(1.0, 0.0, Const),
      Node(2.0, 0.0, Const),
      Node(2.0, 0.0, MulOp(0, 1)),
      Node(3.0, 0.0, Const),
      Node(6.0, 0.0, MulOp(2, 3)) ]
  }

  /** Everything in `Chain()` is reachable from `c` */
  lemma ChainShape()
    ensures WellFormed(Chain()) && Reach(Chain(), 4) == {0, 1, 2, 3, 4}
  {
    var g := Chain();
    assert forall v :: 0 <= v < 5 ==> OperandsBelow(g[v].op, v);
    assert Reach(g, 2) == {0, 1, 2} by {
      assert Operands(g[2].op) == [0, 1];
      assert ReachAll(g, 2, [0, 1]) == Reach(g, 0) + ReachAll(g, 2, [1]);
      assert ReachAll(g, 2, [1]) == Reach(g, 1) + ReachAll(g, 2, []);
    }
    assert Reach(g, 4) == {0, 1, 2, 3, 4} by {
      assert Operands(g[4].op) == [2, 3];
      assert ReachAll(g, 4, [2, 3]) == Reach(g, 2) + ReachAll(g, 4, [3]);
      assert ReachAll(g, 4, [3]) == Reach(g, 3) + ReachAll(g, 4, []);
    }
  }

  /** The same holds in any graph with `Chain()`'s operations, and no rule
      there can raise */
  lemma ChainReach(h: Graph)
    requires SameValues(h, Chain())
    ensures WellFormed(h) && Reach(h, 4) == {0, 1, 2, 3, 4} && Regular(h, 4)
  {
    ChainShape();
    ReachSameValues(Chain(), h, 4);
    assert forall v :: 0 <= v < 5 ==> h[v].op == Chain()[v].op;
  }

  /** The gradients of `c.backward()` on a chain whose gradients are `d`
      beforehand: each rule passes the consumer's final gradient down */
  lemma ChainAdjoints(h: Graph)
    requires SameValues(h, Chain())
    ensures WellFormed(h) && Regular(h, 4)
    ensures Adjoint(h, 4, 4) == 1.0
    ensures Adjoint(h, 4, 2) == h[2].grad + 3.0
    ensures Adjoint(h, 4, 0) == h[0].grad + 2.0 * (h[2].grad + 3.0)
  {
    ChainReach(h);
    var r := Reach(h, 4);
    assert Adjoint(h, 4, 4) == 1.0 by {
      assert Inflow(h, 4, r, 4, 5) == 0.0;
    }
    assert Inflow(h, 4, r, 2, 3) == 3.0 by {
      assert Inflow(h, 4, r, 2, 5) == 0.0;
      assert Inflow(h, 4, r, 2, 4) == Coef(h, 4, 2) * Adjoint(h, 4, 4);
      assert Coef(h, 4, 2) == 3.0;
    }
    assert Inflow(h, 4, r, 0, 1) == 2.0 * Adjoint(h, 4, 2) by {
      assert Coef(h, 4, 0) == 0.0 && Coef(h, 3, 0) == 0.0 && Coef(h, 2, 0) == 2.0 && Coef(h, 1, 0) == 0.0;
      assert Inflow(h, 4, r, 0, 5) == 0.0;
      assert Inflow(h, 4, r, 0, 4) == 0.0;
      assert Inflow(h, 4, r, 0, 3) == 0.0;
      assert Inflow(h, 4, r, 0, 2) == 2.0 * Adjoint(h, 4, 2);
    }
  }

  /** Calling `c.backward()` twice without zeroing: the second call starts
      from the gradients the first left behind, so `b`'s gradient (3) is
      counted again before it reaches `a`. `a` ends at 18, not at twice its
      first gradient. */
  lemma ChainBackwardTwice()
    ensures Backward(Chain(), 4).Success?
    ensures var h := Backward(Chain(), 4).value;
            && h[0].grad == 6.0
            && Backward(h, 4).Success?
            && Backward(h, 4).value[0].grad == 18.0
  {
    var g := Chain();
    ChainAdjoints(g);
    var h := Backward(g, 4).value;
    ChainAdjoints(h);
  }

  /** `a = 2`, `b = 5`, `out = a * b` */
  function Product(): Graph {
    [ Node(2.0, 0.0, Const),
      Node(5.0, 0.0, Const),
      Node(10.0, 0.0, MulOp(0, 1)) ]
  }

  /** Every node of `Product()` is reachable from `out`, in any graph with
      the same operations, and no rule there can raise */
  lemma ProductReach(h: Graph)
    requires SameValues(h, Product())
    ensures WellFormed(h) && Reach(h, 2) == {0, 1, 2} && Regular(h, 2)
  {
    var g := Product();
    assert forall v :: 0 <= v < 3 ==> OperandsBelow(g[v].op, v);
    assert Reach(g, 2) == {0, 1, 2} by {
      assert Operands(g[2].op) == [0, 1];
      assert ReachAll(g, 2, [0, 1]) == Reach(g, 0) + ReachAll(g, 2, [1]);
      assert ReachAll(g, 2, [1]) == Reach(g, 1) + ReachAll(g, 2, []);
    }
    ReachSameValues(g, h, 2);
    assert forall v :: 0 <= v < 3 ==> h[v].op == g[v].op;
  }

  /** The gradients of `out.backward()` on a product whose gradients are
      `h`'s beforehand: `a` gains `b`'s value once more */
  lemma ProductAdjoints(h: Graph)
    requires SameValues(h, Product())
    ensures WellFormed(h) && Regular(h, 2)
    ensures Adjoint(h, 2, 0) == h[0].grad + 5.0
  {
    ProductReach(h);
    var r := Reach(h, 2);
    assert Adjoint(h, 2, 2) == 1.0 by {
      assert Inflow(h, 2, r, 2, 3) == 0.0;
    }
    assert Inflow(h, 2, r, 0, 1) == 5.0 by {
      assert Coef(h, 2, 0) == 5.0 && Coef(h, 1, 0) == 0.0;
      assert Inflow(h, 2, r, 0, 3) == 0.0;
      assert Inflow(h, 2, r, 0, 2) == Coef(h, 2, 0) * Adjoint(h, 2, 2);
    }
  }

  /** Calling `out.backward()` twice without zeroing: the root is reset to 1
      and its rule adds `b`'s value to `a` again, so `a`'s gradient doubles */
  lemma ProductBackwardTwice()
    ensures Backward(Product(), 2).Success?
    ensures var h := Backward(Product(), 2).value;
            && h[0].grad == 5.0
            && Backward(h, 2).Success?
            && Backward(h, 2).value[0].grad == 10.0
  {
    var g := Product();
    ProductAdjoints(g);
    var h := Backward(g, 2).value;
    ProductAdjoints(h);
  }
}
