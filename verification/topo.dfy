/** `build_topo` inside `Value.backward`: a depth-first post-order walk from
    the root, with a visited set keyed by node identity (here, the index). */
module Topo {
  import opened Engine

  /** The nodes reachable from `v` through operand edges, `v` included */
  function Reach(g: Graph, v: nat): (r: set<nat>)
    requires WellFormed(g) && v < |g|
    ensures v in r
    ensures forall x :: x in r ==> x <= v
    decreases v, 1
  {
    {v} + ReachAll(g, v, Operands(g[v].op))
  }

  /** The union of `Reach` over the operand list `cs` of node `parent` */
  function ReachAll(g: Graph, parent: nat, cs: seq<nat>): (r: set<nat>)
    requires WellFormed(g) && parent < |g|
    requires forall p :: 0 <= p < |cs| ==> cs[p] < parent
    ensures forall x :: x in r ==> x < parent
    decreases parent, 0, |cs|
  {
    if |cs| == 0 then {} else Reach(g, cs[0]) + ReachAll(g, parent, cs[1..])
  }

  lemma OperandsOfWellFormed(g: Graph, v: nat)
    requires WellFormed(g) && v < |g|
    ensures forall p :: 0 <= p < |Operands(g[v].op)| ==> Operands(g[v].op)[p] < v
  {
    assert OperandsBelow(g[v].op, v);
    forall p | 0 <= p < |Operands(g[v].op)|
      ensures Operands(g[v].op)[p] < v
    {
      OperandsBelowAll(g[v].op, v, Operands(g[v].op)[p]);
    }
  }

  lemma {:induction false} ReachAllMember(g: Graph, parent: nat, cs: seq<nat>, x: nat)
    requires WellFormed(g) && parent < |g|
    requires forall p :: 0 <= p < |cs| ==> cs[p] < parent
    ensures x in ReachAll(g, parent, cs) <==> exists c :: c in cs && x in Reach(g, c)
    decreases |cs|
  {
    if |cs| > 0 {
      ReachAllMember(g, parent, cs[1..], x);
      if x in ReachAll(g, parent, cs) {
        if x !in Reach(g, cs[0]) {
          var c :| c in cs[1..] && x in Reach(g, c);
          assert c in cs;
        }
      }
      if exists c :: c in cs && x in Reach(g, c) {
        var c :| c in cs && x in Reach(g, c);
        if c != cs[0] {
          assert c in cs[1..];
        }
      }
    }
  }

  /** A node is reachable from `v` when it is `v` or reachable from an operand of `v` */
  lemma ReachStep(g: Graph, v: nat, x: nat)
    requires WellFormed(g) && v < |g|
    ensures x in Reach(g, v) <==>
              x == v || exists c :: c in OperandSet(g[v].op) && x in Reach(g, c)
  {
    OperandsOfWellFormed(g, v);
    ReachAllMember(g, v, Operands(g[v].op), x);
  }

  lemma {:induction false} ReachTransitive(g: Graph, v: nat, w: nat, x: nat)
    requires WellFormed(g) && v < |g| && w in Reach(g, v) && x in Reach(g, w)
    ensures w < |g| && x in Reach(g, v)
    decreases v
  {
    ReachStep(g, v, w);
    if w != v {
      var c :| c in OperandSet(g[v].op) && w in Reach(g, c);
      OperandsBelowAll(g[v].op, v, c);
      ReachTransitive(g, c, w, x);
      ReachStep(g, v, x);
    }
  }

  /** An operand of a reachable node is reachable */
  lemma ReachClosed(g: Graph, root: nat, v: nat, c: nat)
    requires WellFormed(g) && root < |g| && v in Reach(g, root)
    requires c in OperandSet(g[v].op)
    ensures c in Reach(g, root)
  {
    ReachTransitive(g, root, v, v);
    OperandsBelowAll(g[v].op, v, c);
    ReachStep(g, v, c);
    ReachTransitive(g, root, v, c);
  }

  /** Reachability depends on the operations only, not on data or gradients */
  lemma {:induction false} ReachSameValues(g: Graph, h: Graph, v: nat)
    requires WellFormed(g) && SameValues(h, g) && v < |g|
    ensures WellFormed(h) && Reach(h, v) == Reach(g, v)
    decreases v, 1
  {
    SameValuesWellFormed(h, g);
    OperandsOfWellFormed(g, v);
    ReachAllSameValues(g, h, v, Operands(g[v].op));
  }

  lemma {:induction false} ReachAllSameValues(g: Graph, h: Graph, parent: nat, cs: seq<nat>)
    requires WellFormed(g) && SameValues(h, g) && parent < |g|
    requires forall p :: 0 <= p < |cs| ==> cs[p] < parent
    ensures WellFormed(h) && ReachAll(h, parent, cs) == ReachAll(g, parent, cs)
    decreases parent, 0, |cs|
  {
    SameValuesWellFormed(h, g);
    if |cs| > 0 {
      ReachSameValues(g, h, cs[0]);
      ReachAllSameValues(g, h, parent, cs[1..]);
    }
  }

  // ---------------------------------------------------------------------
  // The depth-first walk

  /** The two pieces of state `build_topo` mutates: `visited` and `topo` */
  datatype Dfs = Dfs(visited: set<nat>, topo: seq<nat>)

  /** One call of `build_topo` on node `v`: unless `v` is already visited, it
      is marked, its operands are visited in turn, and it is appended */
  function Visit(g: Graph, v: nat, st: Dfs): (r: Dfs)
    requires WellFormed(g) && v < |g|
    ensures st.visited <= r.visited && st.topo <= r.topo && v in r.visited
    ensures v in st.visited ==> r == st
    decreases v, 1
  {
    if v in st.visited then st
    else
      OperandsOfWellFormed(g, v);
      var st1 := VisitAll(g, v, Operands(g[v].op), Dfs(st.visited + {v}, st.topo));
      Dfs(st1.visited, st1.topo + [v])
  }

  /** The loop of `build_topo` over the operands `cs` of node `parent`,
      visiting each in order with the state the previous one left */
  function VisitAll(g: Graph, parent: nat, cs: seq<nat>, st: Dfs): (r: Dfs)
    requires WellFormed(g) && parent < |g|
    requires forall p :: 0 <= p < |cs| ==> cs[p] < parent
    ensures st.visited <= r.visited && st.topo <= r.topo
    ensures forall p :: 0 <= p < |cs| ==> cs[p] in r.visited
    decreases parent, 0, |cs|
  {
    if |cs| == 0 then st else VisitAll(g, parent, cs[1..], Visit(g, cs[0], st))
  }

  /** The order `topo` that `backward` builds from `root`: every reachable
      node exactly once, nothing unreachable, each after its operands, and
      `root` last */
  function BuildTopo(g: Graph, root: nat): (r: seq<nat>)
    requires WellFormed(g) && root < |g|
    ensures TopoOrderOf(g, root, r)
  {
    VisitCorrect(g, root, Dfs({}, []));
    Visit(g, root, Dfs({}, [])).topo
  }

  // ---------------------------------------------------------------------
  // What the walk guarantees

  /** Every node's operands occur earlier in `order` */
  ghost predicate OperandsFirst(g: Graph, order: seq<nat>) {
    forall p :: 0 <= p < |order| ==>
      order[p] < |g| && forall c :: c in OperandSet(g[order[p]].op) ==> c in order[..p]
  }

  /** `order` lists exactly the nodes reachable from `root`, each once, operands
      first, with `root` last */
  ghost predicate TopoOrderOf(g: Graph, root: nat, order: seq<nat>)
    requires WellFormed(g) && root < |g|
  {
    && NoDup(order)
    && (forall x :: x in order <==> x in Reach(g, root))
    && OperandsFirst(g, order)
    && |order| > 0 && order[|order| - 1] == root
  }

  /** The invariant of the walk: `topo` holds finished nodes, the rest of
      `visited` is the stack of nodes still in progress */
  ghost predicate Invariant(g: Graph, st: Dfs) {
    && (forall x :: x in st.topo ==> x in st.visited)
    && (forall x :: x in st.visited ==> x < |g|)
    && NoDup(st.topo)
    && OperandsFirst(g, st.topo)
  }

  /** A finished node has all its descendants finished */
  lemma {:induction false} FinishedClosed(g: Graph, topo: seq<nat>, v: nat)
    requires WellFormed(g) && OperandsFirst(g, topo) && v in topo
    ensures v < |g| && forall x :: x in Reach(g, v) ==> x in topo
    decreases v
  {
    var p :| 0 <= p < |topo| && topo[p] == v;
    forall x | x in Reach(g, v)
      ensures x in topo
    {
      ReachStep(g, v, x);
      if x != v {
        var c :| c in OperandSet(g[v].op) && x in Reach(g, c);
        assert c in topo[..p];
        OperandsBelowAll(g[v].op, v, c);
        FinishedClosed(g, topo, c);
      }
    }
  }

  lemma {:induction false} VisitCorrect(g: Graph, v: nat, st: Dfs)
    requires WellFormed(g) && v < |g| && Invariant(g, st)
    requires forall x :: x in st.visited && x !in st.topo ==> v < x
    ensures var r := Visit(g, v, st);
            && Invariant(g, r)
            && r.visited == st.visited + Reach(g, v)
            && st.topo <= r.topo
            && (forall x :: x in r.topo <==> x in st.topo || x in Reach(g, v))
            && (v !in st.visited ==> |r.topo| > 0 && r.topo[|r.topo| - 1] == v)
    decreases v, 1
  {
    if v in st.visited {
      assert v in st.topo;
      FinishedClosed(g, st.topo, v);
    } else {
      OperandsOfWellFormed(g, v);
      var cs := Operands(g[v].op);
      var st0 := Dfs(st.visited + {v}, st.topo);
      VisitAllCorrect(g, v, cs, st0);
      var st1 := VisitAll(g, v, cs, st0);
      var below := ReachAll(g, v, cs);
      assert v !in st1.topo;
      forall c | c in OperandSet(g[v].op)
        ensures c in st1.topo
      {
        assert c in cs;
        ReachAllMember(g, v, cs, c);
      }
      assert Reach(g, v) == {v} + below;
      FinishNode(g, v, st, st1, Reach(g, v), below);
      assert Visit(g, v, st) == Dfs(st1.visited, st1.topo + [v]);
    }
  }

  /** Appending `v` once its operands' walks are done finishes the visit */
  lemma {:induction false} FinishNode(g: Graph, v: nat, st: Dfs, st1: Dfs, reach: set<nat>, below: set<nat>)
    requires Invariant(g, st1) && v < |g| && v !in st1.topo
    requires st1.visited == st.visited + {v} + below
    requires forall x :: x in st1.topo <==> x in st.topo || x in below
    requires forall c :: c in OperandSet(g[v].op) ==> c in st1.topo
    requires reach == {v} + below
    ensures var r := Dfs(st1.visited, st1.topo + [v]);
            && Invariant(g, r)
            && r.visited == st.visited + reach
            && (forall x :: x in r.topo <==> x in st.topo || x in reach)
            && r.topo[|r.topo| - 1] == v
  {
    OperandsFirstAppend(g, st1.topo, v);
    NoDupAppend(st1.topo, v);
  }

  lemma {:induction false} NoDupAppend(s: seq<nat>, v: nat)
    requires NoDup(s) && v !in s
    ensures NoDup(s + [v])
  {
    var t := s + [v];
    forall p, q | 0 <= p < q < |t|
      ensures t[p] != t[q]
    {
      if q == |s| {
        assert t[p] == s[p];
      }
    }
  }

  /** A node whose operands are all finished can be finished next */
  lemma {:induction false} OperandsFirstAppend(g: Graph, topo: seq<nat>, v: nat)
    requires OperandsFirst(g, topo) && v < |g|
    requires forall c :: c in OperandSet(g[v].op) ==> c in topo
    ensures OperandsFirst(g, topo + [v])
  {
    var t := topo + [v];
    forall p | 0 <= p < |t|
      ensures t[p] < |g| && forall c :: c in OperandSet(g[t[p]].op) ==> c in t[..p]
    {
      if p == |topo| {
        assert t[..p] == topo;
      } else {
        assert t[..p] == topo[..p];
      }
    }
  }

  lemma {:induction false} VisitAllCorrect(g: Graph, parent: nat, cs: seq<nat>, st: Dfs)
    requires WellFormed(g) && parent < |g| && Invariant(g, st)
    requires forall p :: 0 <= p < |cs| ==> cs[p] < parent
    requires forall x :: x in st.visited && x !in st.topo ==> parent <= x
    ensures var r := VisitAll(g, parent, cs, st);
            && Invariant(g, r)
            && r.visited == st.visited + ReachAll(g, parent, cs)
            && st.topo <= r.topo
            && (forall x :: x in r.topo <==> x in st.topo || x in ReachAll(g, parent, cs))
    decreases parent, 0, |cs|
  {
    if |cs| > 0 {
      VisitCorrect(g, cs[0], st);
      var st1 := Visit(g, cs[0], st);
      StackKept(st, st1, Reach(g, cs[0]), parent);
      VisitAllCorrect(g, parent, cs[1..], st1);
      var r := VisitAll(g, parent, cs[1..], st1);
      assert VisitAll(g, parent, cs, st) == r;
      VisitAllJoin(st, st1, r, Reach(g, cs[0]), ReachAll(g, parent, cs[1..]));
      assert ReachAll(g, parent, cs) == Reach(g, cs[0]) + ReachAll(g, parent, cs[1..]);
    }
  }

  /** A visit finishes every node it marks, so the nodes still in progress
      are the ones that were in progress before */
  lemma StackKept(st: Dfs, st1: Dfs, reach: set<nat>, parent: nat)
    requires st1.visited == st.visited + reach
    requires forall x :: x in st1.topo <==> x in st.topo || x in reach
    requires forall x :: x in st.visited && x !in st.topo ==> parent <= x
    ensures forall x :: x in st1.visited && x !in st1.topo ==> parent <= x
  {
  }

  /** Two visits one after the other add up */
  lemma VisitAllJoin(st: Dfs, st1: Dfs, r: Dfs, head: set<nat>, tail: set<nat>)
    requires st1.visited == st.visited + head && r.visited == st1.visited + tail
    requires forall x :: x in st1.topo <==> x in st.topo || x in head
    requires forall x :: x in r.topo <==> x in st1.topo || x in tail
    requires st.topo <= st1.topo <= r.topo
    ensures r.visited == st.visited + (head + tail)
    ensures st.topo <= r.topo
    ensures forall x :: x in r.topo <==> x in st.topo || x in head + tail
  {
  }
}
