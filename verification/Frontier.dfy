/** Dominator tree, dominance frontiers and phi placement of a control-flow graph. */
module DominanceFrontiers {
  import opened Graphs
  import opened DominatorTrees

  // ---- Dominance ----

  lemma DominatesItself(g: Graph, v: nat)
    ensures Dominates(g, 0, v, v)
  {
    forall p | PathFromTo(g, 0, v, p)
      ensures v in p
    {
      assert p[|p| - 1] == v;
    }
  }

  lemma RootDominates(g: Graph, v: nat)
    ensures Dominates(g, 0, 0, v)
  {
    forall p | PathFromTo(g, 0, v, p)
      ensures 0 in p
    {
      assert p[0] == 0;
    }
  }

  lemma DominatesTrans(g: Graph, a: nat, b: nat, c: nat)
    requires Dominates(g, 0, a, b) && Dominates(g, 0, b, c)
    ensures Dominates(g, 0, a, c)
  {
    forall p | PathFromTo(g, 0, c, p)
      ensures a in p
    {
      var i :| 0 <= i < |p| && p[i] == b;
      SubPath(g, p, 0, i);
      assert a in p[0..i + 1];
    }
  }

  /** The first vertex of a path that is `a` or `b`. */
  lemma {:induction false} FirstOf(p: seq<nat>, a: nat, b: nat) returns (i: nat)
    requires a in p || b in p
    ensures i < |p| && (p[i] == a || p[i] == b) && forall j :: 0 <= j < i ==> p[j] != a && p[j] != b
  {
    if p[0] == a || p[0] == b {
      i := 0;
    } else {
      i := FirstOf(p[1..], a, b);
      i := i + 1;
    }
  }

  lemma DominatesAntisymmetric(g: Graph, a: nat, b: nat)
    requires Dominates(g, 0, a, b) && Dominates(g, 0, b, a) && Reachable(g, 0, a)
    ensures a == b
  {
    var p :| PathFromTo(g, 0, a, p);
    var i := FirstOf(p, a, b);
    SubPath(g, p, 0, i);
    assert p[0..i + 1][i] == p[i];
    assert a in p[0..i + 1] && b in p[0..i + 1];
  }

  lemma DominatorReachable(g: Graph, d: nat, v: nat)
    requires Dominates(g, 0, d, v) && Reachable(g, 0, v)
    ensures Reachable(g, 0, d) && d < |g|
  {
    var p :| PathFromTo(g, 0, v, p);
    var i :| 0 <= i < |p| && p[i] == d;
    SubPath(g, p, 0, i);
  }

  // ---- The dominance frontier ----

  /** `x` is where the dominance of `v` ends: `v` dominates a predecessor of `x` but not strictly `x`. */
  ghost predicate InFrontier(g: Graph, v: nat, x: nat) {
    !StrictlyDominates(g, 0, v, x) && exists p: nat :: DominatedEdge(g, v, p, x)
  }

  /** Where definitions in `v` meet others: in its frontier, or right behind `v` when no path leads to it. */
  ghost predicate Meets(g: Graph, v: nat, x: nat) {
    if Reachable(g, 0, v) then InFrontier(g, v, x) else Edge(g, v, x)
  }

  ghost predicate DominatedEdge(g: Graph, v: nat, p: nat, x: nat) {
    Edge(g, p, x) && Reachable(g, 0, p) && Dominates(g, 0, v, p)
  }

  /** `dom` gives the immediate dominators of the reachable vertices other than 0, and -1 to the rest. */
  ghost predicate IsDomTree(g: Graph, dom: seq<int>) {
    && |dom| == |g| && (forall i :: 0 <= i < |dom| ==> -1 <= dom[i] < |dom|)
    && (forall v: nat :: v < |g| && v != 0 && Reachable(g, 0, v) ==> dom[v] >= 0 && IsIdom(g, 0, dom[v], v))
    && (forall v: nat :: v < |g| && (v == 0 || !Reachable(g, 0, v)) ==> dom[v] == -1)
  }

  /** The dominators of a vertex. */
  ghost function Dominators(g: Graph, v: nat): set<nat> {
    set d: nat | d < |g| && Dominates(g, 0, d, v)
  }

  lemma IdomHasFewer(g: Graph, z: nat, v: nat)
    requires IsIdom(g, 0, z, v) && Reachable(g, 0, v) && v < |g|
    ensures Dominators(g, z) < Dominators(g, v) && Reachable(g, 0, z) && z < |g|
  {
    DominatorReachable(g, z, v);
    forall d | d in Dominators(g, z)
      ensures d in Dominators(g, v)
    {
      DominatesTrans(g, d, z, v);
    }
    DominatesItself(g, v);
    if Dominates(g, 0, v, z) {
      DominatesAntisymmetric(g, v, z);
    }
    assert v in Dominators(g, v) && v !in Dominators(g, z);
  }

  /** The dominators of a vertex are the vertex itself and the dominators of its immediate dominator. */
  lemma DominatorsUp(g: Graph, z: nat, v: nat, d: nat)
    requires IsIdom(g, 0, z, v)
    ensures Dominates(g, 0, d, v) <==> d == v || Dominates(g, 0, d, z)
  {
    DominatesItself(g, v);
    if Dominates(g, 0, d, z) {
      DominatesTrans(g, d, z, v);
    }
    if d != v && Dominates(g, 0, d, v) {
      assert StrictlyDominates(g, 0, d, v);
    }
  }

  /** What a walk up the tree from `x` meets before 0. */
  ghost predicate OnWalk(g: Graph, x: int, d: nat) {
    0 < x && 0 < d && (d == x || (Reachable(g, 0, x) && Dominates(g, 0, d, x)))
  }

  lemma WalkStep(g: Graph, dom: seq<int>, x: nat, d: nat)
    requires IsDomTree(g, dom) && 0 < x < |g|
    ensures OnWalk(g, x, d) <==> (d == x || OnWalk(g, dom[x], d))
    ensures dom[x] > 0 ==> Reachable(g, 0, x) && Dominators(g, dom[x]) < Dominators(g, x)
  {
    if Reachable(g, 0, x) {
      DominatorsUp(g, dom[x], x, d);
      IdomHasFewer(g, dom[x], x);
      if dom[x] == 0 && d != x && Dominates(g, 0, d, 0) {
        SinglePath(g, 0);
        assert d in [0];
      }
      DominatesItself(g, dom[x]);
    }
  }

  // ---- The solver numbers vertices from 1 ----

  /** `h` is `g` with every vertex one higher. */
  ghost predicate Shifted(g: Graph, h: Graph) {
    && |h| == |g| + 1 && h[0] == []
    && (forall x: nat, y: nat {:trigger y in h[x]} :: 1 <= x < |h| ==>
      (y in h[x] <==> y > 0 && Lower(y) in g[Lower(x)]))
  }

  function Lower(x: nat): nat {
    if x > 0 then x - 1 else 0
  }

  ghost function Up(p: seq<nat>): (q: seq<nat>)
    ensures |q| == |p| && forall i :: 0 <= i < |p| ==> q[i] == p[i] + 1
  {
    seq(|p|, i requires 0 <= i < |p| => p[i] + 1)
  }

  lemma UpPath(g: Graph, h: Graph, p: seq<nat>, u: nat, v: nat)
    requires Shifted(g, h) && PathFromTo(g, u, v, p)
    ensures PathFromTo(h, u + 1, v + 1, Up(p))
  {
    var q := Up(p);
    forall i | 0 <= i < |q| - 1
      ensures Edge(h, q[i], q[i + 1])
    {
      assert Edge(g, p[i], p[i + 1]);
      assert q[i + 1] in h[q[i]] <==> Lower(q[i + 1]) in g[Lower(q[i])];
    }
  }

  lemma DownPath(g: Graph, h: Graph, q: seq<nat>, u: nat, v: nat) returns (p: seq<nat>)
    requires Shifted(g, h) && WellFormed(g) && PathFromTo(h, u + 1, v, q)
    ensures v > 0 && PathFromTo(g, u, v - 1, p) && q == Up(p)
  {
    Positive(g, h, q, |q| - 1);
    p := seq(|q|, i requires 0 <= i < |q| => Lower(q[i]));
    forall i | 0 <= i < |p| - 1
      ensures Edge(g, p[i], p[i + 1])
    {
      Positive(g, h, q, i);
      Positive(g, h, q, i + 1);
      assert Edge(h, q[i], q[i + 1]);
    }
    forall i | 0 <= i < |q|
      ensures p[i] < |g| && q[i] == p[i] + 1
    {
      Positive(g, h, q, i);
    }
  }

  lemma Positive(g: Graph, h: Graph, q: seq<nat>, i: nat)
    requires Shifted(g, h) && IsPath(h, q) && q[0] > 0 && i < |q|
    ensures q[i] > 0
  {
    if i > 0 {
      assert Edge(h, q[i - 1], q[i]);
      var x: nat, y: nat := q[i - 1], q[i];
      assert x < |h| && x != 0 && y in h[x];
    }
  }

  lemma ShiftedDominates(g: Graph, h: Graph, d: nat, w: nat)
    requires Shifted(g, h) && WellFormed(g)
    ensures Dominates(g, 0, d, w) <==> Dominates(h, 1, d + 1, w + 1)
  {
    if Dominates(g, 0, d, w) {
      var w1 := w + 1;
      forall q | PathFromTo(h, 1, w1, q)
        ensures d + 1 in q
      {
        var p := DownPath(g, h, q, 0, w1);
        var i :| 0 <= i < |p| && p[i] == d;
        assert q[i] == d + 1;
      }
    }
    if Dominates(h, 1, d + 1, w + 1) {
      forall p | PathFromTo(g, 0, w, p)
        ensures d in p
      {
        UpPath(g, h, p, 0, w);
        var i :| 0 <= i < |Up(p)| && Up(p)[i] == d + 1;
        assert p[i] == d;
      }
    }
  }

  lemma ShiftedReachable(g: Graph, h: Graph, w: nat)
    requires Shifted(g, h) && WellFormed(g)
    ensures Reachable(g, 0, w) <==> Reachable(h, 1, w + 1)
  {
    if Reachable(g, 0, w) {
      var p :| PathFromTo(g, 0, w, p);
      UpPath(g, h, p, 0, w);
    }
    if Reachable(h, 1, w + 1) {
      var q :| PathFromTo(h, 1, w + 1, q);
      var p := DownPath(g, h, q, 0, w + 1);
    }
  }

  lemma ShiftedIdom(g: Graph, h: Graph, z: nat, w: nat)
    requires Shifted(g, h) && WellFormed(g) && IsIdom(h, 1, z, w + 1) && Reachable(g, 0, w)
    ensures z > 0 && IsIdom(g, 0, z - 1, w)
  {
    var p :| PathFromTo(g, 0, w, p);
    UpPath(g, h, p, 0, w);
    assert z in Up(p);
    ShiftedDominates(g, h, z - 1, w);
    forall d: nat | StrictlyDominates(g, 0, d, w)
      ensures Dominates(g, 0, d, z - 1)
    {
      ShiftedDominates(g, h, d, w);
      ShiftedDominates(g, h, d, z - 1);
      assert StrictlyDominates(h, 1, d + 1, w + 1);
    }
  }

  /** The children of each vertex among the first `n`, in increasing order. */
  ghost predicate IsChildren(dom: seq<int>, child: seq<seq<nat>>, size: nat, n: nat) {
    && |child| == size && |dom| == n <= size
    && (forall d: nat, i: nat :: d < size ==> (i in child[d] <==> IsChild(dom, d, i)))
    && (forall d: nat :: d < size ==> Increasing(child[d]))
  }

  predicate IsChild(dom: seq<int>, d: nat, i: nat) {
    0 < i < |dom| && dom[i] == d
  }

  ghost predicate Increasing(s: seq<nat>) {
    forall j, k :: 0 <= j < k < |s| ==> s[j] < s[k]
  }

  lemma AddChild(dom: seq<int>, child: seq<seq<nat>>, size: nat, n: nat, x: int)
    requires IsChildren(dom, child, size, n) && n < size
    ensures IsChildren(dom + [x], if n > 0 && 0 <= x < size then child[x := child[x] + [n]] else child, size, n + 1)
  {
    var child' := if n > 0 && 0 <= x < size then child[x := child[x] + [n]] else child;
    forall d: nat, i: nat | d < size
      ensures i in child'[d] <==> IsChild(dom + [x], d, i)
    {
      assert i in child[d] <==> IsChild(dom, d, i);
    }
    forall d: nat | d < size
      ensures Increasing(child'[d])
    {
      forall k | 0 <= k < |child[d]|
        ensures child[d][k] < n
      {
        assert child[d][k] in child[d];
        assert IsChild(dom, d, child[d][k]);
      }
    }
  }

  class CFG {
    const succs: Graph
    const preds: Graph
    var dom_: seq<int>
    var domChild: seq<seq<nat>>
    var frontier: seq<set<nat>>

    ghost predicate Valid() {
      0 < |succs| && Converses(succs, preds)
    }

    constructor (g: Graph, back: Graph)
      requires 0 < |g| && Converses(g, back)
      ensures Valid() && succs == g && preds == back
    {
      succs, preds := g, back;
      dom_, domChild, frontier := [], [], [];
    }

    /** The edges of every vertex, in both directions. */
    method EnterEdges(dts: DominatorTreeSolver)
      requires Valid() && dts.Shape() && dts.Blank() && dts.n == |succs|
      requires forall o, u :: 0 <= o < 3 && 1 <= u <= dts.n ==> dts.Lists(o)[u] == []
      modifies dts`e, dts`head, dts`edge_cnt
      ensures dts.Shape() && dts.Blank() && Shifted(succs, dts.Lists(0)) && Shifted(preds, dts.Lists(1))
    {
      hide Chain, Listing, EdgeShape, Entered;
      NothingEntered(succs, dts.Lists(0));
      NothingEntered(preds, dts.Lists(1));
      for i := 0 to |succs|
        invariant dts.Shape() && dts.Blank()
        invariant Entered(succs, dts.Lists(0), i, 0) && Entered(preds, dts.Lists(1), i, 0)
      {
        for k := 0 to |succs[i]|
          invariant dts.Shape() && dts.Blank()
          invariant Entered(succs, dts.Lists(0), i, k) && Entered(preds, dts.Lists(1), i, 0)
        {
          assert succs[i][k] < |succs|;
          EnterOne(succs, dts.Lists(0), i, k);
          dts.AddEdge(0, i + 1, succs[i][k] + 1);
        }
        NextVertex(succs, dts.Lists(0), i);
        for k := 0 to |preds[i]|
          invariant dts.Shape() && dts.Blank()
          invariant Entered(succs, dts.Lists(0), i + 1, 0) && Entered(preds, dts.Lists(1), i, k)
        {
          EnterOne(preds, dts.Lists(1), i, k);
          dts.AddEdge(1, i + 1, preds[i][k] + 1);
        }
        NextVertex(preds, dts.Lists(1), i);
      }
      AllEntered(succs, dts.Lists(0));
      AllEntered(preds, dts.Lists(1));
    }

    method ReadDominators(dts: DominatorTreeSolver)
      requires |dts.idm| == |succs| + 1
      modifies `dom_, `domChild
      ensures |dom_| == |succs| && IsChildren(dom_, domChild, |succs|, |succs|)
      ensures forall j :: 0 <= j < |succs| ==> dom_[j] + 1 == dts.idm[j + 1]
    {
      var size := |succs|;
      dom_ := [];
      domChild := seq(size, i => []);
      assert IsChildren(dom_, domChild, size, 0);
      hide IsChildren;
      for i := 0 to size
        invariant |dom_| == i && |domChild| == size && IsChildren(dom_, domChild, size, i)
        invariant forall j :: 0 <= j < i ==> dom_[j] + 1 == dts.idm[j + 1]
      {
        var idom: int := dts.Query(i + 1);
        ghost var dom0, child0 := dom_, domChild;
        dom_ := dom_ + [idom - 1];
        if i > 0 && 0 <= dom_[i] < size {
          domChild := domChild[dom_[i] := domChild[dom_[i]] + [i]];
        }
        AddChild(dom0, child0, size, i, idom - 1);
      }
    }

    method CalcDominatorTree()
      requires Valid()
      modifies `dom_, `domChild
      ensures IsDomTree(succs, dom_) && IsChildren(dom_, domChild, |succs|, |succs|)
    {
      hide IsIdom, Reachable, Chain, Listing, IsChildren, IsDomTree, Shifted, Converse;
      var dts := new DominatorTreeSolver();
      var size := |succs|;
      dts.Init(size);
      EnterEdges(dts);
      ghost var h := dts.Lists(0);
      ShiftedConverse(succs, preds, h, dts.Lists(1));
      dts.Tarjan(1);
      ReadDominators(dts);
      DomTreeFound(succs, h, dts.idm, dom_);
    }

    /** Everything on the walk up the dominator tree from `x`, below 0. */
    method Walk(x0: int) returns (s: set<nat>)
      requires Valid() && IsDomTree(succs, dom_) && x0 < |succs|
      ensures forall d: nat :: d in s <==> OnWalk(succs, x0, d)
    {
      s := {};
      var x := x0;
      while x > 0
        invariant x < |succs|
        invariant forall d: nat :: OnWalk(succs, x0, d) <==> d in s || OnWalk(succs, x, d)
        decreases if x > 0 then Dominators(succs, x) else {}, x
      {
        forall d: nat
          ensures OnWalk(succs, x, d) <==> (d == x || OnWalk(succs, dom_[x], d))
        {
          WalkStep(succs, dom_, x, d);
        }
        WalkStep(succs, dom_, x, 0);
        s := s + {x};
        x := dom_[x];
      }
    }

    /** The candidates at `u`: everything that dominates a predecessor. */
    method Candidates(u: nat) returns (cand: set<nat>)
      requires Valid() && IsDomTree(succs, dom_) && u < |succs|
      ensures forall d: nat :: d in cand <==> exists k :: 0 <= k < |preds[u]| && OnWalk(succs, preds[u][k], d)
    {
      cand := {};
      for k := 0 to |preds[u]|
        invariant forall d: nat :: d in cand <==> exists j :: 0 <= j < k && OnWalk(succs, preds[u][j], d)
      {
        assert preds[u][k] in preds[u] && preds[u][k] < |succs|;
        var s := Walk(preds[u][k]);
        cand := cand + s;
      }
    }

    method CalcFrontier()
      requires Valid() && IsDomTree(succs, dom_)
      modifies `frontier
      ensures |frontier| == |succs|
      ensures forall v: nat, x: nat :: v < |succs| && 0 < x < |succs| ==> (x in frontier[v] <==> Meets(succs, v, x))
      ensures forall v: nat, x: nat :: v < |succs| && x in frontier[v] ==> 0 < x < |succs|
    {
      hide Meets, IsDomTree, Reachable, Converses, OnWalk;
      var size := |succs|;
      frontier := seq(size, v => {});
      for i := 1 to size
        invariant |frontier| == size
        invariant forall v: nat, x: nat :: v < size && 0 < x < i ==> (x in frontier[v] <==> Meets(succs, v, x))
        invariant forall v: nat, x: nat :: v < size && x in frontier[v] ==> 0 < x < i
      {
        DomTreeSize(succs, dom_, i);
        var cand := Candidates(i);
        var above := Walk(dom_[i]);
        CandidatesInRange(succs, preds, cand, i);
        forall v: nat | v < size
          ensures v in cand - above <==> Meets(succs, v, i)
        {
          MeetsIs(succs, preds, dom_, cand, above, v, i);
        }
        EmplaceAll(cand - above, i);
      }
    }

    /** The blocks that get a phi for a variable defined in `defBlocks` and live on entry to the blocks of `liveIn`. */
    method AddPhi(defBlocks: set<nat>, liveIn: set<nat>) returns (visited: set<nat>)
      requires |frontier| == |succs| && forall u, v :: 0 <= u < |frontier| && v in frontier[u] ==> v < |succs|
      requires forall u :: u in defBlocks ==> u < |succs|
      ensures LeastPhis(frontier, defBlocks, liveIn, visited) && forall v :: v in visited ==> v < |succs|
    {
      hide Placing, LeastPhis;
      var q;
      visited, q := AddDefinitions(defBlocks, liveIn);
      while q != []
        invariant (forall v :: v in visited ==> v < |succs|) && Elems(q) <= visited
        invariant Placing(frontier, defBlocks, liveIn, visited, Elems(q))
        decreases NodesBelow(|succs|) - visited, |q|
      {
        var u := q[0];
        QueueHead(q);
        ghost var before, q0 := visited, q;
        visited, q := Add(u, liveIn, visited, q[1..]);
        PlaceOne(frontier, defBlocks, liveIn, before, visited, Elems(q0), u, Elems(q));
        PlacedMore(before, visited, q0[1..], q, |succs|);
      }
      EmptyQueue();
      AllPlaced(frontier, defBlocks, liveIn, visited);
    }

    /** The frontiers of the blocks that define the variable. */
    method AddDefinitions(defBlocks: set<nat>, liveIn: set<nat>) returns (visited: set<nat>, q: seq<nat>)
      requires |frontier| == |succs| && forall u, v :: 0 <= u < |frontier| && v in frontier[u] ==> v < |succs|
      requires forall u :: u in defBlocks ==> u < |succs|
      ensures (forall v :: v in visited ==> v < |succs|) && Elems(q) == visited
      ensures Placing(frontier, defBlocks, liveIn, visited, Elems(q))
    {
      hide Placing, Elems, InRange;
      visited, q := {}, [];
      var rest := defBlocks;
      NothingPlaced(frontier, defBlocks, liveIn);
      EmptyQueue();
      NothingInRange(|succs|);
      assert rest + visited == defBlocks;
      while rest != {}
        invariant rest <= defBlocks && InRange(visited, |succs|) && Elems(q) == visited
        invariant Placing(frontier, defBlocks, liveIn, visited, rest + visited)
        decreases |rest|
      {
        var u :| u in rest;
        assert InRange(frontier[u], |succs|) by {
          FrontierInRange(frontier, |succs|, u);
        }
        ghost var before := visited;
        visited, q := Add(u, liveIn, visited, q);
        PlaceDefinition(frontier, |succs|, defBlocks, liveIn, before, visited, rest, u);
        rest := rest - {u};
      }
      assert rest + visited == visited;
      AllInRange(visited, |succs|);
    }

    /** Queue the blocks of the frontier of `u` where the variable is live and that have no phi yet. */
    method Add(u: nat, liveIn: set<nat>, visited0: set<nat>, q0: seq<nat>) returns (visited: set<nat>, q: seq<nat>)
      requires u < |frontier|
      ensures visited == visited0 + (frontier[u] * liveIn)
      ensures Elems(q) == Elems(q0) + (visited - visited0) && (visited == visited0 ==> q == q0)
    {
      visited, q := visited0, q0;
      var rest := frontier[u];
      while rest != {}
        invariant rest <= frontier[u] && Adding(frontier[u] - rest, liveIn, visited0, q0, visited, q)
        decreases |rest|
      {
        var v :| v in rest;
        AddOne(frontier[u] - rest, liveIn, visited0, q0, visited, q, v);
        assert frontier[u] - (rest - {v}) == frontier[u] - rest + {v};
        if v !in visited && v in liveIn {
          q := q + [v];
          visited := visited + {v};
        }
        rest := rest - {v};
      }
      assert frontier[u] - {} == frontier[u];
    }

    /** Enter `u` in the frontier of every vertex of `cand`. */
    method EmplaceAll(cand: set<nat>, u: nat)
      requires |frontier| == |succs| && forall v :: v in cand ==> v < |succs|
      modifies `frontier
      ensures |frontier| == |succs|
      ensures forall v: nat, x: nat :: v < |succs| ==>
          (x in frontier[v] <==> x in old(frontier)[v] || (x == u && v in cand))
    {
      var rest := cand;
      while rest != {}
        invariant rest <= cand && |frontier| == |succs|
        invariant forall v: nat, x: nat :: v < |succs| ==>
            (x in frontier[v] <==> x in old(frontier)[v] || (x == u && v in cand - rest))
        decreases |rest|
      {
        var v :| v in rest;
        frontier := frontier[v := frontier[v] + {u}];
        rest := rest - {v};
      }
    }
  }

  /** The lists hold the edges of the vertices before `i`, and the first `k` of vertex `i`. */
  ghost predicate Entered(g: Graph, h: Graph, i: nat, k: nat) {
    && |h| == |g| + 1 && h[0] == []
    && (forall x: nat, y: nat {:trigger y in h[x]} :: 1 <= x < |h| ==>
      (y in h[x] <==> y > 0 && EnteredEdge(g, i, k, Lower(x), Lower(y))))
  }

  ghost predicate EnteredEdge(g: Graph, i: nat, k: nat, u: nat, v: nat) {
    u < |g| && ((u < i && v in g[u]) || (u == i && k <= |g[u]| && v in g[u][..k]))
  }

  lemma NothingEntered(g: Graph, h: Graph)
    requires |h| == |g| + 1 && forall u :: 0 <= u < |h| ==> h[u] == []
    ensures Entered(g, h, 0, 0)
  {
  }

  lemma EnterOne(g: Graph, h: Graph, i: nat, k: nat)
    requires Entered(g, h, i, k) && i < |g| && k < |g[i]|
    ensures Entered(g, h[i + 1 := [g[i][k] + 1] + h[i + 1]], i, k + 1)
  {
    assert g[i][..k + 1] == g[i][..k] + [g[i][k]];
    assert forall v :: v in g[i][..k + 1] <==> v in g[i][..k] || v == g[i][k];
  }

  lemma NextVertex(g: Graph, h: Graph, i: nat)
    requires i < |g| && Entered(g, h, i, |g[i]|)
    ensures Entered(g, h, i + 1, 0)
  {
    assert g[i][..|g[i]|] == g[i];
    forall u: nat, v: nat
      ensures EnteredEdge(g, i + 1, 0, u, v) <==> EnteredEdge(g, i, |g[i]|, u, v)
    {
    }
  }

  lemma AllEntered(g: Graph, h: Graph)
    requires Entered(g, h, |g|, 0)
    ensures Shifted(g, h)
  {
    forall x: nat, y: nat | 1 <= x < |h|
      ensures y in h[x] <==> y > 0 && Lower(y) in g[Lower(x)]
    {
      assert y in h[x] <==> y > 0 && EnteredEdge(g, |g|, 0, Lower(x), Lower(y));
    }
  }

  lemma ShiftedConverse(g: Graph, back: Graph, h: Graph, hback: Graph)
    requires Converses(g, back) && Shifted(g, h) && Shifted(back, hback)
    ensures Converse(h, hback)
  {
    forall u, v | 1 <= u < |h| && 1 <= v < |h|
      ensures v in h[u] <==> u in hback[v]
    {
      assert v in h[u] <==> Lower(v) in g[Lower(u)];
      assert u in hback[v] <==> Lower(u) in back[Lower(v)];
    }
  }

  lemma IdomDominates(g: Graph, d: nat, v: nat)
    requires IsIdom(g, 0, d, v)
    ensures StrictlyDominates(g, 0, d, v)
  {
  }

  lemma DomTreeSize(g: Graph, dom: seq<int>, i: nat)
    requires IsDomTree(g, dom) && i < |g|
    ensures |dom| == |g| && dom[i] < |g|
  {
  }

  /** The immediate dominators come back with the numbers from 0. */
  lemma DomTreeFound(g: Graph, h: Graph, idm: seq<nat>, dom: seq<int>)
    requires Shifted(g, h) && WellFormed(g) && 0 < |g| && |idm| == |h| && |dom| == |g| && forall i ::
        0 <= i < |dom| ==> dom[i] + 1 == idm[i + 1]
    requires forall v :: 1 <= v < |h| && v != 1 && Reachable(h, 1, v) ==> IsIdom(h, 1, idm[v], v)
    requires forall v :: 1 <= v < |h| && (v == 1 || !Reachable(h, 1, v)) ==> idm[v] == 0
    ensures IsDomTree(g, dom)
  {
    assert |h| == |g| + 1;
    hide IsIdom, Shifted;
    forall v: nat | v < |g|
      ensures v != 0 && Reachable(g, 0, v) ==> dom[v] >= 0 && IsIdom(g, 0, dom[v], v) && dom[v] < |g|
      ensures v == 0 || !Reachable(g, 0, v) ==> dom[v] == -1
    {
      ShiftedReachable(g, h, v);
      assert idm[v + 1] == dom[v] + 1;
      if v != 0 && Reachable(g, 0, v) {
        ShiftedIdom(g, h, idm[v + 1], v);
        IdomDominates(g, dom[v], v);
        DominatorReachable(g, dom[v], v);
      }
    }
  }

  // ---- Phi placement ----

  /** The vertices of `seen` have been looked at. */
  ghost predicate Adding(seen: set<nat>, liveIn: set<nat>, visited0: set<nat>, q0: seq<nat>, visited: set<nat>,
      q: seq<nat>) {
    visited == visited0 + seen * liveIn && Elems(q) == Elems(q0) + (visited - visited0) &&
      (visited == visited0 ==> q == q0)
  }

  lemma AddOne(seen: set<nat>, liveIn: set<nat>, visited0: set<nat>, q0: seq<nat>, visited: set<nat>, q: seq<nat>,
      v: nat)
    requires Adding(seen, liveIn, visited0, q0, visited, q)
    ensures v !in visited && v in liveIn ==> Adding(seen + {v}, liveIn, visited0, q0, visited + {v}, q + [v])
    ensures !(v !in visited && v in liveIn) ==> Adding(seen + {v}, liveIn, visited0, q0, visited, q)
  {
    assert Elems(q + [v]) == Elems(q) + {v};
  }

  lemma PlaceOne(frontier: seq<set<nat>>, defs: set<nat>, live: set<nat>, before: set<nat>, phis: set<nat>,
      todo: set<nat>, u: nat, left: set<nat>)
    requires Placing(frontier, defs, live, before, todo) && u in todo && (u in defs || u in before) && u < |frontier|
    requires phis == before + frontier[u] * live && todo - {u} + (phis - before) <= left
    ensures Placing(frontier, defs, live, phis, left)
  {
    forall s | PhiClosed(frontier, defs, live, s)
      ensures phis <= s
    {
    }
  }

  ghost predicate InRange(s: set<nat>, n: nat) {
    forall v :: v in s ==> v < n
  }

  lemma FrontierInRange(frontier: seq<set<nat>>, n: nat, u: nat)
    requires u < |frontier| && forall w, v :: 0 <= w < |frontier| && v in frontier[w] ==> v < n
    ensures InRange(frontier[u], n)
  {
  }

  lemma NothingInRange(n: nat)
    ensures InRange({}, n)
  {
  }

  lemma AllInRange(s: set<nat>, n: nat)
    requires InRange(s, n)
    ensures forall v :: v in s ==> v < n
  {
  }

  lemma PlaceDefinition(frontier: seq<set<nat>>, n: nat, defs: set<nat>, live: set<nat>, before: set<nat>,
      phis: set<nat>, rest: set<nat>, u: nat)
    requires Placing(frontier, defs, live, before, rest + before) && u in rest && u in defs && u < |frontier|
    requires phis == before + frontier[u] * live && InRange(before, n) && InRange(frontier[u], n)
    ensures Placing(frontier, defs, live, phis, rest - {u} + phis) && InRange(phis, n)
  {
    hide Placing;
    PlaceOne(frontier, defs, live, before, phis, rest + before, u, rest - {u} + phis);
  }

  lemma PlacedMore(before: set<nat>, visited: set<nat>, q0: seq<nat>, q: seq<nat>, n: nat)
    requires before <= visited && (forall v :: v in visited ==> v < n) && (visited == before ==> q == q0)
    ensures NodesBelow(n) - visited < NodesBelow(n) - before || (visited == before && q == q0)
  {
    if visited != before {
      var v :| v in visited && v !in before;
      assert v in NodesBelow(n) - before && v !in NodesBelow(n) - visited;
    }
  }

  /** With every vertex that defines the variable or has a phi for it, `phis` has the live vertices of its frontier. */
  ghost predicate PhiClosed(frontier: seq<set<nat>>, defs: set<nat>, live: set<nat>, phis: set<nat>) {
    forall u, v :: (u in defs || u in phis) && u < |frontier| && v in frontier[u] && v in live ==> v in phis
  }

  /** The least such set. */
  ghost predicate LeastPhis(frontier: seq<set<nat>>, defs: set<nat>, live: set<nat>, phis: set<nat>) {
    PhiClosed(frontier, defs, live, phis) && forall s :: PhiClosed(frontier, defs, live, s) ==> phis <= s
  }

  /** While `todo` is still to be processed. */
  ghost predicate Placing(frontier: seq<set<nat>>, defs: set<nat>, live: set<nat>, phis: set<nat>, todo: set<nat>) {
    && (forall u, v :: (u in defs || u in phis) && u !in todo && u < |frontier| && v in frontier[u] && v in live ==>
      v in phis)
    && (forall s :: PhiClosed(frontier, defs, live, s) ==> phis <= s)
  }

  lemma EmptyQueue()
    ensures Elems([]) == {}
  {
  }

  lemma QueueHead(q: seq<nat>)
    requires q != []
    ensures q[0] in Elems(q) && Elems(q) == Elems(q[1..]) + {q[0]}
  {
    assert q == [q[0]] + q[1..];
  }

  lemma NothingPlaced(frontier: seq<set<nat>>, defs: set<nat>, live: set<nat>)
    ensures Placing(frontier, defs, live, {}, defs)
  {
  }

  lemma AllPlaced(frontier: seq<set<nat>>, defs: set<nat>, live: set<nat>, phis: set<nat>)
    requires Placing(frontier, defs, live, phis, {})
    ensures LeastPhis(frontier, defs, live, phis)
  {
  }

  /** A path into `b` that avoids its immediate dominator `z` starts strictly below `z`. */
  lemma BelowIdom(g: Graph, z: nat, b: nat, q: seq<nat>)
    requires StrictlyDominates(g, 0, z, b) && IsPath(g, q) && q[|q| - 1] == b && z !in q
    ensures StrictlyDominates(g, 0, z, q[0])
  {
    forall p | PathFromTo(g, 0, q[0], p)
      ensures z in p
    {
      JoinPaths(g, 0, q[0], b, p, q);
      assert z in p + q[1..];
    }
    assert q[0] in q;
  }

  /** The first vertex after the start of `q` that its start does not strictly dominate. */
  lemma LeavesDominance(g: Graph, q: seq<nat>) returns (j: nat)
    requires IsPath(g, q) && |q| > 1 && !StrictlyDominates(g, 0, q[0], q[|q| - 1])
    ensures 0 < j < |q| && !StrictlyDominates(g, 0, q[0], q[j]) && Dominates(g, 0, q[0], q[j - 1])
  {
    j := 1;
    DominatesItself(g, q[0]);
    while StrictlyDominates(g, 0, q[0], q[j])
      invariant 0 < j < |q| && Dominates(g, 0, q[0], q[j - 1])
      decreases |q| - j
    {
      j := j + 1;
    }
  }

  /** The variable stays live backwards until it is defined. */
  ghost predicate LiveBackwards(g: Graph, defs: set<nat>, live: set<nat>) {
    forall u: nat, v: nat :: Reachable(g, 0, u) && Edge(g, u, v) && v in live && u !in defs ==> u in live
  }

  /** What `CalcFrontier` establishes. */
  ghost predicate IsFrontier(g: Graph, frontier: seq<set<nat>>) {
    && |frontier| == |g|
    && forall v: nat, x: nat :: v < |g| && 0 < x < |g| && Reachable(g, 0, v) ==>
      (x in frontier[v] <==> InFrontier(g, v, x))
  }

  ghost predicate RootHasNoPredecessor(g: Graph) {
    forall u: nat :: !Edge(g, u, 0)
  }

  /** The placement suffices: where the variable is live and `b` has no phi, no vertex between the immediate dominator
   * of `b` and `b` defines it. */
  lemma {:induction false} NoDefinitionBetween(g: Graph, frontier: seq<set<nat>>, defs: set<nat>, live: set<nat>,
      phis: set<nat>, z: nat, b: nat, q: seq<nat>)
    requires WellFormed(g) && RootHasNoPredecessor(g) && IsFrontier(g, frontier) &&
        PhiClosed(frontier, defs, live, phis) && LiveBackwards(g, defs, live)
    requires IsIdom(g, 0, z, b) && Reachable(g, 0, b) && b in live && b !in phis
    requires IsPath(g, q) && q[|q| - 1] == b && z !in q && Reachable(g, 0, q[0])
    ensures forall i :: 0 <= i < |q| - 1 ==> q[i] !in defs && q[i] !in phis
    ensures |q| > 1 && (forall i :: 1 <= i < |q| - 1 ==> q[i] !in defs) ==> q[1] in live
    ensures forall i :: 1 <= i < |q| ==> q[i] in live
    decreases |q|
  {
    if |q| > 1 {
      var rest := q[1..];
      assert rest[0] == q[1] && Edge(g, q[0], q[1]);
      forall i | 0 <= i < |rest| - 1
        ensures Edge(g, rest[i], rest[i + 1])
      {
        assert Edge(g, q[i + 1], q[i + 2]);
      }
      SuccessorReachable(g, q[0], q[1]);
      NoDefinitionBetween(g, frontier, defs, live, phis, z, b, rest);
      assert rest[0] in live by {
        if |rest| > 1 {
          assert Edge(g, rest[0], rest[1]) && rest[1] in live;
        }
      }
      forall i | 1 <= i < |q|
        ensures q[i] in live
      {
        assert q[i] == rest[i - 1];
      }
      forall i | 1 <= i < |q| - 1
        ensures q[i] !in defs && q[i] !in phis
      {
        assert q[i] == rest[i - 1];
      }
      FirstIsNoDefinition(g, frontier, defs, live, phis, z, b, q);
    }
  }

  lemma PathReaches(g: Graph, v: nat, p: seq<nat>)
    requires PathFromTo(g, 0, v, p)
    ensures Reachable(g, 0, v)
  {
  }

  lemma FirstIsNoDefinition(g: Graph, frontier: seq<set<nat>>, defs: set<nat>, live: set<nat>, phis: set<nat>, z: nat,
      b: nat, q: seq<nat>)
    requires WellFormed(g) && RootHasNoPredecessor(g) && IsFrontier(g, frontier) &&
        PhiClosed(frontier, defs, live, phis)
    requires IsIdom(g, 0, z, b) && Reachable(g, 0, b) && b !in phis
    requires IsPath(g, q) && |q| > 1 && q[|q| - 1] == b && z !in q && Reachable(g, 0, q[0])
    requires forall i :: 1 <= i < |q| ==> q[i] in live
    requires forall i :: 1 <= i < |q| - 1 ==> q[i] !in phis
    ensures q[0] !in defs && q[0] !in phis
  {
    BelowIdom(g, z, b, q);
    if StrictlyDominates(g, 0, q[0], b) {
      DominatesAntisymmetric(g, q[0], z);
    }
    var j := LeavesDominance(g, q);
    assert Edge(g, q[j - 1], q[j]);
    SubPath(g, q, 0, j - 1);
    var p: seq<nat> :| PathFromTo(g, 0, q[0], p);
    var r: seq<nat> := q[0..j];
    JoinPaths(g, 0, q[0], q[j - 1], p, r);
    PathReaches(g, q[j - 1], p + r[1..]);
    assert DominatedEdge(g, q[0], q[j - 1], q[j]);
    assert q[j] in frontier[q[0]];
  }

  lemma CandidatesInRange(g: Graph, preds: Graph, cand: set<nat>, x: nat)
    requires Converses(g, preds) && x < |g|
    requires forall d: nat :: d in cand <==> exists k :: 0 <= k < |preds[x]| && OnWalk(g, preds[x][k], d)
    ensures forall d :: d in cand ==> d < |g|
  {
    forall d | d in cand
      ensures d < |g|
    {
      var k :| 0 <= k < |preds[x]| && OnWalk(g, preds[x][k], d);
      if d != preds[x][k] {
        DominatorReachable(g, d, preds[x][k]);
      }
    }
  }

  lemma MeetsIs(g: Graph, preds: Graph, dom: seq<int>, cand: set<nat>, above: set<nat>, v: nat, x: nat)
    requires IsDomTree(g, dom) && Converses(g, preds) && v < |g| && 0 < x < |g|
    requires forall d: nat :: d in cand <==> exists k :: 0 <= k < |preds[x]| && OnWalk(g, preds[x][k], d)
    requires forall d: nat :: d in above <==> OnWalk(g, dom[x], d)
    ensures v in cand - above <==> Meets(g, v, x)
  {
    if Reachable(g, 0, v) {
      FrontierIs(g, preds, dom, cand, above, v, x);
    } else {
      LooseIs(g, preds, dom, cand, above, v, x);
    }
  }

  /** A block that no path leads to is a candidate right behind itself only. */
  lemma LooseIs(g: Graph, preds: Graph, dom: seq<int>, cand: set<nat>, above: set<nat>, v: nat, x: nat)
    requires IsDomTree(g, dom) && Converses(g, preds) && v < |g| && 0 < x < |g| && !Reachable(g, 0, v)
    requires forall d: nat :: d in cand <==> exists k :: 0 <= k < |preds[x]| && OnWalk(g, preds[x][k], d)
    requires forall d: nat :: d in above <==> OnWalk(g, dom[x], d)
    ensures v in cand - above <==> Edge(g, v, x)
  {
    SinglePath(g, 0);
    assert v != 0;
    forall p: int
      ensures OnWalk(g, p, v) <==> p == v
    {
      if OnWalk(g, p, v) && p != v {
        DominatorReachable(g, v, p);
      }
    }
    if dom[x] == v {
      DominatorReachable(g, v, x);
    }
    if Edge(g, v, x) {
      assert v in preds[x];
      var k :| 0 <= k < |preds[x]| && preds[x][k] == v;
      assert OnWalk(g, preds[x][k], v);
    }
    if v in cand {
      var k :| 0 <= k < |preds[x]| && OnWalk(g, preds[x][k], v);
      assert preds[x][k] in preds[x];
    }
  }

  lemma FrontierIs(g: Graph, preds: Graph, dom: seq<int>, cand: set<nat>, above: set<nat>, v: nat, x: nat)
    requires IsDomTree(g, dom) && Converses(g, preds) && v < |g| && Reachable(g, 0, v) && 0 < x < |g|
    requires forall d: nat :: d in cand <==> exists k :: 0 <= k < |preds[x]| && OnWalk(g, preds[x][k], d)
    requires forall d: nat :: d in above <==> OnWalk(g, dom[x], d)
    ensures v in cand - above <==> InFrontier(g, v, x)
  {
    DominatesItself(g, v);
    if v in cand - above {
      var k :| 0 <= k < |preds[x]| && OnWalk(g, preds[x][k], v);
      var p := preds[x][k];
      assert p in preds[x];
      assert DominatedEdge(g, v, p, x);
      SuccessorReachable(g, p, x);
      OnlyRootDominatesRoot(g, v);
      StrictIsAbove(g, dom, v, x);
    }
    if InFrontier(g, v, x) {
      RootDominates(g, x);
      var p: nat :| DominatedEdge(g, v, p, x);
      OnlyRootDominatesRoot(g, v);
      assert p in preds[x];
      var k :| 0 <= k < |preds[x]| && preds[x][k] == p;
      SuccessorReachable(g, p, x);
      NotAbove(g, dom, v, x);
    }
  }

  /** What the walk above `x` meets dominates `x` strictly. */
  lemma NotAbove(g: Graph, dom: seq<int>, v: nat, x: nat)
    requires IsDomTree(g, dom) && 0 < x < |g| && Reachable(g, 0, x) && Reachable(g, 0, v)
    ensures OnWalk(g, dom[x], v) ==> StrictlyDominates(g, 0, v, x)
  {
    if OnWalk(g, dom[x], v) {
      DominatesItself(g, dom[x]);
      IdomHasFewer(g, dom[x], x);
      DominatorsUp(g, dom[x], x, v);
      DominatorReachable(g, v, dom[x]);
      assert v in Dominators(g, dom[x]);
      DominatesItself(g, x);
      assert x in Dominators(g, x);
      StrictNotBelow(g, dom[x], x);
    }
  }

  lemma StrictNotBelow(g: Graph, z: nat, x: nat)
    requires IsIdom(g, 0, z, x) && Reachable(g, 0, x)
    ensures !Dominates(g, 0, x, z)
  {
    if Dominates(g, 0, x, z) {
      DominatesAntisymmetric(g, x, z);
    }
  }

  lemma StrictIsAbove(g: Graph, dom: seq<int>, v: nat, x: nat)
    requires IsDomTree(g, dom) && 0 < x < |g| && Reachable(g, 0, x) && 0 < v
    ensures StrictlyDominates(g, 0, v, x) ==> OnWalk(g, dom[x], v)
  {
    DominatorReachable(g, dom[x], x);
    OnlyRootDominatesRoot(g, v);
  }

  lemma OnlyRootDominatesRoot(g: Graph, d: nat)
    requires 0 < |g|
    ensures Dominates(g, 0, d, 0) ==> d == 0
  {
    SinglePath(g, 0);
    if Dominates(g, 0, d, 0) {
      assert d in [0];
    }
  }
}
