/** Directed graphs as successor lists, paths, reachability and dominance. */
module Graphs {
  /** Vertex `u` has the successor list `g[u]`. */
  type Graph = seq<seq<nat>>

  ghost function Elems(s: seq<nat>): (r: set<nat>) {
    set x | x in s
  }

  ghost predicate Below(v: int, n: nat) {
    v < n
  }

  ghost function NodesBelow(n: nat): (s: set<nat>) {
    set v | 0 <= v < n && Below(v, n)
  }

  predicate WellFormed(g: Graph) {
    forall u, k :: 0 <= u < |g| && 0 <= k < |g[u]| ==> g[u][k] < |g|
  }

  /** `preds` lists the predecessors that `g` gives. */
  predicate Converses(g: Graph, preds: Graph) {
    && |preds| == |g| && WellFormed(g) && WellFormed(preds)
    && forall u, v :: 0 <= u < |g| && 0 <= v < |g| ==> (v in g[u] <==> u in preds[v])
  }

  predicate Edge(g: Graph, u: nat, v: nat) {
    u < |g| && v in g[u]
  }

  predicate IsPath(g: Graph, p: seq<nat>) {
    && |p| > 0
    && (forall i :: 0 <= i < |p| ==> p[i] < |g|)
    && (forall i :: 0 <= i < |p| - 1 ==> Edge(g, p[i], p[i + 1]))
  }

  predicate PathFromTo(g: Graph, u: nat, v: nat, p: seq<nat>) {
    IsPath(g, p) && p[0] == u && p[|p| - 1] == v
  }

  ghost predicate Reachable(g: Graph, u: nat, v: nat) {
    exists p :: PathFromTo(g, u, v, p)
  }

  /** Every path from the root `r` to `w` meets `d`. */
  ghost predicate Dominates(g: Graph, r: nat, d: nat, w: nat) {
    forall p :: PathFromTo(g, r, w, p) ==> d in p
  }

  ghost predicate StrictlyDominates(g: Graph, r: nat, d: nat, w: nat) {
    d != w && Dominates(g, r, d, w)
  }

  /** `z` strictly dominates `w`, and every strict dominator of `w` dominates `z`. */
  ghost predicate IsIdom(g: Graph, r: nat, z: nat, w: nat) {
    && StrictlyDominates(g, r, z, w)
    && (forall d :: StrictlyDominates(g, r, d, w) ==> Dominates(g, r, d, z))
  }

  lemma SinglePath(g: Graph, u: nat)
    requires u < |g|
    ensures PathFromTo(g, u, u, [u])
  {
  }

  /** Two paths that share an end point join into one. */
  lemma JoinPaths(g: Graph, u: nat, v: nat, w: nat, p: seq<nat>, q: seq<nat>)
    requires PathFromTo(g, u, v, p) && PathFromTo(g, v, w, q)
    ensures PathFromTo(g, u, w, p + q[1..])
  {
    var r := p + q[1..];
    forall i | 0 <= i < |r| - 1
      ensures Edge(g, r[i], r[i + 1])
    {
      if i < |p| - 1 {
        assert r[i] == p[i] && r[i + 1] == p[i + 1];
      } else {
        assert r[i] == q[i - |p| + 1] && r[i + 1] == q[i - |p| + 2];
      }
    }
  }

  /** Any stretch of a path is a path. */
  lemma SubPath(g: Graph, p: seq<nat>, i: nat, j: nat)
    requires IsPath(g, p) && i <= j < |p|
    ensures PathFromTo(g, p[i], p[j], p[i..j + 1])
  {
    var q := p[i..j + 1];
    forall k | 0 <= k < |q| - 1
      ensures Edge(g, q[k], q[k + 1])
    {
      assert q[k] == p[i + k] && q[k + 1] == p[i + k + 1];
    }
  }

  lemma ExtendPath(g: Graph, u: nat, v: nat, w: nat, p: seq<nat>)
    requires PathFromTo(g, u, v, p) && Edge(g, v, w) && w < |g|
    ensures PathFromTo(g, u, w, p + [w])
  {
    JoinPaths(g, u, v, w, p, [v, w]);
    assert [v, w][1..] == [w];
  }

  lemma SuccessorReachable(g: Graph, u: nat, v: nat)
    requires Reachable(g, 0, u) && Edge(g, u, v) && v < |g|
    ensures Reachable(g, 0, v)
  {
    var p :| PathFromTo(g, 0, u, p);
    ExtendPath(g, 0, u, v, p);
  }

  /** A dominator of the target of an edge, other than the target, dominates the source. */
  lemma DominatesSource(g: Graph, b: nat, v: nat, w: nat)
    requires Edge(g, b, v) && v < |g| && w != v && Dominates(g, 0, w, v)
    ensures Dominates(g, 0, w, b)
  {
    forall p | PathFromTo(g, 0, b, p)
      ensures w in p
    {
      ExtendPath(g, 0, b, v, p);
      assert w in p + [v];
    }
  }
}
