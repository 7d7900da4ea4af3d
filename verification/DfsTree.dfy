/**
 * Depth-first spanning trees in the numbering of the search, and the theory of
 * semidominators on them.  Vertices are the numbers 1..m given by the search; 1 is the root.
 */
module DfsTrees {
  import opened Graphs

  /** `par[i]` is the tree parent of `i` and `i..fin[i]` are the numbers given below `i`. */
  datatype DfsTree = DfsTree(g: Graph, par: seq<nat>, fin: seq<nat>) {
    ghost predicate Valid() {
      && |g| == |par| == |fin| && |g| >= 2
      && (forall i :: 1 <= i < |g| ==> i <= fin[i] < |g|)
      && fin[1] == |g| - 1
      && (forall i, j :: 1 <= i <= j < |g| && j <= fin[i] ==> fin[j] <= fin[i])
      && (forall i :: 2 <= i < |g| ==> 1 <= par[i] < i <= fin[par[i]] && Edge(g, par[i], i))
      && (forall x, i :: 1 <= x < i < |g| && i <= fin[x] ==> x <= par[i])
      && (forall x: nat, y: nat :: Edge(g, x, y) ==> 1 <= x && 1 <= y < |g| && (x < y ==> y <= fin[x]))
    }

    /** `a` is an ancestor of `b`, or `b` itself. */
    predicate Anc(a: nat, b: nat) {
      1 <= a <= b < |fin| && b <= fin[a]
    }
  }

  /** A path from `v` to `w` whose inner vertices all come after `w`. */
  predicate IsSdomPath(t: DfsTree, v: nat, w: nat, p: seq<nat>) {
    PathFromTo(t.g, v, w, p) && |p| >= 2 && forall i :: 0 < i < |p| - 1 ==> p[i] > w
  }

  /** `s` is the semidominator of `w`: the least start of such a path. */
  ghost predicate IsSdom(t: DfsTree, w: nat, s: nat) {
    && (exists p :: IsSdomPath(t, s, w, p))
    && (forall v, p :: IsSdomPath(t, v, w, p) ==> s <= v)
  }

  /** The tree path between an ancestor and a descendant. */
  lemma TreePath(t: DfsTree, a: nat, b: nat) returns (p: seq<nat>)
    requires t.Valid() && t.Anc(a, b)
    ensures PathFromTo(t.g, a, b, p)
    ensures forall i :: 0 <= i < |p| ==> a <= p[i] && t.Anc(p[i], b)
    ensures a < b ==> |p| >= 2
    decreases b
  {
    if a == b {
      p := [a];
    } else {
      var q := TreePath(t, a, t.par[b]);
      ExtendPath(t.g, a, t.par[b], b, q);
      p := q + [b];
      forall i | 0 <= i < |p|
        ensures a <= p[i] && t.Anc(p[i], b)
      {
        if i < |q| {
          assert t.Anc(q[i], t.par[b]);
        }
      }
    }
  }

  /** The first vertex of a path is an ancestor of every later one when none of them is smaller. */
  lemma {:induction false} LeastIsAncestor(t: DfsTree, p: seq<nat>, k: nat)
    requires t.Valid() && IsPath(t.g, p) && k < |p|
    requires 1 <= p[0] && forall i :: 0 <= i <= k ==> p[0] <= p[i]
    ensures t.Anc(p[0], p[k])
  {
    if k > 0 {
      LeastIsAncestor(t, p, k - 1);
      assert Edge(t.g, p[k - 1], p[k]);
    }
  }

  /** A least inner vertex of a path, at its first occurrence, among positions lo..hi. */
  lemma LeastOnPath(p: seq<nat>, lo: nat, hi: nat) returns (j: nat)
    requires lo <= hi < |p|
    ensures lo <= j <= hi
    ensures forall i :: lo <= i <= hi ==> p[j] <= p[i]
    ensures forall i :: lo <= i < j ==> p[j] < p[i]
    decreases hi - lo
  {
    if lo == hi {
      j := lo;
    } else {
      j := LeastOnPath(p, lo, hi - 1);
      if p[hi] < p[j] { j := hi; }
    }
  }

  lemma PathStaysNumbered(t: DfsTree, p: seq<nat>, i: nat)
    requires t.Valid() && IsPath(t.g, p) && |p| >= 2 && i < |p|
    ensures 1 <= p[i]
  {
    if i < |p| - 1 {
      assert Edge(t.g, p[i], p[i + 1]);
    } else {
      assert Edge(t.g, p[i - 1], p[i]);
    }
  }

  // ---- The recurrence for semidominators ----

  /** A candidate met on an in-edge of `w` starts a path that witnesses the semidominator bound. */
  lemma CandidateBounds(t: DfsTree, w: nat, v: nat, x: nat, sx: nat)
    requires t.Valid() && 2 <= w < |t.g| && Edge(t.g, v, w)
    requires w < x && t.Anc(x, v) && IsSdom(t, x, sx)
    ensures exists p :: IsSdomPath(t, sx, w, p)
  {
    var q :| IsSdomPath(t, sx, x, q);
    var r := TreePath(t, x, v);
    JoinPaths(t.g, sx, x, v, q, r);
    var p := q + r[1..];
    ExtendPath(t.g, sx, v, w, p);
    var pw := p + [w];
    forall i | 0 < i < |pw| - 1
      ensures pw[i] > w
    {
      if i < |q| - 1 {
        assert pw[i] == q[i];
      } else if i < |q| {
        assert pw[i] == x;
      } else {
        assert pw[i] == r[1..][i - |q|] == r[i - |q| + 1];
      }
    }
    assert IsSdomPath(t, sx, w, pw);
  }

  /** The end of a semidominator path gives a candidate at most its start. */
  lemma PathGivesCandidate(t: DfsTree, v0: nat, w: nat, p: seq<nat>) returns (v: nat, x: nat)
    requires t.Valid() && 2 <= w < |t.g| && IsSdomPath(t, v0, w, p)
    ensures Edge(t.g, v, w)
    ensures (v == v0 == x && |p| == 2) || (w < x && t.Anc(x, v) && exists q :: IsSdomPath(t, v0, x, q))
  {
    var k := |p| - 1;
    v := p[k - 1];
    assert Edge(t.g, p[k - 1], p[k]);
    if k == 1 {
      x := v;
    } else {
      var j := LeastOnPath(p, 1, k - 1);
      x := p[j];
      SubPath(t.g, p, j, k - 1);
      var s := p[j..k];
      PathStaysNumbered(t, p, j);
      forall i | 0 <= i < |s|
        ensures s[0] <= s[i]
      {
        assert s[i] == p[j + i];
      }
      LeastIsAncestor(t, s, |s| - 1);
      assert s[|s| - 1] == v;
      SubPath(t.g, p, 0, j);
      var q := p[0..j + 1];
      assert IsSdomPath(t, v0, x, q);
    }
  }

  /**
   * `s` is the semidominator of `w` when it is the least candidate: an in-neighbour before `w`, or
   * the semidominator of an ancestor, later than `w`, of an in-neighbour.
   */
  lemma SdomRecurrence(t: DfsTree, w: nat, s: nat, sd: seq<nat>)
    requires t.Valid() && 2 <= w < |t.g| && |sd| == |t.g|
    requires forall x :: w < x < |t.g| ==> IsSdom(t, x, sd[x])
    requires forall v: nat :: Edge(t.g, v, w) && v < w ==> s <= v
    requires forall v: nat, x: nat :: Edge(t.g, v, w) && w < x && t.Anc(x, v) ==> s <= sd[x]
    requires (Edge(t.g, s, w) && s < w) || (exists v, x :: Edge(t.g, v, w) && w < x && t.Anc(x, v) && s == sd[x])
    ensures IsSdom(t, w, s)
  {
    if Edge(t.g, s, w) && s < w {
      assert IsSdomPath(t, s, w, [s, w]);
    } else {
      var v, x :| Edge(t.g, v, w) && w < x && t.Anc(x, v) && s == sd[x];
      CandidateBounds(t, w, v, x, sd[x]);
    }
    forall v0, p | IsSdomPath(t, v0, w, p)
      ensures s <= v0
    {
      var v, x := PathGivesCandidate(t, v0, w, p);
      if v0 == v == x && |p| == 2 {
        if w <= v0 {
          assert Edge(t.g, t.par[w], w);
        }
      }
    }
  }

  lemma SdomBelowParent(t: DfsTree, w: nat, s: nat)
    requires t.Valid() && 2 <= w < |t.g| && IsSdom(t, w, s)
    ensures 1 <= s <= t.par[w] && t.Anc(s, w)
  {
    assert IsSdomPath(t, t.par[w], w, [t.par[w], w]);
    var p :| IsSdomPath(t, s, w, p);
    PathStaysNumbered(t, p, 0);
    forall i | 0 <= i < |p|
      ensures p[0] <= p[i]
    {
    }
    LeastIsAncestor(t, p, |p| - 1);
  }

  // ---- From semidominators to immediate dominators ----

  /** The last position of `p` up to `hi` whose vertex comes before `b`. */
  lemma LastBefore(p: seq<nat>, hi: nat, b: nat) returns (i: nat)
    requires hi < |p| && p[0] < b
    ensures i <= hi && p[i] < b
    ensures forall k :: i < k <= hi ==> b <= p[k]
  {
    i := hi;
    while p[i] >= b
      invariant i <= hi && forall k :: i < k <= hi ==> b <= p[k]
      decreases i
    {
      i := i - 1;
    }
  }

  /** The first position of `p` after `lo` whose vertex lies on the tree path between `a` and `w`. */
  lemma FirstOnTreePath(t: DfsTree, p: seq<nat>, lo: nat, a: nat, w: nat) returns (j: nat)
    requires t.Valid() && lo < |p| - 1 && p[|p| - 1] == w && t.Anc(a, w)
    ensures lo < j < |p| && t.Anc(a, p[j]) && t.Anc(p[j], w)
    ensures forall k :: lo < k < j ==> !(t.Anc(a, p[k]) && t.Anc(p[k], w))
  {
    j := lo + 1;
    while !(t.Anc(a, p[j]) && t.Anc(p[j], w))
      invariant lo < j < |p|
      invariant forall k :: lo < k < j ==> !(t.Anc(a, p[k]) && t.Anc(p[k], w))
      decreases |p| - j
    {
      j := j + 1;
    }
  }

  /**
   * A path to `w` that starts before `a`, a tree ancestor of `w`, enters the tree path between
   * `a` and `w` along a semidominator path that starts before `a`.
   */
  lemma Crossing(t: DfsTree, p: seq<nat>, a: nat, w: nat) returns (i: nat, j: nat)
    requires t.Valid() && IsPath(t.g, p) && p[|p| - 1] == w && t.Anc(a, w) && p[0] < a
    ensures i < j < |p| && p[i] < a
    ensures t.Anc(a, p[j]) && t.Anc(p[j], w)
    ensures IsSdomPath(t, p[i], p[j], p[i..j + 1])
  {
    i := LastBefore(p, |p| - 1, a);
    j := FirstOnTreePath(t, p, i, a, w);
    SubPath(t.g, p, i, j);
    var q := p[i..j + 1];
    forall k | 0 < k < |q| - 1
      ensures q[k] > p[j]
    {
      InnerIsLater(t, p, i, j, a, w, i + k);
    }
  }

  lemma InnerIsLater(t: DfsTree, p: seq<nat>, i: nat, j: nat, a: nat, w: nat, k: nat)
    requires t.Valid() && IsPath(t.g, p) && i < k < j < |p|
    requires t.Anc(a, p[j]) && t.Anc(p[j], w)
    requires forall l :: i < l < j ==> a <= p[l] && !(t.Anc(a, p[l]) && t.Anc(p[l], w))
    ensures p[k] > p[j]
  {
    var m := LeastOnPath(p, k, j);
    if m < j {
      SubPath(t.g, p, m, j);
      var s := p[m..j + 1];
      forall l | 0 <= l < |s|
        ensures s[0] <= s[l]
      {
        assert s[l] == p[m + l];
      }
      LeastIsAncestor(t, s, |s| - 1);
      assert false;
    }
  }

  /** Every strict dominator of `w` is an ancestor of its semidominator. */
  lemma StrictDominatorAboveSdom(t: DfsTree, w: nat, s: nat, d: nat)
    requires t.Valid() && 2 <= w < |t.g| && IsSdom(t, w, s)
    requires StrictlyDominates(t.g, 1, d, w)
    ensures t.Anc(d, s)
  {
    SdomBelowParent(t, w, s);
    var p := TreePath(t, 1, s);
    var q :| IsSdomPath(t, s, w, q);
    JoinPaths(t.g, 1, s, w, p, q);
    var r := p + q[1..];
    assert d in r;
    var pw := TreePath(t, 1, w);
    assert d in pw;
    assert d < w;
    assert forall k :: 0 <= k < |q[1..]| ==> q[1..][k] == q[k + 1] >= w;
    assert d in p;
  }

  /** A strict dominator of `w` dominates every ancestor of `w` that comes no earlier than it. */
  lemma DominatorOfAncestor(t: DfsTree, d: nat, a: nat, w: nat)
    requires t.Valid() && t.Anc(a, w) && d <= a
    requires Dominates(t.g, 1, d, w)
    ensures Dominates(t.g, 1, d, a)
  {
    forall p | PathFromTo(t.g, 1, a, p)
      ensures d in p
    {
      if d < a {
        var q := TreePath(t, a, w);
        JoinPaths(t.g, 1, a, w, p, q);
        assert d in p + q[1..];
        assert d !in q[1..];
      } else {
        assert p[|p| - 1] == d;
      }
    }
  }

  /** If no vertex below the semidominator has a smaller one, it is the immediate dominator. */
  lemma SdomIsIdom(t: DfsTree, w: nat, sd: seq<nat>)
    requires t.Valid() && 2 <= w < |t.g| == |sd|
    requires forall x :: 2 <= x < |t.g| ==> IsSdom(t, x, sd[x])
    requires forall x :: sd[w] < x && t.Anc(x, w) ==> sd[w] <= sd[x]
    ensures IsIdom(t.g, 1, sd[w], w)
  {
    var s := sd[w];
    SdomBelowParent(t, w, s);
    forall p | PathFromTo(t.g, 1, w, p)
      ensures s in p
    {
      if s == 1 {
        assert p[0] == s;
      } else {
        var i, j := Crossing(t, p, s, w);
        assert p[j] == s;
      }
    }
    forall d | StrictlyDominates(t.g, 1, d, w)
      ensures Dominates(t.g, 1, d, s)
    {
      StrictDominatorAboveSdom(t, w, s, d);
      DominatorOfAncestor(t, d, s, w);
    }
  }

  /** Otherwise the vertex below it with the least semidominator has the same immediate dominator. */
  lemma SharedIdom(t: DfsTree, w: nat, u: nat, z: nat, sd: seq<nat>)
    requires t.Valid() && 2 <= w < |t.g| == |sd|
    requires forall x :: 2 <= x < |t.g| ==> IsSdom(t, x, sd[x])
    requires sd[w] < u && t.Anc(u, w) && sd[u] < sd[w]
    requires forall x :: sd[w] < x && t.Anc(x, w) ==> sd[u] <= sd[x]
    requires IsIdom(t.g, 1, z, u)
    ensures IsIdom(t.g, 1, z, w)
  {
    SdomBelowParent(t, w, sd[w]);
    SdomBelowParent(t, u, sd[u]);
    StrictDominatorAboveSdom(t, u, sd[u], z);
    forall p | PathFromTo(t.g, 1, w, p)
      ensures z in p
    {
      SharedIdomOnPath(t, w, u, z, sd, p);
    }
    forall d | StrictlyDominates(t.g, 1, d, w)
      ensures Dominates(t.g, 1, d, z)
    {
      StrictDominatorAboveSdom(t, w, sd[w], d);
      DominatorOfAncestor(t, d, u, w);
    }
  }

  lemma SharedIdomOnPath(t: DfsTree, w: nat, u: nat, z: nat, sd: seq<nat>, p: seq<nat>)
    requires t.Valid() && 2 <= w < |t.g| == |sd|
    requires forall x :: 2 <= x < |t.g| ==> IsSdom(t, x, sd[x])
    requires sd[w] < u && t.Anc(u, w) && sd[u] < sd[w]
    requires forall x :: sd[w] < x && t.Anc(x, w) ==> sd[u] <= sd[x]
    requires Dominates(t.g, 1, z, u) && t.Anc(z, sd[u]) && t.Anc(sd[u], u)
    requires PathFromTo(t.g, 1, w, p)
    ensures z in p
  {
    if z == 1 {
      assert p[0] == z;
    } else {
      var i, j := Crossing(t, p, z, w);
      var x, y := p[i], p[j];
      assert IsSdomPath(t, x, y, p[i..j + 1]);
      assert sd[y] <= x < z <= sd[u];
      assert t.Anc(y, u);
      if y != z {
        PathStaysNumbered(t, p, i);
        var q := PathAvoiding(t, x, y, u, z, p[i..j + 1]);
        assert false;
      }
    }
  }

  /** Root to `x` in the tree, `x` to `y` on `q1`, `y` to `u` in the tree: none of it meets `z`. */
  lemma PathAvoiding(t: DfsTree, x: nat, y: nat, u: nat, z: nat, q1: seq<nat>) returns (q: seq<nat>)
    requires t.Valid() && 1 <= x < z < y && t.Anc(y, u)
    requires IsSdomPath(t, x, y, q1)
    ensures PathFromTo(t.g, 1, u, q) && z !in q
  {
    var q0 := TreePath(t, 1, x);
    var q2 := TreePath(t, y, u);
    JoinPaths(t.g, 1, x, y, q0, q1);
    JoinPaths(t.g, 1, y, u, q0 + q1[1..], q2);
    assert forall k :: 0 <= k < |q1[1..]| ==> q1[1..][k] == q1[k + 1] >= y;
    q := q0 + q1[1..] + q2[1..];
  }
}
