/** The Lengauer-Tarjan solver: linked edge lists, depth-first numbering, path compression. */
module DominatorTrees {
  import opened Graphs
  import opened DfsTrees

  /** An edge record: target vertex and index of the next record of the same list (0 ends it). */
  datatype Link = Link(v: nat, nxt: nat)

  predicate LinksDown(e: seq<Link>) {
    |e| > 0 && forall i :: 0 < i < |e| ==> e[i].nxt < i
  }

  /** The targets met when the list that starts at record `i` is walked. */
  ghost function Chain(e: seq<Link>, i: nat): (s: seq<nat>)
    requires LinksDown(e) && i < |e|
    decreases i
  {
    if i == 0 then [] else [e[i].v] + Chain(e, e[i].nxt)
  }

  /** Appending records leaves every list as it was. */
  lemma {:induction false} ChainFrame(e: seq<Link>, x: Link, i: nat)
    requires LinksDown(e) && LinksDown(e + [x]) && i < |e|
    ensures Chain(e + [x], i) == Chain(e, i)
    decreases i
  {
    if i > 0 {
      ChainFrame(e, x, e[i].nxt);
    }
  }

  /** A vector resize: keeps the old prefix, fills with zeros. */
  function Resized(s: seq<nat>, k: nat): (r: seq<nat>)
    ensures |r| == k && forall i :: 0 <= i < k ==> r[i] == if i < |s| then s[i] else 0
  {
    seq(k, i requires i >= 0 => if i < |s| then s[i] else 0)
  }

  predicate EdgeShape(e: seq<Link>, head: seq<seq<nat>>, n: nat) {
    && LinksDown(e)
    && (forall i :: 0 < i < |e| ==> 1 <= e[i].v <= n)
    && |head| == 3
    && (forall o :: 0 <= o < 3 ==> |head[o]| == n + 1)
    && (forall o, u :: 0 <= o < 3 && 1 <= u <= n ==> head[o][u] < |e|)
  }

  /** Entries 1.. are set to 0. */
  method Cleared(s: seq<nat>) returns (r: seq<nat>)
    ensures |r| == |s| && forall k :: 1 <= k < |s| ==> r[k] == 0
  {
    r := s;
    var i := 1;
    while i < |s|
      invariant |r| == |s| && 1 <= i && forall k :: 1 <= k < i && k < |s| ==> r[k] == 0
    {
      r := r[i := 0];
      i := i + 1;
    }
  }

  /** Entries 1.. are set to their own index. */
  method Counted(s: seq<nat>) returns (r: seq<nat>)
    ensures |r| == |s| && forall k :: 1 <= k < |s| ==> r[k] == k
  {
    r := s;
    var i := 1;
    while i < |s|
      invariant |r| == |s| && 1 <= i && forall k :: 1 <= k < i && k < |s| ==> r[k] == k
    {
      r := r[i := i];
      i := i + 1;
    }
  }

  /** The edge lists of one orientation as a graph; list 0 is never used. */
  ghost function Listing(e: seq<Link>, h: seq<nat>): (g: Graph)
    requires LinksDown(e) && forall u :: 1 <= u < |h| ==> h[u] < |e|
    ensures |g| == |h| && (|h| > 0 ==> g[0] == [])
    ensures forall u :: 1 <= u < |h| ==> g[u] == Chain(e, h[u])
  {
    seq(|h|, u requires 0 <= u < |h| => if u == 0 then [] else Chain(e, h[u]))
  }

  /** The state of the depth-first search; `fin[i]` is the last number given below number `i`. */
  datatype Search = Search(tim: nat, dfn: seq<nat>, pos: seq<nat>, fa: seq<nat>, fin: seq<nat>) {
    ghost function Unvisited(): (s: set<nat>) {
      set v | 1 <= v < |dfn| && dfn[v] == 0
    }

    /** `dfn` and `pos` number the visited vertices 1..tim, one to one. */
    ghost predicate Numbering(size: nat) {
      && |dfn| == |pos| == |fa| == |fin| == size
      && tim + |Unvisited()| + 1 == size
      && (forall i :: 1 <= i <= tim ==> 1 <= pos[i] < size && dfn[pos[i]] == i)
      && (forall v :: 1 <= v < size ==> dfn[v] <= tim && (0 < dfn[v] ==> pos[dfn[v]] == v))
    }

    /** The search below number `i` is finished; its block ends at `fin[i]`; its parent is `lo` or later. */
    ghost predicate NodeDone(g: Graph, lo: nat, i: nat)
      requires Numbering(|g|) && lo < i <= tim
    {
      var v, f := pos[i], fa[pos[i]];
      && i <= fin[i] <= tim
      && (forall j :: i <= j <= fin[i] ==> fin[j] <= fin[i])
      && 1 <= f < |g| && lo <= dfn[f] < i && (lo < dfn[f] ==> i <= fin[dfn[f]]) && v in g[f]
      && (forall x :: lo < x < i && i <= fin[x] ==> x <= dfn[f])
      && (forall y :: y in g[v] ==> 1 <= y < |g| && 0 < dfn[y] && (i < dfn[y] ==> dfn[y] <= fin[i]))
    }

    /** All numbers after `lo` were given below it and their searches are finished. */
    ghost predicate Finished(g: Graph, lo: nat)
      requires Numbering(|g|)
    {
      forall i :: lo < i <= tim ==> NodeDone(g, lo, i)
    }

    /** What a search leaves alone of the earlier state `s`. */
    ghost predicate Grows(s: Search, size: nat)
      requires Numbering(size) && s.Numbering(size)
    {
      && s.tim <= tim
      && (forall v :: 1 <= v < size && 0 < s.dfn[v] ==> dfn[v] == s.dfn[v] && fa[v] == s.fa[v])
      && (forall v :: 1 <= v < size && s.dfn[v] == 0 && 0 < dfn[v] ==> s.tim < dfn[v])
      && (forall i :: 1 <= i <= s.tim ==> pos[i] == s.pos[i] && fin[i] == s.fin[i])
      && Unvisited() <= s.Unvisited()
    }

    /** The targets `ys` are visited, except those still to be looked at. */
    ghost predicate Covers(ys: seq<nat>, rest: seq<nat>) {
      && (forall y :: y in ys ==> 1 <= y < |dfn| && (0 < dfn[y] || y in rest))
      && (forall y :: y in rest ==> y in ys)
    }

    /** `u` gets the next number. */
    ghost function Visit(u: nat): (r: Search)
      requires u < |dfn| && tim + 1 < |pos|
    {
      Search(tim + 1, dfn[u := tim + 1], pos[tim + 1 := u], fa, fin)
    }
  }

  lemma CoversStart(s: Search, ys: seq<nat>)
    requires forall y :: y in ys ==> 1 <= y < |s.dfn|
    ensures s.Covers(ys, ys)
  {
  }

  lemma CoversHead(s: Search, ys: seq<nat>, v: nat, rest: seq<nat>)
    requires s.Covers(ys, [v] + rest)
    ensures v in ys && 1 <= v < |s.dfn|
  {
    assert v in [v] + rest;
  }

  lemma CoversNext(s: Search, s': Search, ys: seq<nat>, v: nat, rest: seq<nat>)
    requires s.Covers(ys, [v] + rest) && |s'.dfn| == |s.dfn| && v < |s.dfn| && 0 < s'.dfn[v]
    requires forall x :: 1 <= x < |s.dfn| && 0 < s.dfn[x] ==> 0 < s'.dfn[x]
    ensures s'.Covers(ys, rest)
  {
  }

  lemma CoversAll(s: Search, ys: seq<nat>)
    requires s.Covers(ys, [])
    ensures forall y :: y in ys ==> 1 <= y < |s.dfn| && 0 < s.dfn[y]
  {
  }

  lemma VisitNumbers(s: Search, g: Graph, u: nat)
    requires s.Numbering(|g|) && 1 <= u < |g| == |s.dfn| && s.dfn[u] == 0
    ensures s.tim + 1 < |g|
    ensures s.Visit(u).Numbering(|g|) && s.Visit(u).Grows(s, |g|) && s.Visit(u).Grows(s.Visit(u), |g|)
    ensures s.Visit(u).Finished(g, s.tim + 1)
    ensures s.Visit(u).Unvisited() < s.Unvisited()
  {
    assert u in s.Unvisited();
    assert s.Visit(u).Unvisited() == s.Unvisited() - {u};
  }

  /** The search below `u` ends: its block is recorded. */
  lemma CloseBlock(g: Graph, s: Search, lo: nat, s0: Search)
    requires s.Numbering(|g|) && s.Finished(g, lo) && 1 <= lo <= s.tim < |g| == |s.fin|
    requires s0.Numbering(|g|) && s.Grows(s0, |g|) && s0.tim < lo
    ensures var r := s.(fin := s.fin[lo := s.tim]);
      r.Numbering(|g|) && r.Finished(g, lo) && r.Grows(s0, |g|) && r.Unvisited() == s.Unvisited()
  {
    var r := s.(fin := s.fin[lo := s.tim]);
    assert r.Unvisited() == s.Unvisited();
    forall i | lo < i <= r.tim
      ensures r.NodeDone(g, lo, i)
    {
      assert s.NodeDone(g, lo, i);
    }
  }

  /** `s` is `s0` after the search from the fresh child `v` of `u`, before `fa[v]` is written. */
  ghost predicate ChildSearched(g: Graph, s0: Search, s: Search, u: nat, v: nat, lo: nat) {
    && s0.Numbering(|g|) && s.Numbering(|g|) && s.Grows(s0, |g|)
    && 1 <= u < |g| && 1 <= v < |g| && s0.dfn[u] == lo && v in g[u]
    && 1 <= lo && s0.dfn[v] == 0 && s.dfn[v] == s0.tim + 1
    && s0.Finished(g, lo)
    && s.Finished(g, s0.tim + 1) && s.fin[s0.tim + 1] == s.tim
    && (forall y :: y in g[v] ==> 1 <= y < |g| && 0 < s.dfn[y])
  }

  lemma OldNodeStaysDone(g: Graph, s0: Search, s: Search, u: nat, v: nat, lo: nat, i: nat)
    requires ChildSearched(g, s0, s, u, v, lo) && lo < i <= s0.tim
    ensures s.fin[i] <= s0.tim
    ensures s.(fa := s.fa[v := u]).Numbering(|g|) && s.(fa := s.fa[v := u]).NodeDone(g, lo, i)
  {
    assert s.(fa := s.fa[v := u]).Unvisited() == s.Unvisited();
    assert s0.NodeDone(g, lo, i);
    assert forall j :: i <= j <= s.fin[i] ==> s0.fin[j] == s.fin[j];
  }

  lemma NewNodeStaysDone(g: Graph, s0: Search, s: Search, u: nat, v: nat, lo: nat, i: nat)
    requires ChildSearched(g, s0, s, u, v, lo) && s0.tim + 1 < i <= s.tim
    requires forall x :: lo < x <= s0.tim ==> s.fin[x] <= s0.tim
    ensures s.(fa := s.fa[v := u]).Numbering(|g|) && s.(fa := s.fa[v := u]).NodeDone(g, lo, i)
    ensures s.fin[i] <= s.tim
  {
    assert s.(fa := s.fa[v := u]).Unvisited() == s.Unvisited();
    assert s.NodeDone(g, s0.tim + 1, i);
  }

  lemma ChildIsDone(g: Graph, s0: Search, s: Search, u: nat, v: nat, lo: nat)
    requires ChildSearched(g, s0, s, u, v, lo)
    requires forall x :: lo < x <= s0.tim ==> s.fin[x] <= s0.tim
    requires forall x :: s0.tim + 1 < x <= s.tim ==> s.fin[x] <= s.tim
    ensures s.(fa := s.fa[v := u]).Numbering(|g|) && s.(fa := s.fa[v := u]).NodeDone(g, lo, s0.tim + 1)
  {
    assert s.(fa := s.fa[v := u]).Unvisited() == s.Unvisited();
  }

  /** The finished block below `u` grows by the block of its new child `v`. */
  lemma JoinFinished(g: Graph, s0: Search, s: Search, u: nat, v: nat, lo: nat)
    requires ChildSearched(g, s0, s, u, v, lo)
    ensures var r := s.(fa := s.fa[v := u]); r.Numbering(|g|) && r.Grows(s0, |g|) && r.Finished(g, lo)
  {
    hide Search.NodeDone;
    var r := s.(fa := s.fa[v := u]);
    assert r.Unvisited() == s.Unvisited();
    forall i | lo < i <= s0.tim
      ensures r.NodeDone(g, lo, i) && s.fin[i] <= s0.tim
    {
      OldNodeStaysDone(g, s0, s, u, v, lo, i);
    }
    forall i | s0.tim + 1 < i <= s.tim
      ensures r.NodeDone(g, lo, i) && s.fin[i] <= s.tim
    {
      NewNodeStaysDone(g, s0, s, u, v, lo, i);
    }
    ChildIsDone(g, s0, s, u, v, lo);
  }

  lemma GrowsKeeps(s0: Search, s: Search, size: nat)
    requires s0.Numbering(size) && s.Numbering(size) && s.Grows(s0, size)
    ensures |s0.dfn| == |s0.fin| == |s.dfn| == |s.fin| == size && s.tim < size
    ensures forall v :: 1 <= v < size && 0 < s0.dfn[v] ==> s.dfn[v] == s0.dfn[v]
    ensures forall i :: 1 <= i <= s0.tim ==> s.fin[i] == s0.fin[i]
    ensures s0.tim <= s.tim && s.Unvisited() <= s0.Unvisited()
  {
  }

  lemma GrowsTrans(s0: Search, s1: Search, s2: Search, size: nat)
    requires s0.Numbering(size) && s1.Numbering(size) && s2.Numbering(size)
    requires s1.Grows(s0, size) && s2.Grows(s1, size)
    ensures s2.Grows(s0, size)
  {
  }

  /** The search from `u` returns from its new child `v`. */
  lemma AdoptChild(g: Graph, s1: Search, s: Search, s2: Search, u: nat, v: nat, lo: nat)
    requires s1.Numbering(|g|) && s.Numbering(|g|) && s2.Numbering(|g|)
    requires s.Grows(s1, |g|) && s2.Grows(s, |g|)
    requires 1 <= u < |g| && 1 <= v < |g| == |s.dfn| == |s2.dfn| == |s2.fin| == |s2.fa|
    requires s.dfn[u] == lo && v in g[u] && 1 <= lo && s.dfn[v] == 0 && s2.dfn[v] == s.tim + 1
    requires s.Finished(g, lo) && s2.Finished(g, s2.dfn[v]) && s2.dfn[v] <= s2.tim < |g| && s2.fin[s2.dfn[v]] == s2.tim
    requires forall y :: y in g[v] ==> 1 <= y < |g| && 0 < s2.dfn[y]
    ensures var r := s2.(fa := s2.fa[v := u]);
      && r.Numbering(|g|) && r.Finished(g, lo) && r.Grows(s1, |g|)
      && (forall x :: 1 <= x < |g| && 0 < s.dfn[x] ==> r.dfn[x] == s.dfn[x])
  {
    JoinFinished(g, s, s2, u, v, lo);
    GrowsTrans(s1, s, s2.(fa := s2.fa[v := u]), |g|);
  }

  /** `dfn` and `pos` renumber the visited vertices as the vertices of `t`. */
  ghost predicate Renumbers(t: DfsTree, dfn: seq<nat>, pos: seq<nat>) {
    && |dfn| == |pos| && |t.g| <= |dfn|
    && (forall k :: 1 <= k < |t.g| ==> 1 <= pos[k] < |dfn| && dfn[pos[k]] == k)
    && (forall x :: 1 <= x < |dfn| ==> dfn[x] < |t.g| && (0 < dfn[x] ==> pos[dfn[x]] == x))
  }

  /** `sd[k]` is the number of the current `sdm` of number `k`; it is final above `b`. */
  ghost predicate SdomsAbove(t: DfsTree, sd: seq<nat>, b: nat, dfn: seq<nat>, pos: seq<nat>, sdm: seq<nat>) {
    && Renumbers(t, dfn, pos)
    && |sd| == |t.g| && |sdm| == |dfn|
    && (forall k :: 1 <= k < |t.g| ==>
          1 <= sdm[pos[k]] < |dfn| && 0 < dfn[sdm[pos[k]]] && sd[k] == dfn[sdm[pos[k]]])
    && (forall k :: 1 <= k < |t.g| && k <= b ==> sd[k] == k)
    && (forall k :: 2 <= k < |t.g| && b < k ==> IsSdom(t, k, sd[k]))
  }

  /** On the tree path from `k` up to, not including, its ancestor `a` everything is linked and `y` has the least
   * semidominator. */
  ghost predicate Hangs(t: DfsTree, sd: seq<nat>, b: nat, a: nat, y: nat, k: nat)
    requires |sd| == |t.g|
  {
    && k < |t.g| && t.Anc(a, k) && a < k && t.Anc(y, k) && a < y < |sd|
    && (forall z :: a < z < |sd| && t.Anc(z, k) ==> b < z && sd[y] <= sd[z])
  }

  /** What `pa` and `mn` record for number `k`: a compressed path and its least semidominator. */
  ghost predicate Linked(t: DfsTree, sd: seq<nat>, b: nat, dfn: seq<nat>, pos: seq<nat>, pa: seq<nat>, mn: seq<nat>,
      k: nat) {
    && Renumbers(t, dfn, pos) && |sd| == |t.g| && |pa| == |mn| == |dfn| && 1 <= k < |t.g|
    && (var x := pos[k];
    && 1 <= pa[x] < |dfn| && 0 < dfn[pa[x]] && 1 <= mn[x] < |dfn| && 0 < dfn[mn[x]]
    && var a, y := dfn[pa[x]], dfn[mn[x]];
    if k <= b then a == y == k else Hangs(t, sd, b, a, y, k))
  }

  ghost predicate IsForest(t: DfsTree, sd: seq<nat>, b: nat, dfn: seq<nat>, pos: seq<nat>, pa: seq<nat>, mn: seq<nat>) {
    && t.Valid() && Renumbers(t, dfn, pos) && |sd| == |t.g| && |pa| == |mn| == |dfn|
    && forall k :: 1 <= k < |t.g| ==> Linked(t, sd, b, dfn, pos, pa, mn, k)
  }

  /** `r` is unlinked, and an ancestor of `x`. */
  ghost predicate IsRoot(t: DfsTree, b: nat, dfn: seq<nat>, r: nat, x: nat) {
    && x < |dfn|
    && (1 <= r < |dfn| && 0 < dfn[r] <= b && t.Anc(dfn[r], dfn[x]))
  }

  /** The state after the search from `s` as a depth-first tree `t` in numbers. */
  ghost predicate Mirrors(t: DfsTree, g: Graph, r: Search, s: nat) {
    && t.Valid() && |r.dfn| == |g| == |r.fa| && Renumbers(t, r.dfn, r.pos) && |t.g| == r.tim + 1
    && 1 <= s < |g| && r.dfn[s] == 1
    && (forall a: nat, k: nat :: Edge(t.g, a, k) <==> 1 <= a <= r.tim && 1 <= k <= r.tim && r.pos[k] in g[r.pos[a]])
    && (forall x, y {:trigger y in g[x]} :: 1 <= x < |g| && 0 < r.dfn[x] && y in g[x] ==> 1 <= y < |g| && 0 < r.dfn[y])
    && (forall k :: 2 <= k <= r.tim ==> 1 <= r.fa[r.pos[k]] < |g| && t.par[k] == r.dfn[r.fa[r.pos[k]]])
  }

  /** What is recorded for number `k` once its bucket has been drained. */
  ghost predicate Settled(t: DfsTree, sd: seq<nat>, b: nat, dfn: seq<nat>, pos: seq<nat>, idm: seq<nat>, k: nat) {
    && Renumbers(t, dfn, pos) && |sd| == |t.g| && |idm| == |dfn| && 1 <= k < |t.g|
    && (var z := idm[pos[k]];
    && 1 <= z < |dfn| && 0 < dfn[z]
    && (forall x :: sd[k] < x && t.Anc(x, k) ==> b < x)
    && ((dfn[z] == sd[k] && forall x :: sd[k] < x && t.Anc(x, k) ==> sd[k] <= sd[x]) ||
        (sd[k] < dfn[z] && t.Anc(dfn[z], k) && sd[dfn[z]] < sd[k] && forall x :: sd[k] < x && t.Anc(x, k) ==>
          sd[dfn[z]] <= sd[x])))
  }

  /** Number `k` waits in the bucket of its semidominator, none of whose children towards `k` is linked. */
  ghost predicate Pending(t: DfsTree, sd: seq<nat>, b: nat, pos: seq<nat>, sdm: seq<nat>, buckets: Graph, k: nat) {
    && |sd| == |t.g| == |t.par| && |t.g| <= |pos| == |sdm| == |buckets| && 1 <= k < |t.g|
    && pos[k] < |sdm| && sdm[pos[k]] < |buckets| && pos[k] in buckets[sdm[pos[k]]]
    && forall c :: b < c <= k && t.Anc(c, k) ==> t.par[c] != sd[k]
  }

  /** The entries `vs` of the bucket of `q` come after `b` and have `q` as semidominator. */
  ghost predicate GoodEntries(dfn: seq<nat>, b: nat, sdm: seq<nat>, vs: seq<nat>, q: nat) {
    && |dfn| == |sdm|
    && (forall i :: 0 <= i < |vs| ==> 1 <= vs[i] < |dfn| && b < dfn[vs[i]] && sdm[vs[i]] == q)
  }

  ghost predicate Buckets(t: DfsTree, sd: seq<nat>, b: nat, dfn: seq<nat>, pos: seq<nat>, sdm: seq<nat>, idm: seq<nat>,
      buckets: Graph) {
    && Renumbers(t, dfn, pos) && |sd| == |t.g| == |t.par| && |dfn| == |sdm| == |idm| == |buckets|
    && (forall q :: 1 <= q < |dfn| ==> GoodEntries(dfn, b, sdm, buckets[q], q))
    && (forall k :: 2 <= k < |t.g| && b < k ==>
          Settled(t, sd, b, dfn, pos, idm, k) || Pending(t, sd, b, pos, sdm, buckets, k))
  }

  /** The two orientations list the same edges. */
  ghost predicate Converse(g: Graph, preds: Graph) {
    && |g| == |preds|
    && forall u, v :: 1 <= u < |g| && 1 <= v < |g| ==> (v in g[u] <==> u in preds[v])
  }

  /** The value that in-neighbour `v` offers number `b`: its own number, or a semidominator behind it. */
  ghost predicate Offers(t: DfsTree, sd: seq<nat>, b: nat, k: nat, c: nat) {
    && |sd| == |t.g| == |t.fin| && k < |t.g|
    && (k < b ==> c <= k)
    && (forall x :: b < x && t.Anc(x, k) ==> c <= sd[x])
    && (c == b || (k < b && c == k) || exists x :: b < x && t.Anc(x, k) && c == sd[x])
  }

  /** `res` is the least offer among the visited vertices of `seen`, or none was made yet. */
  ghost predicate LeastSoFar(t: DfsTree, sd: seq<nat>, b: nat, dfn: seq<nat>, seen: seq<nat>, res: nat) {
    && |sd| == |t.g| == |t.fin| && (forall v :: v in seen ==> v < |dfn| && dfn[v] < |t.g|)
    && (forall v :: v in seen && 0 < dfn[v] ==> exists c :: Offers(t, sd, b, dfn[v], c) && res <= c)
    && (res == |dfn| || exists v :: v in seen && 0 < dfn[v] && Offers(t, sd, b, dfn[v], res))
  }

  /**
   * The buckets while that of `p` is being drained: every number after `b` is settled, pending
   * elsewhere, or among the entries `rest` still to be met.
   */
  ghost predicate Draining(t: DfsTree, sd: seq<nat>, b: nat, dfn: seq<nat>, pos: seq<nat>, sdm: seq<nat>, idm: seq<nat>,
                           buckets: Graph, p: nat, rest: seq<nat>) {
    && Renumbers(t, dfn, pos) && |sd| == |t.g| == |t.par| && |dfn| == |sdm| == |idm| == |buckets|
    && (forall q :: 1 <= q < |dfn| ==> GoodEntries(dfn, b, sdm, buckets[q], q))
    && (forall k :: 2 <= k < |t.g| && b < k ==>
          Settled(t, sd, b, dfn, pos, idm, k) || pos[k] in rest ||
          (sdm[pos[k]] != p && Pending(t, sd, b, pos, sdm, buckets, k)))
  }

  /** `idm` records the immediate dominator of number `k`. */
  ghost predicate HasIdom(t: DfsTree, dfn: seq<nat>, pos: seq<nat>, idm: seq<nat>, k: nat) {
    && Renumbers(t, dfn, pos) && |idm| == |dfn| && 1 <= k < |t.g|
    && 1 <= idm[pos[k]] < |dfn| && 0 < dfn[idm[pos[k]]]
    && IsIdom(t.g, 1, dfn[idm[pos[k]]], k)
  }

  /** The search from `u`, begun in `s0` by numbering `u`, ends in `s`. */
  lemma CloseSearch(g: Graph, s: Search, s1: Search, s0: Search, u: nat)
    requires s0.Numbering(|g|) && s.Numbering(|g|) && s0.tim + 1 < |g| && 1 <= u < |g| == |s0.dfn|
    requires s1 == s0.Visit(u) && s1.Numbering(|g|) && s1.Grows(s0, |g|) && s1.Unvisited() < s0.Unvisited()
    requires s.Grows(s1, |g|) && s.Finished(g, s0.tim + 1)
    ensures s0.tim + 1 <= s.tim < |g| == |s.fin| == |s.dfn| && s.dfn[u] == s0.tim + 1
    ensures var r := s.(fin := s.fin[s0.tim + 1 := s.tim]);
      r.Numbering(|g|) && r.Finished(g, s0.tim + 1) && r.Grows(s0, |g|) && r.Unvisited() < s0.Unvisited()
  {
    GrowsTrans(s0, s1, s, |g|);
    GrowsKeeps(s1, s, |g|);
    CloseBlock(g, s, s0.tim + 1, s0);
  }

  class DominatorTreeSolver {
    var n: nat
    var tim: nat
    var edge_cnt: nat
    var dfn: seq<nat>
    var pos: seq<nat>
    var fa: seq<nat>
    var mn: seq<nat>
    var idm: seq<nat>
    var sdm: seq<nat>
    var pa: seq<nat>
    var e: seq<Link>
    var head: seq<seq<nat>>
    /** The last number given below each number. */
    ghost var fin: seq<nat>

    constructor ()
      ensures n == 0 && idm == []
    {
      n, tim, edge_cnt := 0, 0, 0;
      dfn, pos, fa, mn, idm, sdm, pa, fin := [], [], [], [], [], [], [], [];
      e, head := [], [[], [], []];
    }

    ghost predicate Shape()
      reads this
    {
      && |dfn| == |pos| == |fa| == |mn| == |idm| == |sdm| == |pa| == |fin| == n + 1
      && |e| == edge_cnt + 1 && EdgeShape(e, head, n)
    }

    /** The edge lists of orientation `o` as a graph: 0 successors, 1 predecessors, 2 buckets. */
    ghost function Lists(o: nat): (g: Graph)
      requires Shape() && o < 3
      reads this
      ensures |g| == n + 1 && g[0] == []
      ensures forall u :: 1 <= u <= n ==> g[u] == Chain(e, head[o][u])
    {
      Listing(e, head[o])
    }

    /** Nothing has been numbered or linked yet. */
    ghost predicate Blank()
      requires Shape()
      reads this
    {
      && tim == 0
      && (forall i :: 1 <= i <= n ==> dfn[i] == 0 && mn[i] == sdm[i] == pa[i] == i && head[2][i] == 0)
    }

    method Init(size: nat)
      modifies this
      ensures Shape() && Blank() && n == size
      ensures forall o, u :: 0 <= o < 3 && 1 <= u <= n ==> Lists(o)[u] == []
      ensures idm == Resized(old(idm), n + 1)
    {
      hide Chain, Listing, EdgeShape, LinksDown, Resized;
      n := size;
      InitSearch();
      InitForest();
      InitEdges();
    }

    method InitSearch()
      modifies `tim, `dfn, `pos, `fa, `fin
      ensures tim == 0 && |dfn| == |pos| == |fa| == |fin| == n + 1
      ensures forall i :: 1 <= i <= n ==> dfn[i] == 0
    {
      tim := 0;
      dfn := Cleared(Resized(dfn, n + 1));
      pos := Cleared(Resized(pos, n + 1));
      fa := Cleared(Resized(fa, n + 1));
      fin := Resized([], n + 1);
    }

    method InitForest()
      modifies `mn, `sdm, `pa, `idm
      ensures |mn| == |sdm| == |pa| == n + 1 && idm == Resized(old(idm), n + 1)
      ensures forall i :: 1 <= i <= n ==> mn[i] == sdm[i] == pa[i] == i
    {
      idm := Resized(idm, n + 1);
      mn := Counted(Resized(mn, n + 1));
      sdm := Counted(Resized(sdm, n + 1));
      pa := Counted(Resized(pa, n + 1));
    }

    method InitEdges()
      modifies `e, `head, `edge_cnt
      ensures |e| == edge_cnt + 1 && EdgeShape(e, head, n)
      ensures forall o, u :: 0 <= o < 3 && 1 <= u <= n ==> head[o][u] == 0 && Listing(e, head[o])[u] == []
    {
      var h0 := Cleared(Resized(if |head| > 0 then head[0] else [], n + 1));
      var h1 := Cleared(Resized(if |head| > 1 then head[1] else [], n + 1));
      var h2 := Cleared(Resized(if |head| > 2 then head[2] else [], n + 1));
      edge_cnt := 0;
      e := [Link(0, 0)];
      head := [h0, h1, h2];
    }

    method AddEdge(o: nat, u: nat, v: nat)
      requires Shape() && o < 3 && 1 <= u <= n && 1 <= v <= n
      modifies `e, `head, `edge_cnt
      ensures Shape()
      ensures Lists(o) == old(Lists(o))[u := [v] + old(Lists(o)[u])]
      ensures forall o' :: 0 <= o' < 3 && o' != o ==> Lists(o') == old(Lists(o')) && head[o'] == old(head[o'])
    {
      var x := Link(v, head[o][u]);
      ghost var e0 := e;
      e := e + [x];
      edge_cnt := edge_cnt + 1;
      var h: seq<nat> := head[o][u := edge_cnt];
      head := head[o := h];
      forall i | 0 <= i < |e0|
        ensures Chain(e, i) == Chain(e0, i)
      {
        ChainFrame(e0, x, i);
      }
    }

    // ---- Depth-first numbering ----

    ghost function State(): Search
      reads this
    {
      Search(tim, dfn, pos, fa, fin)
    }

    /** `u` gets the next number. */
    method NumberNext(u: nat)
      requires Shape() && State().Numbering(n + 1) && 1 <= u <= n && dfn[u] == 0
      modifies `tim, `dfn, `pos
      ensures Shape() && tim == old(tim) + 1 <= n && dfn[u] == tim && State() == old(State()).Visit(u)
      ensures State().Numbering(n + 1) && State().Grows(old(State()), n + 1) && State().Grows(State(), n + 1)
      ensures State().Finished(Listing(e, head[0]), tim) && State().Unvisited() < old(State().Unvisited())
    {
      hide Search.NodeDone, Search.Finished, Search.Grows, Search.Numbering, Search.Unvisited, Listing;
      VisitNumbers(State(), Listing(e, head[0]), u);
      tim := tim + 1;
      dfn := dfn[u := tim];
      pos := pos[tim := u];
    }

    method DFS(u: nat)
      requires Shape() && State().Numbering(n + 1) && 1 <= u <= n && dfn[u] == 0
      modifies `tim, `dfn, `pos, `fa, `fin
      ensures Shape() && State().Numbering(n + 1) && State().Grows(old(State()), n + 1)
      ensures dfn[u] == old(tim) + 1 <= tim <= n
      ensures State().Finished(Listing(e, head[0]), dfn[u]) && fin[dfn[u]] == tim
      ensures forall y :: y in Listing(e, head[0])[u] ==> 1 <= y <= n && 0 < dfn[y]
      ensures State().Unvisited() < old(State().Unvisited())
      decreases State().Unvisited(), 0
    {
      hide Search.NodeDone, Search.Finished, Search.Grows, Search.Numbering, Search.Unvisited, Search.Covers,
        Search.Visit;
      hide Chain, EdgeShape, LinksDown, Listing;
      ghost var s0 := State();
      ListStart(e, head, n, 0, u);
      ghost var g := Listing(e, head[0]);
      NumberNext(u);
      ghost var s1 := State();
      ghost var lo := tim;
      var i: nat := head[0][u];
      CoversStart(s1, g[u]);
      while i != 0
        invariant Shape() && LinksDown(e) && i < |e|
        invariant State().Numbering(|g|) && State().Grows(s1, |g|) && State().Finished(g, lo)
        invariant State().Covers(g[u], Chain(e, i)) && State().Unvisited() <= s1.Unvisited()
        decreases i
      {
        ghost var s := State();
        ListStep(e, head, n, i);
        var v := e[i].v;
        GrowsKeeps(s1, s, |g|);
        CoversHead(s, g[u], v, Chain(e, e[i].nxt));
        VisitEdge(u, v, s1, lo);
        CoversNext(s, State(), g[u], v, Chain(e, e[i].nxt));
        i := e[i].nxt;
      }
      ghost var s := State();
      CoversAll(s, g[u]);
      CloseSearch(g, s, s1, s0, u);
      fin := fin[lo := tim];
    }

    /** An edge from `u`: a search from its target, unless that has a number already. */
    method VisitEdge(u: nat, v: nat, ghost s1: Search, ghost lo: nat)
      requires Shape() && State().Numbering(n + 1) && s1.Numbering(n + 1) && State().Grows(s1, n + 1)
      requires 1 <= u <= n && 1 <= v <= n && v in Listing(e, head[0])[u] && 1 <= lo == dfn[u]
      requires State().Finished(Listing(e, head[0]), lo)
      modifies `tim, `dfn, `pos, `fa, `fin
      ensures Shape() && State().Numbering(n + 1) && State().Grows(s1, n + 1)
      ensures State().Finished(Listing(e, head[0]), lo) && 0 < dfn[v]
      ensures forall x :: 1 <= x <= n && 0 < old(dfn[x]) ==> dfn[x] == old(dfn[x])
      ensures State().Unvisited() <= old(State().Unvisited())
      decreases State().Unvisited(), 1
    {
      hide Search.NodeDone, Search.Finished, Search.Grows, Search.Numbering, Search.Covers, Listing, EdgeShape;
      if dfn[v] == 0 {
        ghost var s := State();
        ListStart(e, head, n, 0, u);
        DFS(v);
        ghost var s2 := State();
        GrowsKeeps(s, s2, n + 1);
        AdoptChild(Listing(e, head[0]), s1, s, s2, u, v, lo);
        fa := fa[v := u];
      }
    }

    // ---- Path compression ----

    method Find(x: nat, ghost t: DfsTree, ghost sd: seq<nat>, ghost b: nat) returns (r: nat)
      requires Shape() && 1 <= b && IsForest(t, sd, b, dfn, pos, pa, mn)
      requires SdomsAbove(t, sd, b, dfn, pos, sdm) && 1 <= x <= n && 0 < dfn[x]
      modifies `pa, `mn
      ensures Shape() && IsForest(t, sd, b, dfn, pos, pa, mn)
      ensures r == pa[x] && IsRoot(t, b, dfn, r, x)
      ensures forall k :: dfn[x] < k < |t.g| ==> pa[pos[k]] == old(pa[pos[k]]) && mn[pos[k]] == old(mn[pos[k]])
      decreases dfn[x]
    {
      hide Linked, DfsTree.Valid, SdomsAbove, IsForest, IsRoot;
      ForestFacts(t, sd, b, dfn, pos, pa, mn, sdm, x);
      if pa[x] == x {
        return x;
      }
      var tmp := pa[x];
      var q := Find(tmp, t, sd, b);
      Compress(t, sd, b, dfn, pos, pa, mn, sdm, x, tmp);
      pa := pa[x := q];
      if dfn[sdm[mn[tmp]]] < dfn[sdm[mn[x]]] {
        mn := mn[x := mn[tmp]];
      }
      return pa[x];
    }

    // ---- The main loop ----

    /** The least candidate once the in-edge from `v` has been looked at. */
    method OfferFrom(u: nat, v: nat, res0: nat, ghost t: DfsTree, ghost sd: seq<nat>, ghost b: nat,
        ghost seen: seq<nat>) returns (res: nat)
      requires Shape() && 1 <= u <= n && 1 <= v <= n && 2 <= b == dfn[u]
      requires IsForest(t, sd, b, dfn, pos, pa, mn) && SdomsAbove(t, sd, b, dfn, pos, sdm)
      requires (forall x :: x in seen ==> 1 <= x < |dfn| && dfn[x] < |t.g|) && LeastSoFar(t, sd, b, dfn, seen, res0)
      modifies `pa, `mn
      ensures Shape() && IsForest(t, sd, b, dfn, pos, pa, mn) && dfn[v] < |t.g|
      ensures LeastSoFar(t, sd, b, dfn, seen + [v], res)
    {
      hide IsForest, SdomsAbove, IsRoot, DfsTree.Valid, Linked, IsSdom, LeastSoFar, EdgeShape;
      VisitedOrNot(t, sd, b, dfn, pos, pa, mn, v);
      res := res0;
      if 0 < dfn[v] {
        var _ := Find(v, t, sd, b);
        OfferOf(t, sd, b, dfn, pos, pa, mn, sdm, v);
        if dfn[v] < dfn[u] {
          res := if res <= dfn[v] then res else dfn[v];
        } else {
          res := if res <= dfn[sdm[mn[v]]] then res else dfn[sdm[mn[v]]];
        }
        TakeOffer(t, sd, b, dfn, seen, v, res0, res);
      } else {
        SkipUnvisited(t, sd, b, dfn, seen, v, res);
      }
    }

    /** The semidominator number of `u`: the least candidate over its in-edges. */
    method LeastCandidate(u: nat, ghost t: DfsTree, ghost sd: seq<nat>, ghost b: nat, ghost s: nat) returns (res: nat)
      requires Shape() && Mirrors(t, Lists(0), State(), s) && Converse(Lists(0), Lists(1))
      requires 1 <= u <= n && 2 <= b == dfn[u]
      requires IsForest(t, sd, b, dfn, pos, pa, mn) && SdomsAbove(t, sd, b, dfn, pos, sdm)
      modifies `pa, `mn
      ensures Shape() && IsForest(t, sd, b, dfn, pos, pa, mn)
      ensures IsSdom(t, b, res) && 1 <= res < b
    {
      hide IsForest, SdomsAbove, IsRoot, DfsTree.Valid, Linked, IsSdom, Converse, LeastSoFar;
      hide Chain, EdgeShape, LinksDown, Listing, Mirrors, Renumbers;
      ListStart(e, head, n, 1, u);
      res := n + 1;
      var j: nat := head[1][u];
      ghost var preds := Listing(e, head[1]);
      ghost var seen: seq<nat> := [];
      NoOffersYet(t, sd, b, dfn, pos, pa, mn);
      while j != 0
        invariant Shape() && LinksDown(e) && j < |e| && seen + Chain(e, j) == preds[u]
        invariant IsForest(t, sd, b, dfn, pos, pa, mn)
        invariant forall v :: v in seen ==> 1 <= v < |dfn| && dfn[v] < |t.g|
        invariant LeastSoFar(t, sd, b, dfn, seen, res)
        decreases j
      {
        ListStep(e, head, n, j);
        var v := e[j].v;
        res := OfferFrom(u, v, res, t, sd, b, seen);
        seen := seen + [v];
        j := e[j].nxt;
      }
      assert seen == preds[u];
      LeastIsSdom(t, Lists(0), preds, State(), s, sd, sdm, u, res);
    }

    /** The bucket of `p`, whose child numbered `b + 1` has just been linked, is settled and emptied. */
    method DrainBucket(p: nat, ghost t: DfsTree, ghost sd: seq<nat>, ghost b: nat)
      requires Shape() && 1 <= p <= n
      requires 1 <= b && b + 1 < |t.g| == |t.par| && t.par[b + 1] == dfn[p]
      requires IsForest(t, sd, b, dfn, pos, pa, mn) && SdomsAbove(t, sd, b, dfn, pos, sdm)
      requires Draining(t, sd, b, dfn, pos, sdm, idm, Lists(2), p, Lists(2)[p])
      modifies `pa, `mn, `idm, `head
      ensures Shape() && IsForest(t, sd, b, dfn, pos, pa, mn)
      ensures Buckets(t, sd, b, dfn, pos, sdm, idm, Lists(2))
      ensures Lists(0) == old(Lists(0)) && Lists(1) == old(Lists(1))
      ensures forall v :: 1 <= v <= n && dfn[v] <= 1 ==> idm[v] == old(idm[v])
    {
      hide SdomsAbove, IsRoot, DfsTree.Valid, Linked, Draining, Buckets;
      hide Chain, EdgeShape, LinksDown, Listing, Renumbers;
      ListStart(e, head, n, 2, p);
      ghost var buckets := Listing(e, head[2]);
      var j: nat := head[2][p];
      while j != 0
        invariant Shape() && LinksDown(e) && j < |e| && head == old(head)
        invariant forall v :: v in Chain(e, j) ==> v in buckets[p]
        invariant IsForest(t, sd, b, dfn, pos, pa, mn)
        invariant Draining(t, sd, b, dfn, pos, sdm, idm, buckets, p, Chain(e, j))
        invariant forall v :: 1 <= v <= n && dfn[v] <= 1 ==> idm[v] == old(idm[v])
        decreases j
      {
        ListStep(e, head, n, j);
        var v := e[j].v;
        BucketEntry(t, sd, b, dfn, pos, pa, mn, sdm, idm, buckets, p, Chain(e, j), v);
        var _ := Find(v, t, sd, b);
        ForestFacts(t, sd, b, dfn, pos, pa, mn, sdm, v);
        SettleEntry(t, sd, b, dfn, pos, pa, mn, sdm, idm, buckets, p, v, Chain(e, e[j].nxt));
        if sdm[mn[v]] == p {
          idm := idm[v := p];
        } else {
          idm := idm[v := mn[v]];
        }
        j := e[j].nxt;
      }
      EmptyBucket(t, sd, b, dfn, pos, sdm, idm, e, head, n, p);
      var h: seq<nat> := head[2][p := 0];
      head := head[2 := h];
    }

    /** The last pass: shared immediate dominators are copied in search order. */
    method SettleIdoms(ghost t: DfsTree, ghost sd: seq<nat>)
      requires Shape() && t.Valid() && Renumbers(t, dfn, pos) && |t.g| == tim + 1 == |sd|
      requires SdomsAbove(t, sd, 1, dfn, pos, sdm)
      requires forall k :: 2 <= k <= tim ==> Settled(t, sd, 1, dfn, pos, idm, k)
      modifies `idm
      ensures Shape()
      ensures forall k :: 2 <= k <= tim ==> HasIdom(t, dfn, pos, idm, k)
      ensures forall v :: 1 <= v <= n && dfn[v] <= 1 ==> idm[v] == old(idm[v])
    {
      hide IsSdom, IsIdom, DfsTree.Valid, SdomsAbove, Settled;
      var i := 2;
      while i <= tim
        invariant 2 <= i && Shape()
        invariant forall k :: 2 <= k < i && k <= tim ==> HasIdom(t, dfn, pos, idm, k)
        invariant forall k :: i <= k <= tim ==> Settled(t, sd, 1, dfn, pos, idm, k)
        invariant forall v :: 1 <= v <= n && dfn[v] <= 1 ==> idm[v] == old(idm[v])
      {
        var u := pos[i];
        SettleIdom(t, sd, dfn, pos, sdm, idm, i);
        if idm[u] != sdm[u] {
          idm := idm[u := idm[idm[u]]];
        }
        i := i + 1;
      }
    }

    method Tarjan(s: nat)
      requires Shape() && Blank() && 1 <= s <= n && Converse(Lists(0), Lists(1))
      modifies this
      ensures Shape() && n == old(n) && Lists(0) == old(Lists(0)) && Lists(1) == old(Lists(1))
      ensures forall v :: 1 <= v <= n && v != s && Reachable(Lists(0), s, v) ==> IsIdom(Lists(0), s, idm[v], v)
      ensures forall v :: 1 <= v <= n && (v == s || !Reachable(Lists(0), s, v)) ==> idm[v] == old(idm[v])
    {
      hide Mirrors, IsForest, SdomsAbove, IsIdom, IsSdom, Reachable, Buckets, Converse, HasIdom, Settled, Renumbers;
      hide Search.Finished, Search.Grows, Search.Numbering, Chain, Listing, LinksDown, DfsTree.Valid;
      EdgeSizes(e, head, n);
      NoEntries(e, head, n);
      ghost var g := Listing(e, head[0]);
      StartNumbers(State(), g);
      DFS(s);
      ghost var r := Search(tim, dfn, pos, fa, fin);
      ghost var t := BuildTree(g, r, s);
      ghost var sd: seq<nat> := Identity(tim + 1);
      NothingLinked(t, sd, g, r, s, pa, mn, sdm, idm, Listing(e, head[2]));
      sd := LinkAll(t, sd, g, Listing(e, head[1]), r, s);
      SettleIdoms(t, sd);
      IdomsOfVertices(t, g, r, s, idm);
    }

    method LinkAll(ghost t: DfsTree, ghost sd0: seq<nat>, ghost g: Graph, ghost preds: Graph, ghost r: Search,
        ghost s: nat)
      returns (ghost sd: seq<nat>)
      requires Shape() && 1 <= tim <= n && |sd0| == tim + 1
      requires Renumbers(t, dfn, pos) && |t.g| == |t.par| == tim + 1
      requires r == Search(tim, dfn, pos, fa, fin) && Listing(e, head[0]) == g && Listing(e, head[1]) == preds
      requires Mirrors(t, g, r, s) && Converse(g, preds)
      requires IsForest(t, sd0, tim, dfn, pos, pa, mn) && SdomsAbove(t, sd0, tim, dfn, pos, sdm)
      requires Buckets(t, sd0, tim, dfn, pos, sdm, idm, Listing(e, head[2]))
      modifies `pa, `mn, `sdm, `idm, `e, `head, `edge_cnt
      ensures Shape() && Listing(e, head[0]) == g && Listing(e, head[1]) == preds
      ensures t.Valid() && |sd| == tim + 1 && SdomsAbove(t, sd, 1, dfn, pos, sdm)
      ensures forall k :: 2 <= k <= tim ==> Settled(t, sd, 1, dfn, pos, idm, k)
      ensures forall v :: 1 <= v <= n && dfn[v] <= 1 ==> idm[v] == old(idm[v])
    {
      hide Mirrors, IsForest, SdomsAbove, IsSdom, Buckets, Converse, Chain, Listing, LinksDown, Settled, Renumbers,
        DfsTree.Valid;
      sd := sd0;
      var i := tim;
      while i >= 2
        invariant Shape() && 1 <= i <= tim && |sd| == tim + 1
        invariant Renumbers(t, dfn, pos) && |t.g| == |t.par| == tim + 1
        invariant Listing(e, head[0]) == g && Listing(e, head[1]) == preds
        invariant IsForest(t, sd, i, dfn, pos, pa, mn) && SdomsAbove(t, sd, i, dfn, pos, sdm)
        invariant Buckets(t, sd, i, dfn, pos, sdm, idm, Listing(e, head[2]))
        invariant forall v :: 1 <= v <= n && dfn[v] <= 1 ==> idm[v] == old(idm[v])
        decreases i
      {
        sd := LinkNext(i, t, sd, g, preds, r, s);
        i := i - 1;
      }
      AllSettled(t, g, r, s, sd, i, sdm, idm, Listing(e, head[2]));
    }

    /** One round of the main loop: number `i` gets its semidominator, is linked, and its parent's bucket drained. */
    method LinkNext(i: nat, ghost t: DfsTree, ghost sd: seq<nat>, ghost g: Graph, ghost preds: Graph, ghost r: Search,
        ghost s: nat)
      returns (ghost sd': seq<nat>)
      requires Shape() && 2 <= i <= tim <= n && |sd| == tim + 1
      requires r == Search(tim, dfn, pos, fa, fin) && Listing(e, head[0]) == g && Listing(e, head[1]) == preds
      requires Mirrors(t, g, r, s) && Converse(g, preds)
      requires IsForest(t, sd, i, dfn, pos, pa, mn) && SdomsAbove(t, sd, i, dfn, pos, sdm)
      requires Buckets(t, sd, i, dfn, pos, sdm, idm, Listing(e, head[2]))
      modifies `pa, `mn, `sdm, `idm, `e, `head, `edge_cnt
      ensures Shape() && |sd'| == tim + 1
      ensures Listing(e, head[0]) == g && Listing(e, head[1]) == preds
      ensures IsForest(t, sd', i - 1, dfn, pos, pa, mn) && SdomsAbove(t, sd', i - 1, dfn, pos, sdm)
      ensures Buckets(t, sd', i - 1, dfn, pos, sdm, idm, Listing(e, head[2]))
      ensures forall v :: 1 <= v <= n && dfn[v] <= 1 ==> idm[v] == old(idm[v])
    {
      hide Mirrors, IsForest, SdomsAbove, IsSdom, Buckets, Draining, Converse, Chain, Listing, EdgeShape, LinksDown,
        Renumbers;
      var u := pos[i];
      EdgeSizes(e, head, n);
      MirrorFacts(t, g, r, s, i);
      var res := LeastCandidate(u, t, sd, i, s);
      LinkVertex(t, sd, i - 1, g, r, s, pa, mn, sdm, idm, Listing(e, head[2]), u, res);
      ghost var buckets := Listing(e, head[2])[pos[res] := [u] + Listing(e, head[2])[pos[res]]];
      sdm := sdm[u := pos[res]];
      pa := pa[u := fa[u]];
      sd' := sd[i := res];
      AddEdge(2, sdm[u], u);
      EdgeSizes(e, head, n);
      assert Listing(e, head[2]) == buckets;
      u := fa[u];
      DrainBucket(u, t, sd', i - 1);
    }

    method Query(u: nat) returns (r: nat)
      requires u < |idm|
      ensures r == idm[u]
    {
      r := idm[u];
    }
  }

  lemma EdgeSizes(e: seq<Link>, head: seq<seq<nat>>, n: nat)
    requires EdgeShape(e, head, n)
    ensures LinksDown(e) && |head| == 3
    ensures forall o :: 0 <= o < 3 ==> |head[o]| == n + 1 && |Listing(e, head[o])| == n + 1
    ensures forall o, u :: 0 <= o < 3 && 1 <= u < |head[o]| ==> head[o][u] < |e|
  {
  }

  lemma NoEntries(e: seq<Link>, head: seq<seq<nat>>, n: nat)
    requires EdgeShape(e, head, n) && forall u :: 1 <= u <= n ==> head[2][u] == 0
    ensures forall u :: 1 <= u <= n ==> Listing(e, head[2])[u] == []
  {
  }

  lemma ListStart(e: seq<Link>, head: seq<seq<nat>>, n: nat, o: nat, u: nat)
    requires EdgeShape(e, head, n) && 1 <= u <= n && o < 3
    ensures LinksDown(e) && |head| == 3 && |head[o]| == n + 1 && head[o][u] < |e|
    ensures Chain(e, 0) == []
    ensures forall k :: 1 <= k <= n ==> head[o][k] < |e|
    ensures forall y :: y in Chain(e, head[o][u]) ==> 1 <= y <= n
  {
    ChainInRange(e, n, head[o][u]);
  }

  lemma ListStep(e: seq<Link>, head: seq<seq<nat>>, n: nat, i: nat)
    requires EdgeShape(e, head, n) && 0 < i < |e|
    ensures LinksDown(e) && 1 <= e[i].v <= n && e[i].nxt < i
    ensures Chain(e, i) == [e[i].v] + Chain(e, e[i].nxt)
  {
  }

  lemma {:induction false} ChainInRange(e: seq<Link>, n: nat, i: nat)
    requires LinksDown(e) && i < |e| && forall k :: 0 < k < |e| ==> 1 <= e[k].v <= n
    ensures forall y :: y in Chain(e, i) ==> 1 <= y <= n
    decreases i
  {
    if i > 0 {
      ChainInRange(e, n, e[i].nxt);
    }
  }

  /** The child of `a` on the tree path down to `k`. */
  lemma ChildToward(t: DfsTree, a: nat, k: nat) returns (c: nat)
    requires t.Valid() && t.Anc(a, k) && a < k
    ensures 2 <= c && t.Anc(c, k) && t.par[c] == a
    decreases k
  {
    if t.par[k] == a {
      c := k;
    } else {
      c := ChildToward(t, a, t.par[k]);
    }
  }

  /** The unlinked end of a compressed path never has the smaller semidominator. */
  lemma RootNeverWins(t: DfsTree, sd: seq<nat>, b: nat, m: nat, k: nat)
    requires t.Valid() && |sd| == |t.g| && t.Anc(m, k) && m < k
    requires forall z :: m < z && t.Anc(z, k) ==> b < z
    requires forall z :: 2 <= z < |t.g| && b < z ==> IsSdom(t, z, sd[z])
    ensures exists z :: m < z && t.Anc(z, k) && sd[z] <= m
  {
    var c := ChildToward(t, m, k);
    SdomBelowParent(t, c, sd[c]);
  }

  lemma ForestFacts(t: DfsTree, sd: seq<nat>, b: nat, dfn: seq<nat>, pos: seq<nat>, pa: seq<nat>, mn: seq<nat>,
      sdm: seq<nat>, x: nat)
    requires IsForest(t, sd, b, dfn, pos, pa, mn) && SdomsAbove(t, sd, b, dfn, pos, sdm)
    requires 1 <= x < |dfn| && 0 < dfn[x]
    ensures |dfn| == |pos| == |pa| == |mn| == |sdm| && dfn[x] < |t.g|
    ensures forall k :: 1 <= k < |t.g| ==> 1 <= pos[k] < |dfn| && dfn[pos[k]] == k
    ensures 1 <= pa[x] < |dfn| && 0 < dfn[pa[x]] && (pa[x] == x ==> IsRoot(t, b, dfn, x, x))
    ensures pa[x] != x ==> dfn[pa[x]] < dfn[x]
    ensures pos[dfn[x]] == x
  {
    assert Linked(t, sd, b, dfn, pos, pa, mn, dfn[x]);
  }

  /** One step of `Find` on the way back: `x` is hung below the root of its old parent `tmp`. */
  lemma Compress(t: DfsTree, sd: seq<nat>, b: nat, dfn: seq<nat>, pos: seq<nat>, pa: seq<nat>, mn: seq<nat>,
      sdm: seq<nat>, x: nat, tmp: nat)
    requires 1 <= b && IsForest(t, sd, b, dfn, pos, pa, mn) && SdomsAbove(t, sd, b, dfn, pos, sdm)
    requires 1 <= x < |dfn| && 0 < dfn[x] && pa[x] == tmp != x
    requires 1 <= tmp < |dfn| && 0 < dfn[tmp] && IsRoot(t, b, dfn, pa[tmp], tmp)
    ensures |dfn| == |mn| == |sdm| && mn[x] < |dfn| && mn[tmp] < |dfn| && sdm[mn[x]] < |dfn| && sdm[mn[tmp]] < |dfn|
    ensures IsForest(t, sd, b, dfn, pos, pa[x := pa[tmp]],
              if dfn[sdm[mn[tmp]]] < dfn[sdm[mn[x]]] then mn[x := mn[tmp]] else mn)
    ensures IsRoot(t, b, dfn, pa[tmp], x)
  {
    hide Linked, DfsTree.Valid, IsRoot, SdomsAbove;
    ReadSdm(t, sd, b, dfn, pos, pa, mn, sdm, x);
    ReadSdm(t, sd, b, dfn, pos, pa, mn, sdm, tmp);
    CompressOne(t, sd, b, dfn, pos, pa, mn, sdm, x, tmp);
    var mn' := if dfn[sdm[mn[tmp]]] < dfn[sdm[mn[x]]] then mn[x := mn[tmp]] else mn;
    RelinkOne(t, sd, b, dfn, pos, pa, mn, pa[x := pa[tmp]], mn', dfn[x]);
  }

  lemma ReadSdm(t: DfsTree, sd: seq<nat>, b: nat, dfn: seq<nat>, pos: seq<nat>, pa: seq<nat>, mn: seq<nat>,
      sdm: seq<nat>, x: nat)
    requires IsForest(t, sd, b, dfn, pos, pa, mn) && SdomsAbove(t, sd, b, dfn, pos, sdm)
    requires 1 <= x < |dfn| && 0 < dfn[x]
    ensures |sdm| == |dfn| && 1 <= mn[x] < |dfn| && 0 < dfn[mn[x]] < |sd| && 1 <= sdm[mn[x]] < |dfn|
    ensures sd[dfn[mn[x]]] == dfn[sdm[mn[x]]]
    ensures pa[x] != x ==> b < dfn[x]
  {
    assert Linked(t, sd, b, dfn, pos, pa, mn, dfn[x]);
  }

  /** The entry of `x` itself after the step. */
  lemma CompressOne(t: DfsTree, sd: seq<nat>, b: nat, dfn: seq<nat>, pos: seq<nat>, pa: seq<nat>, mn: seq<nat>,
      sdm: seq<nat>, x: nat, tmp: nat)
    requires 1 <= b && IsForest(t, sd, b, dfn, pos, pa, mn) && SdomsAbove(t, sd, b, dfn, pos, sdm)
    requires 1 <= x < |dfn| && 0 < dfn[x] && pa[x] == tmp != x
    requires 1 <= tmp < |dfn| && 0 < dfn[tmp] && IsRoot(t, b, dfn, pa[tmp], tmp)
    requires mn[x] < |dfn| && mn[tmp] < |dfn| && dfn[mn[x]] < |sd| && dfn[mn[tmp]] < |sd|
    ensures Linked(t, sd, b, dfn, pos, pa[x := pa[tmp]],
              if sd[dfn[mn[tmp]]] < sd[dfn[mn[x]]] then mn[x := mn[tmp]] else mn, dfn[x])
    ensures IsRoot(t, b, dfn, pa[tmp], x)
  {
    hide IsForest, SdomsAbove, DfsTree.Valid;
    var k, m := dfn[x], dfn[tmp];
    ForestSizes(t, sd, b, dfn, pos, pa, mn, sdm);
    ForestLinks(t, sd, b, dfn, pos, pa, mn, x);
    ForestLinks(t, sd, b, dfn, pos, pa, mn, tmp);
    hide Hangs, IsSdom;
    if m <= b {
      SdomsFacts(t, sd, b, dfn, pos, sdm);
      RootLoses(t, sd, b, dfn[mn[x]], m, k);
    } else {
      JoinHangs(t, sd, b, dfn[pa[tmp]], dfn[mn[tmp]], m, dfn[mn[x]], k);
    }
    assert t.Anc(dfn[pa[tmp]], k) by {
      HangsFacts(t, sd, b, m, dfn[mn[x]], k);
      if m > b {
        HangsFacts(t, sd, b, dfn[pa[tmp]], dfn[mn[tmp]], m);
        AncTrans(t, dfn[pa[tmp]], m, k);
      }
    }
  }

  lemma ForestLinks(t: DfsTree, sd: seq<nat>, b: nat, dfn: seq<nat>, pos: seq<nat>, pa: seq<nat>, mn: seq<nat>, x: nat)
    requires IsForest(t, sd, b, dfn, pos, pa, mn) && 1 <= x < |dfn| && 0 < dfn[x]
    ensures Linked(t, sd, b, dfn, pos, pa, mn, dfn[x])
  {
  }

  lemma HangsFacts(t: DfsTree, sd: seq<nat>, b: nat, a: nat, y: nat, k: nat)
    requires |sd| == |t.g| && Hangs(t, sd, b, a, y, k)
    ensures t.Anc(a, k) && a < k
  {
  }

  lemma SdomsFacts(t: DfsTree, sd: seq<nat>, b: nat, dfn: seq<nat>, pos: seq<nat>, sdm: seq<nat>)
    requires SdomsAbove(t, sd, b, dfn, pos, sdm)
    ensures |sd| == |t.g| && forall k :: 1 <= k < |t.g| && k <= b ==> sd[k] == k
    ensures forall k :: 2 <= k < |t.g| && b < k ==> IsSdom(t, k, sd[k])
  {
    hide IsSdom;
  }

  /** What hangs below the root `m` has a least semidominator no greater than `m`. */
  lemma RootLoses(t: DfsTree, sd: seq<nat>, b: nat, y: nat, m: nat, k: nat)
    requires t.Valid() && |sd| == |t.g| && Hangs(t, sd, b, m, y, k)
    requires forall z :: 2 <= z < |t.g| && b < z ==> IsSdom(t, z, sd[z])
    ensures sd[y] <= m
  {
    hide IsSdom;
    RootNeverWins(t, sd, b, m, k);
  }

  /** A path up to `m` and one from `m` up to `a` join, with the lesser of their minima. */
  lemma JoinHangs(t: DfsTree, sd: seq<nat>, b: nat, a: nat, ym: nat, m: nat, yk: nat, k: nat)
    requires t.Valid() && |sd| == |t.g| && Hangs(t, sd, b, a, ym, m) && Hangs(t, sd, b, m, yk, k)
    ensures Hangs(t, sd, b, a, if sd[ym] < sd[yk] then ym else yk, k)
  {
    hide DfsTree.Valid;
    AncBetween(t, m, k);
    AncTrans(t, a, m, k);
    AncTrans(t, ym, m, k);
  }

  /** The ancestors of `k` up to its ancestor `m` are the ancestors of `m`. */
  lemma AncBetween(t: DfsTree, m: nat, k: nat)
    requires t.Valid() && t.Anc(m, k)
    ensures forall z: nat :: t.Anc(z, k) && z <= m ==> t.Anc(z, m)
  {
  }

  lemma AncTrans(t: DfsTree, a: nat, m: nat, k: nat)
    requires t.Valid() && t.Anc(a, m) && t.Anc(m, k)
    ensures t.Anc(a, k)
  {
  }

  /** A forest stays one when only the entry of number `k` changes, and to a linked one. */
  lemma RelinkOne(t: DfsTree, sd: seq<nat>, b: nat, dfn: seq<nat>, pos: seq<nat>, pa: seq<nat>, mn: seq<nat>,
                  pa': seq<nat>, mn': seq<nat>, k: nat)
    requires IsForest(t, sd, b, dfn, pos, pa, mn) && 1 <= k < |t.g| && |pa'| == |mn'| == |dfn|
    requires forall x :: 0 <= x < |dfn| && x != pos[k] ==> pa'[x] == pa[x] && mn'[x] == mn[x]
    requires Linked(t, sd, b, dfn, pos, pa', mn', k)
    ensures IsForest(t, sd, b, dfn, pos, pa', mn')
  {
    forall j | 1 <= j < |t.g|
      ensures Linked(t, sd, b, dfn, pos, pa', mn', j)
    {
      assert Linked(t, sd, b, dfn, pos, pa, mn, j);
    }
  }

  // ---- Building the tree ----

  /** The numbers of the vertices `ys`. */
  ghost function Numbers(dfn: seq<nat>, ys: seq<nat>): (ks: seq<nat>)
    ensures |ks| == |ys| && forall j :: 0 <= j < |ys| ==> ks[j] == if ys[j] < |dfn| then dfn[ys[j]] else 0
  {
    seq(|ys|, j requires 0 <= j < |ys| => if ys[j] < |dfn| then dfn[ys[j]] else 0)
  }

  /** Every visited vertex has only visited successors. */
  ghost predicate Closed(g: Graph, r: Search)
    requires r.Numbering(|g|)
  {
    forall x, y {:trigger y in g[x]} :: 1 <= x < |g| && 0 < r.dfn[x] && y in g[x] ==> 1 <= y < |g| && 0 < r.dfn[y]
  }

  ghost function NumberedGraph(g: Graph, r: Search): (h: Graph)
    requires r.Numbering(|g|) && r.tim < |g|
    ensures |h| == r.tim + 1 && h[0] == []
    ensures forall a :: 1 <= a <= r.tim ==> h[a] == Numbers(r.dfn, g[r.pos[a]])
  {
    seq(r.tim + 1, a requires 0 <= a <= r.tim => if a == 0 then [] else Numbers(r.dfn, g[r.pos[a]]))
  }

  lemma NumberedEdges(g: Graph, r: Search, a: nat, k: nat)
    requires r.Numbering(|g|) && r.tim < |g| && Closed(g, r)
    ensures Edge(NumberedGraph(g, r), a, k) <==> 1 <= a <= r.tim && 1 <= k <= r.tim && r.pos[k] in g[r.pos[a]]
  {
    if 1 <= a <= r.tim {
      var ys, ks := g[r.pos[a]], NumberedGraph(g, r)[a];
      if k in ks {
        var j :| 0 <= j < |ks| && ks[j] == k;
        assert ys[j] in ys;
      }
      if 1 <= k <= r.tim && r.pos[k] in ys {
        var j :| 0 <= j < |ys| && ys[j] == r.pos[k];
        assert ks[j] == k;
      }
    }
  }

  lemma SearchIsClosed(g: Graph, r: Search, s: nat)
    requires r.Numbering(|g|) && 1 <= s < |g| && r.dfn[s] == 1 && r.Finished(g, 1)
    requires forall y :: y in g[s] ==> 1 <= y < |g| && 0 < r.dfn[y]
    ensures r.tim < |g| && Closed(g, r)
    ensures forall k :: 2 <= k <= r.tim ==> 1 <= r.fa[r.pos[k]] < |g|
  {
    forall k | 2 <= k <= r.tim
      ensures 1 <= r.fa[r.pos[k]] < |g| && forall y :: y in g[r.pos[k]] ==> 1 <= y < |g| && 0 < r.dfn[y]
    {
      assert r.NodeDone(g, 1, k);
    }
    forall x, y | 1 <= x < |g| && 0 < r.dfn[x] && y in g[x]
      ensures 1 <= y < |g| && 0 < r.dfn[y]
    {
      assert x == r.pos[r.dfn[x]];
    }
  }

  lemma BuildTree(g: Graph, r: Search, s: nat) returns (t: DfsTree)
    requires r.Numbering(|g|) && 1 <= s < |g| && r.dfn[s] == 1 && 1 <= r.tim
    requires r.Finished(g, 1) && r.fin[1] == r.tim
    requires forall y :: y in g[s] ==> 1 <= y < |g| && 0 < r.dfn[y]
    ensures Mirrors(t, g, r, s)
  {
    SearchIsClosed(g, r, s);
    hide Search.NodeDone, Search.Finished, Search.Numbering, DfsTree.Valid, Renumbers, Edge, Closed;
    SearchSizes(r, |g|);
    var h := EdgesInNumbers(g, r);
    t := DfsTree(h, NumberedParents(r), r.fin[..r.tim + 1]);
    TreeIsValid(g, r, s, t);
    TreeRenumbers(t, r, |g|);
    assert Closed(g, r) && Renumbers(t, r.dfn, r.pos);
    ClosedFacts(g, r);
  }

  lemma ClosedFacts(g: Graph, r: Search)
    requires r.Numbering(|g|) && Closed(g, r)
    ensures forall x, y {:trigger y in g[x]} :: 1 <= x < |g| && 0 < r.dfn[x] && y in g[x] ==>
        1 <= y < |g| &&
        0 < r.dfn[y]
  {
  }

  lemma SearchSizes(r: Search, size: nat)
    requires r.Numbering(size)
    ensures r.tim < size == |r.dfn| == |r.pos| == |r.fa| == |r.fin|
    ensures forall k :: 1 <= k <= r.tim ==> 1 <= r.pos[k] < size
  {
  }

  lemma TreeRenumbers(t: DfsTree, r: Search, size: nat)
    requires r.Numbering(size) && |t.g| == r.tim + 1
    ensures Renumbers(t, r.dfn, r.pos)
  {
  }

  /** The graph of the visited vertices in numbers. */
  lemma EdgesInNumbers(g: Graph, r: Search) returns (h: Graph)
    requires r.Numbering(|g|) && r.tim < |g| && Closed(g, r)
    ensures |h| == r.tim + 1
    ensures forall a: nat, k: nat :: Edge(h, a, k) <==> 1 <= a <= r.tim && 1 <= k <= r.tim && r.pos[k] in g[r.pos[a]]
  {
    h := NumberedGraph(g, r);
    hide Search.Numbering, Closed, Edge;
    SearchSizes(r, |g|);
    forall a: nat, k: nat
      ensures Edge(h, a, k) <==> 1 <= a <= r.tim && 1 <= k <= r.tim && r.pos[k] in g[r.pos[a]]
    {
      NumberedEdges(g, r, a, k);
    }
  }

  ghost function NumberedParents(r: Search): (par: seq<nat>)
    requires r.tim < |r.dfn| == |r.fa| == |r.pos|
    requires forall k :: 2 <= k <= r.tim ==> r.pos[k] < |r.fa| && r.fa[r.pos[k]] < |r.dfn|
    ensures |par| == r.tim + 1 && forall k :: 2 <= k <= r.tim ==> par[k] == r.dfn[r.fa[r.pos[k]]]
  {
    seq(r.tim + 1, k requires 0 <= k <= r.tim => if k < 2 then 0 else r.dfn[r.fa[r.pos[k]]])
  }

  lemma TreeIsValid(g: Graph, r: Search, s: nat, t: DfsTree)
    requires r.Numbering(|g|) && 1 <= s < |g| && r.dfn[s] == 1 && 1 <= r.tim
    requires r.Finished(g, 1) && r.fin[1] == r.tim
    requires |t.g| == |t.par| == r.tim + 1 && t.fin == r.fin[..r.tim + 1]
    requires forall k :: 2 <= k <= r.tim ==> r.fa[r.pos[k]] < |g| && t.par[k] == r.dfn[r.fa[r.pos[k]]]
    requires forall a: nat, k: nat :: Edge(t.g, a, k) <==> 1 <= a <= r.tim && 1 <= k <= r.tim && r.pos[k] in g[r.pos[a]]
    ensures t.Valid()
  {
    assert r.tim < |r.fin| && s == r.pos[1] && 2 <= |t.g|;
    hide Search.NodeDone, Search.Numbering, Edge;
    TreeBlocks(g, r, s, t);
    TreeParents(g, r, s, t);
    TreeEdges(g, r, s, t);
  }

  lemma TreeBlocks(g: Graph, r: Search, s: nat, t: DfsTree)
    requires r.Numbering(|g|) && 1 <= s < |g| && r.dfn[s] == 1 && 1 <= r.tim
    requires r.Finished(g, 1) && r.fin[1] == r.tim
    requires |t.g| == |t.par| == r.tim + 1 && t.fin == r.fin[..r.tim + 1]
    requires forall k :: 2 <= k <= r.tim ==> r.fa[r.pos[k]] < |g| && t.par[k] == r.dfn[r.fa[r.pos[k]]]
    requires forall a: nat, k: nat :: Edge(t.g, a, k) <==> 1 <= a <= r.tim && 1 <= k <= r.tim && r.pos[k] in g[r.pos[a]]
    ensures forall i :: 1 <= i <= r.tim ==> i <= t.fin[i] <= r.tim
    ensures forall i, j :: 1 <= i <= j <= r.tim && j <= t.fin[i] ==> t.fin[j] <= t.fin[i]
  {
    hide Search.NodeDone, Edge;
    forall i | 2 <= i <= r.tim
      ensures i <= t.fin[i] <= r.tim
      ensures forall j :: i <= j <= r.tim && j <= t.fin[i] ==> t.fin[j] <= t.fin[i]
    {
      TreeNode(g, r, t, i);
    }
  }

  lemma TreeParents(g: Graph, r: Search, s: nat, t: DfsTree)
    requires r.Numbering(|g|) && 1 <= s < |g| && r.dfn[s] == 1 && 1 <= r.tim
    requires r.Finished(g, 1) && r.fin[1] == r.tim
    requires |t.g| == |t.par| == r.tim + 1 && t.fin == r.fin[..r.tim + 1]
    requires forall k :: 2 <= k <= r.tim ==> r.fa[r.pos[k]] < |g| && t.par[k] == r.dfn[r.fa[r.pos[k]]]
    requires forall a: nat, k: nat :: Edge(t.g, a, k) <==> 1 <= a <= r.tim && 1 <= k <= r.tim && r.pos[k] in g[r.pos[a]]
    ensures forall i {:trigger t.par[i]} :: 2 <= i <= r.tim ==>
        1 <= t.par[i] < i <= t.fin[t.par[i]] &&
        Edge(t.g, t.par[i], i)
    ensures forall x, i :: 1 <= x < i <= r.tim && i <= t.fin[x] ==> x <= t.par[i]
  {
    hide Search.NodeDone, Search.Finished, Edge;
    forall i {:trigger t.par[i]} | 2 <= i <= r.tim
      ensures 1 <= t.par[i] < i <= t.fin[t.par[i]] && Edge(t.g, t.par[i], i)
    {
      TreeNode(g, r, t, i);
    }
    forall x, i | 1 <= x < i <= r.tim && i <= t.fin[x]
      ensures x <= t.par[i]
    {
      TreeNode(g, r, t, i);
    }
  }

  lemma TreeEdges(g: Graph, r: Search, s: nat, t: DfsTree)
    requires r.Numbering(|g|) && 1 <= s < |g| && r.dfn[s] == 1 && 1 <= r.tim
    requires r.Finished(g, 1) && r.fin[1] == r.tim
    requires |t.g| == |t.par| == r.tim + 1 && t.fin == r.fin[..r.tim + 1]
    requires forall k :: 2 <= k <= r.tim ==> r.fa[r.pos[k]] < |g| && t.par[k] == r.dfn[r.fa[r.pos[k]]]
    requires forall a: nat, k: nat :: Edge(t.g, a, k) <==> 1 <= a <= r.tim && 1 <= k <= r.tim && r.pos[k] in g[r.pos[a]]
    ensures forall x: nat, y: nat :: Edge(t.g, x, y) ==> 1 <= x <= r.tim && 1 <= y <= r.tim && (x < y ==> y <= t.fin[x])
  {
    hide Search.NodeDone, Search.Finished, Edge;
    forall x: nat, y: nat | Edge(t.g, x, y)
      ensures 1 <= x <= r.tim && 1 <= y <= r.tim && (x < y ==> y <= t.fin[x])
    {
      if x >= 2 {
        TreeNode(g, r, t, x);
      }
    }
  }

  lemma TreeNode(g: Graph, r: Search, t: DfsTree, i: nat)
    requires r.Numbering(|g|) && 2 <= i <= r.tim && r.Finished(g, 1) && r.fin[1] == r.tim
    requires |t.g| == |t.par| == r.tim + 1 && t.fin == r.fin[..r.tim + 1]
    requires r.fa[r.pos[i]] < |g| && t.par[i] == r.dfn[r.fa[r.pos[i]]]
    requires forall a: nat, k: nat :: Edge(t.g, a, k) <==> 1 <= a <= r.tim && 1 <= k <= r.tim && r.pos[k] in g[r.pos[a]]
    ensures i <= t.fin[i] < |t.g|
    ensures 1 <= t.par[i] < i <= t.fin[t.par[i]] && Edge(t.g, t.par[i], i)
    ensures forall j :: i <= j <= t.fin[i] ==> t.fin[j] <= t.fin[i]
    ensures forall x :: 1 <= x < i && i <= t.fin[x] ==> x <= t.par[i]
    ensures forall y: nat :: Edge(t.g, i, y) && i < y ==> y <= t.fin[i]
  {
    assert r.NodeDone(g, 1, i);
  }

  // ---- Candidates for the semidominator ----

  lemma NoOffersYet(t: DfsTree, sd: seq<nat>, b: nat, dfn: seq<nat>, pos: seq<nat>, pa: seq<nat>, mn: seq<nat>)
    requires IsForest(t, sd, b, dfn, pos, pa, mn)
    ensures |sd| == |t.g| == |t.fin| && LeastSoFar(t, sd, b, dfn, [], |dfn|)
  {
  }

  lemma VisitedOrNot(t: DfsTree, sd: seq<nat>, b: nat, dfn: seq<nat>, pos: seq<nat>, pa: seq<nat>, mn: seq<nat>, v: nat)
    requires IsForest(t, sd, b, dfn, pos, pa, mn) && 1 <= v < |dfn|
    ensures dfn[v] < |t.g| && |sd| == |t.g| == |t.fin|
  {
  }

  /** After `Find(v)` the offer of `v` can be read off. */
  lemma OfferOf(t: DfsTree, sd: seq<nat>, b: nat, dfn: seq<nat>, pos: seq<nat>, pa: seq<nat>, mn: seq<nat>,
      sdm: seq<nat>, v: nat)
    requires 1 <= b && IsForest(t, sd, b, dfn, pos, pa, mn) && SdomsAbove(t, sd, b, dfn, pos, sdm)
    requires 1 <= v < |dfn| && 0 < dfn[v] && IsRoot(t, b, dfn, pa[v], v)
    ensures |mn| == |sdm| == |dfn| && mn[v] < |dfn| && sdm[mn[v]] < |dfn|
    ensures |sd| == |t.g| == |t.fin| && dfn[v] < |t.g|
    ensures Offers(t, sd, b, dfn[v], if dfn[v] < b then dfn[v] else dfn[sdm[mn[v]]])
  {
    assert Linked(t, sd, b, dfn, pos, pa, mn, dfn[v]);
  }

  lemma TakeOffer(t: DfsTree, sd: seq<nat>, b: nat, dfn: seq<nat>, seen: seq<nat>, v: nat, res0: nat, res: nat)
    requires |sd| == |t.g| == |t.fin| && forall v :: v in seen ==> v < |dfn| && dfn[v] < |t.g|
    requires LeastSoFar(t, sd, b, dfn, seen, res0) && v < |dfn| && 0 < dfn[v] < |t.g|
    requires exists c :: Offers(t, sd, b, dfn[v], c) && res == if res0 <= c then res0 else c
    ensures LeastSoFar(t, sd, b, dfn, seen + [v], res)
  {
    var c :| Offers(t, sd, b, dfn[v], c) && res == if res0 <= c then res0 else c;
    assert v in seen + [v];
    assert forall w :: w in seen + [v] ==> w in seen || w == v;
    if res == res0 != |dfn| {
      var w :| w in seen && 0 < dfn[w] && Offers(t, sd, b, dfn[w], res);
      assert w in seen + [v];
    }
  }

  lemma SkipUnvisited(t: DfsTree, sd: seq<nat>, b: nat, dfn: seq<nat>, seen: seq<nat>, v: nat, res: nat)
    requires |sd| == |t.g| == |t.fin| && forall v :: v in seen ==> v < |dfn| && dfn[v] < |t.g|
    requires LeastSoFar(t, sd, b, dfn, seen, res) && v < |dfn| && dfn[v] == 0 < |t.g|
    ensures LeastSoFar(t, sd, b, dfn, seen + [v], res)
  {
    assert forall w :: w in seen + [v] ==> w in seen || w == v;
    if res != |dfn| {
      var w :| w in seen && 0 < dfn[w] && Offers(t, sd, b, dfn[w], res);
      assert w in seen + [v];
    }
  }

  lemma InEdges(t: DfsTree, g: Graph, preds: Graph, r: Search, s: nat, u: nat, a: nat)
    requires Mirrors(t, g, r, s) && Converse(g, preds) && 1 <= u < |g| && 1 <= r.dfn[u]
    ensures Edge(t.g, a, r.dfn[u]) <==> 1 <= a <= r.tim && r.pos[a] in preds[u]
  {
    assert r.pos[r.dfn[u]] == u;
  }

  lemma LeastIsSdom(t: DfsTree, g: Graph, preds: Graph, r: Search, s: nat, sd: seq<nat>, sdm: seq<nat>, u: nat,
      res: nat)
    requires Mirrors(t, g, r, s) && Converse(g, preds) && 1 <= u < |g| && 2 <= r.dfn[u]
    requires SdomsAbove(t, sd, r.dfn[u], r.dfn, r.pos, sdm)
    requires forall v :: v in preds[u] ==> 1 <= v < |g| && r.dfn[v] < |t.g|
    requires LeastSoFar(t, sd, r.dfn[u], r.dfn, preds[u], res)
    ensures IsSdom(t, r.dfn[u], res) && 1 <= res < r.dfn[u]
  {
    hide Offers, LeastSoFar, DfsTree.Valid, IsSdom;
    var b := r.dfn[u];
    forall a: nat
      ensures Edge(t.g, a, b) <==> 1 <= a <= r.tim && r.pos[a] in preds[u]
    {
      InEdges(t, g, preds, r, s, u, a);
    }
    assert t.Valid() && |t.g| == r.tim + 1;
    OffersAreCandidates(t, sd, b, r.dfn, r.pos, preds[u], res);
  }

  lemma OffersAreCandidates(t: DfsTree, sd: seq<nat>, b: nat, dfn: seq<nat>, pos: seq<nat>, preds: seq<nat>, res: nat)
    requires t.Valid() && Renumbers(t, dfn, pos) && |sd| == |t.g| && 2 <= b < |t.g|
    requires forall x :: b < x < |t.g| ==> IsSdom(t, x, sd[x])
    requires forall a: nat :: Edge(t.g, a, b) <==> 1 <= a < |t.g| && pos[a] in preds
    requires forall v :: v in preds ==> 1 <= v < |dfn|
    requires LeastSoFar(t, sd, b, dfn, preds, res)
    ensures IsSdom(t, b, res) && 1 <= res < b
  {
    hide IsSdom;
    var f := t.par[b];
    assert Edge(t.g, f, b) && pos[f] in preds;
    var v :| v in preds && 0 < dfn[v] && Offers(t, sd, b, dfn[v], res);
    assert Edge(t.g, dfn[v], b);
    SdomRecurrence(t, b, res, sd);
    SdomBelowParent(t, b, res);
  }

  // ---- Linking a vertex and draining a bucket ----

  /** An entry of the bucket of `p` is visited, after `b`, and has `p` as semidominator. */
  lemma BucketEntry(t: DfsTree, sd: seq<nat>, b: nat, dfn: seq<nat>, pos: seq<nat>, pa: seq<nat>, mn: seq<nat>,
      sdm: seq<nat>, idm: seq<nat>, buckets: Graph, p: nat, rest: seq<nat>, v: nat)
    requires IsForest(t, sd, b, dfn, pos, pa, mn) && SdomsAbove(t, sd, b, dfn, pos, sdm)
    requires |dfn| == |idm| == |buckets| == |sdm| && 1 <= p < |dfn|
    requires Draining(t, sd, b, dfn, pos, sdm, idm, buckets, p, rest) && v in buckets[p]
    ensures 1 <= v < |dfn| && b < dfn[v] < |t.g| && sdm[v] == p && sd[dfn[v]] == dfn[p]
  {
    assert pos[dfn[v]] == v;
  }

  /** The root found from a bucket entry is the bucket's owner. */
  lemma RootIsOwner(t: DfsTree, b: nat, p: nat, r: nat, k: nat)
    requires t.Valid() && 1 <= b && b + 1 < |t.g| && t.par[b + 1] == p && b < k
    requires t.Anc(p, k) && t.Anc(r, k) && r <= b && forall z :: r < z && t.Anc(z, k) ==> b < z
    ensures r == p
  {
    assert p <= r;
    assert t.Anc(r, b + 1) ==> r <= p;
  }

  lemma SettleEntry(t: DfsTree, sd: seq<nat>, b: nat, dfn: seq<nat>, pos: seq<nat>, pa: seq<nat>, mn: seq<nat>,
      sdm: seq<nat>, idm: seq<nat>, buckets: Graph, p: nat, v: nat, rest: seq<nat>)
    requires IsForest(t, sd, b, dfn, pos, pa, mn) && SdomsAbove(t, sd, b, dfn, pos, sdm)
    requires |dfn| == |idm| == |buckets| == |sdm| && 1 <= p < |dfn|
    requires 1 <= b && b + 1 < |t.g| == |t.par| && t.par[b + 1] == dfn[p]
    requires 1 <= v < |dfn| && b < dfn[v] && sdm[v] == p && IsRoot(t, b, dfn, pa[v], v)
    requires Draining(t, sd, b, dfn, pos, sdm, idm, buckets, p, [v] + rest)
    ensures |mn| == |sdm| == |dfn| && 1 <= mn[v] < |dfn|
    ensures Draining(t, sd, b, dfn, pos, sdm, idm[v := if sdm[mn[v]] == p then p else mn[v]], buckets, p, rest)
  {
    hide Draining, Settled, IsRoot, SdomsAbove;
    assert Linked(t, sd, b, dfn, pos, pa, mn, dfn[v]);
    var idm' := idm[v := if sdm[mn[v]] == p then p else mn[v]];
    SettleOne(t, sd, b, dfn, pos, pa, mn, sdm, idm', p, v);
    DrainOne(t, sd, b, dfn, pos, sdm, idm, idm', buckets, p, v, rest);
  }

  lemma DrainOne(t: DfsTree, sd: seq<nat>, b: nat, dfn: seq<nat>, pos: seq<nat>, sdm: seq<nat>, idm: seq<nat>,
      idm': seq<nat>, buckets: Graph, p: nat, v: nat, rest: seq<nat>)
    requires Renumbers(t, dfn, pos) && |sd| == |t.g| == |t.par| && |dfn| == |sdm| == |idm| == |idm'| == |buckets|
    requires Draining(t, sd, b, dfn, pos, sdm, idm, buckets, p, [v] + rest)
    requires 1 <= v < |dfn| && 0 < dfn[v] && Settled(t, sd, b, dfn, pos, idm', dfn[v])
    requires forall x :: 0 <= x < |dfn| && x != v ==> idm'[x] == idm[x]
    ensures Draining(t, sd, b, dfn, pos, sdm, idm', buckets, p, rest)
  {
    forall j | 2 <= j < |t.g| && b < j
      ensures Settled(t, sd, b, dfn, pos, idm', j) || pos[j] in rest ||
          (sdm[pos[j]] != p && Pending(t, sd, b, pos, sdm, buckets, j))
    {
      if pos[j] == v {
        assert j == dfn[v];
      } else {
        SettledElsewhere(t, sd, b, dfn, pos, idm, idm', j);
      }
    }
  }

  lemma SettledElsewhere(t: DfsTree, sd: seq<nat>, b: nat, dfn: seq<nat>, pos: seq<nat>, idm: seq<nat>, idm': seq<nat>,
      k: nat)
    requires Renumbers(t, dfn, pos) && |sd| == |t.g| && |idm| == |idm'| == |dfn| && 1 <= k < |t.g|
    requires idm[pos[k]] == idm'[pos[k]]
    ensures Settled(t, sd, b, dfn, pos, idm', k) == Settled(t, sd, b, dfn, pos, idm, k)
  {
  }

  lemma SettleOne(t: DfsTree, sd: seq<nat>, b: nat, dfn: seq<nat>, pos: seq<nat>, pa: seq<nat>, mn: seq<nat>,
      sdm: seq<nat>, idm: seq<nat>, p: nat, v: nat)
    requires IsForest(t, sd, b, dfn, pos, pa, mn) && SdomsAbove(t, sd, b, dfn, pos, sdm)
    requires |dfn| == |idm| && 1 <= p < |dfn|
    requires 1 <= b && b + 1 < |t.g| && t.par[b + 1] == dfn[p]
    requires 1 <= v < |dfn| && b < dfn[v] && sdm[v] == p && IsRoot(t, b, dfn, pa[v], v)
    requires mn[v] < |dfn| && idm[v] == if sdm[mn[v]] == p then p else mn[v]
    ensures Settled(t, sd, b, dfn, pos, idm, dfn[v])
  {
    hide IsSdom, IsForest, SdomsAbove;
    var k := dfn[v];
    ForestSizes(t, sd, b, dfn, pos, pa, mn, sdm);
    ReadSdm(t, sd, b, dfn, pos, pa, mn, sdm, v);
    EntrySdom(t, sd, b, dfn, pos, sdm, p, v);
    ForestLinks(t, sd, b, dfn, pos, pa, mn, v);
    hide DfsTree.Valid;
    assert sd[dfn[mn[v]]] == sd[k] ==> sdm[mn[v]] == pos[dfn[p]] == p;
    RootIsOwner(t, b, dfn[p], dfn[pa[v]], k);
    AncSelf(t, k);
  }

  /** The semidominator of a bucket entry is the bucket's owner, an ancestor. */
  lemma EntrySdom(t: DfsTree, sd: seq<nat>, b: nat, dfn: seq<nat>, pos: seq<nat>, sdm: seq<nat>, p: nat, v: nat)
    requires t.Valid() && SdomsAbove(t, sd, b, dfn, pos, sdm) && 1 <= b && 1 <= v < |dfn| && b < dfn[v] && v < |sdm| &&
        sdm[v] == p < |dfn|
    ensures |sd| == |t.g| && dfn[v] < |t.g| && sd[dfn[v]] == dfn[p] && pos[dfn[v]] == v && Renumbers(t, dfn, pos)
    ensures t.Anc(dfn[p], dfn[v]) && dfn[p] < dfn[v]
  {
    hide IsSdom;
    assert pos[dfn[v]] == v && sd[dfn[v]] == dfn[p];
    SdomBelowParent(t, dfn[v], sd[dfn[v]]);
  }

  lemma AncSelf(t: DfsTree, k: nat)
    requires t.Valid() && 1 <= k < |t.g|
    ensures t.Anc(k, k)
  {
  }

  lemma EmptyBucket(t: DfsTree, sd: seq<nat>, b: nat, dfn: seq<nat>, pos: seq<nat>, sdm: seq<nat>, idm: seq<nat>,
                    e: seq<Link>, head: seq<seq<nat>>, n: nat, p: nat)
    requires EdgeShape(e, head, n) && 1 <= p <= n
    requires Renumbers(t, dfn, pos) && |sd| == |t.g| == |t.par| && |dfn| == |sdm| == |idm| == n + 1
    requires Draining(t, sd, b, dfn, pos, sdm, idm, Listing(e, head[2]), p, [])
    ensures var head' := head[2 := head[2][p := 0]];
      && EdgeShape(e, head', n) && Buckets(t, sd, b, dfn, pos, sdm, idm, Listing(e, head'[2]))
  {
    hide Settled;
    var h' := head[2][p := 0];
    var buckets, buckets' := Listing(e, head[2]), Listing(e, h');
    assert EdgeShape(e, head[2 := h'], n);
    assert forall q :: 1 <= q <= n ==> buckets'[q] == if q == p then [] else buckets[q];
    forall k | 2 <= k < |t.g| && b < k && sdm[pos[k]] != p && Pending(t, sd, b, pos, sdm, buckets, k)
      ensures Pending(t, sd, b, pos, sdm, buckets', k)
    {
    }
  }

  ghost function Identity(m: nat): (s: seq<nat>)
    ensures |s| == m && forall k :: 0 <= k < m ==> s[k] == k
  {
    seq(m, k requires 0 <= k < m => k)
  }

  lemma StartNumbers(r: Search, g: Graph)
    requires |r.dfn| == |r.pos| == |r.fa| == |r.fin| == |g| >= 1 && r.tim == 0
    requires forall v :: 1 <= v < |g| ==> r.dfn[v] == 0
    ensures r.Numbering(|g|)
  {
    assert r.Unvisited() == FromOne(|g|);
  }

  /** The set 1..m-1. */
  ghost function FromOne(m: nat): (s: set<nat>)
    requires 1 <= m
    ensures |s| == m - 1 && forall v: nat :: v in s <==> 1 <= v < m
  {
    if m == 1 then {} else FromOne(m - 1) + {m - 1}
  }

  lemma NothingLinked(t: DfsTree, sd: seq<nat>, g: Graph, r: Search, s: nat, pa: seq<nat>, mn: seq<nat>, sdm: seq<nat>,
      idm: seq<nat>, buckets: Graph)
    requires Mirrors(t, g, r, s) && |sd| == r.tim + 1 && forall k :: 0 <= k <= r.tim ==> sd[k] == k
    requires |pa| == |mn| == |sdm| == |idm| == |buckets| == |g|
    requires forall v :: 1 <= v < |g| ==> pa[v] == mn[v] == sdm[v] == v && buckets[v] == []
    ensures IsForest(t, sd, r.tim, r.dfn, r.pos, pa, mn) && SdomsAbove(t, sd, r.tim, r.dfn, r.pos, sdm)
    ensures Renumbers(t, r.dfn, r.pos) && |t.g| == |t.par| == r.tim + 1
    ensures Buckets(t, sd, r.tim, r.dfn, r.pos, sdm, idm, buckets)
  {
  }

  lemma MirrorFacts(t: DfsTree, g: Graph, r: Search, s: nat, k: nat)
    requires Mirrors(t, g, r, s) && 2 <= k <= r.tim
    ensures 1 <= r.pos[k] < |g| && r.dfn[r.pos[k]] == k && |r.fa| == |g| && |t.g| == r.tim + 1
    ensures var f := r.fa[r.pos[k]]; 1 <= f < |g| && |t.par| == r.tim + 1 && r.dfn[f] == t.par[k]
  {
  }

  /** Number `b + 1` is linked below its parent, which opens the draining of the parent's bucket. */
  lemma LinkVertex(t: DfsTree, sd: seq<nat>, b: nat, g: Graph, r: Search, s: nat, pa: seq<nat>, mn: seq<nat>,
      sdm: seq<nat>, idm: seq<nat>, buckets: Graph, u: nat, res: nat)
    requires Mirrors(t, g, r, s) && 1 <= u < |g| && 1 <= b && r.dfn[u] == b + 1
    requires IsForest(t, sd, b + 1, r.dfn, r.pos, pa, mn) && SdomsAbove(t, sd, b + 1, r.dfn, r.pos, sdm)
    requires |idm| == |buckets| == |g| && Buckets(t, sd, b + 1, r.dfn, r.pos, sdm, idm, buckets)
    requires IsSdom(t, b + 1, res) && 1 <= res <= b
    ensures 1 <= r.pos[res] < |g| && 1 <= r.fa[u] < |g|
    ensures var sd', sdm', pa' := sd[b + 1 := res], sdm[u := r.pos[res]], pa[u := r.fa[u]];
      var buckets' := buckets[r.pos[res] := [u] + buckets[r.pos[res]]];
      && IsForest(t, sd', b, r.dfn, r.pos, pa', mn) && SdomsAbove(t, sd', b, r.dfn, r.pos, sdm')
      && Draining(t, sd', b, r.dfn, r.pos, sdm', idm, buckets', r.fa[u], buckets'[r.fa[u]])
  {
    hide IsForest, SdomsAbove, Buckets, Draining, IsSdom, DfsTree.Valid;
    MirrorFacts(t, g, r, s, b + 1);
    ForestSizes(t, sd, b + 1, r.dfn, r.pos, pa, mn, sdm);
    LinkForest(t, sd, b, r.dfn, r.pos, pa, mn, u, r.fa[u], res);
    LinkSdoms(t, sd, b, r.dfn, r.pos, sdm, u, res);
    LinkBuckets(t, sd, b, r.dfn, r.pos, sdm, idm, buckets, u, r.fa[u], res);
  }

  lemma ForestSizes(t: DfsTree, sd: seq<nat>, b: nat, dfn: seq<nat>, pos: seq<nat>, pa: seq<nat>, mn: seq<nat>,
      sdm: seq<nat>)
    requires IsForest(t, sd, b, dfn, pos, pa, mn) && SdomsAbove(t, sd, b, dfn, pos, sdm)
    ensures t.Valid() && |sd| == |t.g| == |t.par| && |pa| == |mn| == |sdm| == |dfn|
  {
  }

  lemma LinkSdomAt(t: DfsTree, sd: seq<nat>, b: nat, dfn: seq<nat>, pos: seq<nat>, sdm: seq<nat>, u: nat, res: nat,
      k: nat)
    requires SdomsAbove(t, sd, b + 1, dfn, pos, sdm) && 1 <= k < |t.g|
    requires 1 <= u < |dfn| && dfn[u] == b + 1 && 1 <= res <= b
    ensures b + 1 < |t.g| && 1 <= pos[k] < |dfn| && 1 <= pos[res]
    ensures var x := sdm[u := pos[res]][pos[k]]; 1 <= x < |dfn| && 0 < dfn[x] && sd[b + 1 := res][k] == dfn[x]
  {
    hide IsSdom;
    assert dfn[pos[k]] == k && dfn[pos[res]] == res;
    assert pos[b + 1] == u;
  }

  lemma LinkSdoms(t: DfsTree, sd: seq<nat>, b: nat, dfn: seq<nat>, pos: seq<nat>, sdm: seq<nat>, u: nat, res: nat)
    requires Renumbers(t, dfn, pos) && SdomsAbove(t, sd, b + 1, dfn, pos, sdm)
    requires 1 <= u < |dfn| && dfn[u] == b + 1 && IsSdom(t, b + 1, res) && 1 <= res <= b
    ensures SdomsAbove(t, sd[b + 1 := res], b, dfn, pos, sdm[u := pos[res]])
  {
    hide IsSdom;
    LinkSdomAt(t, sd, b, dfn, pos, sdm, u, res, b + 1);
    forall k | 1 <= k < |t.g|
      ensures 1 <= pos[k] < |dfn|
      ensures var x := sdm[u := pos[res]][pos[k]]; 1 <= x < |dfn| && 0 < dfn[x] && sd[b + 1 := res][k] == dfn[x]
    {
      LinkSdomAt(t, sd, b, dfn, pos, sdm, u, res, k);
    }
  }

  lemma LinkForest(t: DfsTree, sd: seq<nat>, b: nat, dfn: seq<nat>, pos: seq<nat>, pa: seq<nat>, mn: seq<nat>, u: nat,
      f: nat, res: nat)
    requires IsForest(t, sd, b + 1, dfn, pos, pa, mn)
    requires 1 <= u < |dfn| && 1 <= b && dfn[u] == b + 1 && 1 <= f < |dfn| && dfn[f] == t.par[b + 1]
    ensures IsForest(t, sd[b + 1 := res], b, dfn, pos, pa[u := f], mn)
  {
    var sd', pa' := sd[b + 1 := res], pa[u := f];
    forall k | 1 <= k < |t.g|
      ensures Linked(t, sd', b, dfn, pos, pa', mn, k)
    {
      assert Linked(t, sd, b + 1, dfn, pos, pa, mn, k);
      if k == b + 1 {
        assert forall z :: t.par[k] < z && t.Anc(z, k) ==> z == k;
      }
    }
  }

  lemma LinkBuckets(t: DfsTree, sd: seq<nat>, b: nat, dfn: seq<nat>, pos: seq<nat>, sdm: seq<nat>, idm: seq<nat>,
                    buckets: Graph, u: nat, f: nat, res: nat)
    requires t.Valid() && Renumbers(t, dfn, pos) && SdomsAbove(t, sd, b + 1, dfn, pos, sdm)
    requires |sd| == |t.par| == |t.g| && |dfn| == |idm| == |buckets| == |sdm| &&
        Buckets(t, sd, b + 1, dfn, pos, sdm, idm, buckets)
    requires 1 <= u < |dfn| && 1 <= b && dfn[u] == b + 1 && 1 <= res <= b
    requires 1 <= f < |dfn| && dfn[f] == t.par[b + 1]
    ensures var buckets' := buckets[pos[res] := [u] + buckets[pos[res]]];
      Draining(t, sd[b + 1 := res], b, dfn, pos, sdm[u := pos[res]], idm, buckets', f, buckets'[f])
  {
    hide DfsTree.Valid, Settled, SdomsAbove;
    var sd': seq<nat>, sdm': seq<nat> := sd[b + 1 := res], sdm[u := pos[res]];
    var buckets' := buckets[pos[res] := [u] + buckets[pos[res]]];
    assert pos[b + 1] == u;
    forall q | 1 <= q < |dfn|
      ensures GoodEntries(dfn, b, sdm', buckets'[q], q)
    {
      EntriesStayGood(dfn, b, sdm, buckets[q], u, pos[res], q);
    }
    forall k | 2 <= k < |t.g| && b < k
      ensures Settled(t, sd', b, dfn, pos, idm, k) || pos[k] in buckets'[f] ||
          (sdm'[pos[k]] != f && Pending(t, sd', b, pos, sdm', buckets', k))
    {
      if k > b + 1 {
        assert Settled(t, sd, b + 1, dfn, pos, idm, k) || Pending(t, sd, b + 1, pos, sdm, buckets, k);
        if Settled(t, sd, b + 1, dfn, pos, idm, k) {
          SettledStays(t, sd, b, dfn, pos, idm, k, res);
        } else {
          PendingStays(t, sd, b, dfn, pos, sdm, buckets, u, f, res, k);
        }
      } else {
        NewlyPending(t, sd, b, dfn, pos, sdm, buckets, u, f, res);
      }
    }
  }

  lemma EntriesStayGood(dfn: seq<nat>, b: nat, sdm: seq<nat>, vs: seq<nat>, u: nat, q: nat, p: nat)
    requires |dfn| == |sdm| && 1 <= u < |dfn| && dfn[u] == b + 1 && 1 <= q < |dfn|
    requires GoodEntries(dfn, b + 1, sdm, vs, p)
    ensures GoodEntries(dfn, b, sdm[u := q], if p == q then [u] + vs else vs, p)
  {
  }

  lemma NewlyPending(t: DfsTree, sd: seq<nat>, b: nat, dfn: seq<nat>, pos: seq<nat>, sdm: seq<nat>,
                     buckets: Graph, u: nat, f: nat, res: nat)
    requires t.Valid() && Renumbers(t, dfn, pos) && |sd| == |t.g| && |dfn| == |buckets| == |sdm|
    requires 1 <= u < |dfn| && 1 <= b && dfn[u] == b + 1 < |t.g| && 1 <= res <= b
    requires 1 <= f < |dfn| && dfn[f] == t.par[b + 1]
    ensures var buckets' := buckets[pos[res] := [u] + buckets[pos[res]]];
      u in buckets'[f] ||
      (pos[res] != f && Pending(t, sd[b + 1 := res], b, pos, sdm[u := pos[res]], buckets', b + 1))
  {
    assert pos[b + 1] == u;
    if pos[res] != f {
      assert dfn[pos[res]] == res && pos[dfn[f]] == f;
    }
  }

  lemma PendingStays(t: DfsTree, sd: seq<nat>, b: nat, dfn: seq<nat>, pos: seq<nat>, sdm: seq<nat>,
                     buckets: Graph, u: nat, f: nat, res: nat, k: nat)
    requires t.Valid() && Renumbers(t, dfn, pos) && SdomsAbove(t, sd, b + 1, dfn, pos, sdm)
    requires 1 <= u < |dfn| && 1 <= b && dfn[u] == b + 1 < k < |t.g| && 1 <= res <= b
    requires |dfn| == |buckets| && Pending(t, sd, b + 1, pos, sdm, buckets, k)
    requires 1 <= f < |dfn| && dfn[f] == t.par[b + 1]
    ensures var buckets' := buckets[pos[res] := [u] + buckets[pos[res]]];
      pos[k] in buckets'[f] ||
      (sdm[u := pos[res]][pos[k]] != f && Pending(t, sd[b + 1 := res], b, pos, sdm[u := pos[res]], buckets', k))
  {
    var buckets' := buckets[pos[res] := [u] + buckets[pos[res]]];
    assert pos[b + 1] == u != pos[k];
    var q := sdm[pos[k]];
    assert pos[k] in buckets'[q];
    if q != f {
      assert sd[k] == dfn[q] != dfn[f];
    }
  }

  lemma SettledStays(t: DfsTree, sd: seq<nat>, b: nat, dfn: seq<nat>, pos: seq<nat>, idm: seq<nat>, k: nat, res: nat)
    requires t.Valid() && Renumbers(t, dfn, pos) && |sd| == |t.g| && |idm| == |dfn| && b + 1 < k < |t.g|
    requires Settled(t, sd, b + 1, dfn, pos, idm, k)
    ensures Settled(t, sd[b + 1 := res], b, dfn, pos, idm, k)
  {
  }

  /** When every vertex but the root is linked, nothing can still be pending. */
  lemma AllSettled(t: DfsTree, g: Graph, r: Search, s: nat, sd: seq<nat>, b: nat, sdm: seq<nat>, idm: seq<nat>,
      buckets: Graph)
    requires Mirrors(t, g, r, s) && b == 1 && SdomsAbove(t, sd, b, r.dfn, r.pos, sdm)
    requires |r.dfn| == |idm| == |buckets| && Buckets(t, sd, b, r.dfn, r.pos, sdm, idm, buckets)
    ensures t.Valid() && SdomsAbove(t, sd, 1, r.dfn, r.pos, sdm)
    ensures forall k :: 2 <= k <= r.tim ==> Settled(t, sd, 1, r.dfn, r.pos, idm, k)
  {
    var dfn, pos := r.dfn, r.pos;
    forall k | 2 <= k < |t.g|
      ensures Settled(t, sd, 1, dfn, pos, idm, k)
    {
      assert Settled(t, sd, 1, dfn, pos, idm, k) || Pending(t, sd, 1, pos, sdm, buckets, k);
      SdomBelowParent(t, k, sd[k]);
      var c := ChildToward(t, sd[k], k);
      assert 1 < c <= k && t.Anc(c, k) && t.par[c] == sd[k];
    }
  }

  lemma CopyIdom(t: DfsTree, sd: seq<nat>, dfn: seq<nat>, pos: seq<nat>, idm: seq<nat>, i: nat, z: nat)
    requires t.Valid() && Renumbers(t, dfn, pos) && |idm| == |dfn| && |sd| == |t.g|
    requires 2 <= i < |t.g| && forall k :: 2 <= k < i ==> HasIdom(t, dfn, pos, idm, k)
    requires forall k :: i <= k < |t.g| ==> Settled(t, sd, 1, dfn, pos, idm, k)
    requires 1 <= z < |dfn| && 0 < dfn[z] && IsIdom(t.g, 1, dfn[z], i)
    ensures var idm' := idm[pos[i] := z];
      && (forall k :: 2 <= k <= i ==> HasIdom(t, dfn, pos, idm', k))
      && (forall k :: i < k < |t.g| ==> Settled(t, sd, 1, dfn, pos, idm', k))
  {
    hide IsIdom;
    var idm' := idm[pos[i] := z];
    forall k | 2 <= k <= i
      ensures HasIdom(t, dfn, pos, idm', k)
    {
      if k < i { assert HasIdom(t, dfn, pos, idm, k); }
    }
    forall k | i < k < |t.g|
      ensures Settled(t, sd, 1, dfn, pos, idm', k)
    {
      SettledElsewhere(t, sd, 1, dfn, pos, idm, idm', k);
    }
  }

  /** One step of the last pass. */
  lemma SettleIdom(t: DfsTree, sd: seq<nat>, dfn: seq<nat>, pos: seq<nat>, sdm: seq<nat>, idm: seq<nat>, i: nat)
    requires t.Valid() && Renumbers(t, dfn, pos) && |idm| == |dfn| && SdomsAbove(t, sd, 1, dfn, pos, sdm)
    requires 2 <= i < |t.g| && forall k :: 2 <= k < i ==> HasIdom(t, dfn, pos, idm, k)
    requires forall k :: i <= k < |t.g| ==> Settled(t, sd, 1, dfn, pos, idm, k)
    ensures 1 <= pos[i] < |dfn| == |sdm| && dfn[pos[i]] == i && idm[pos[i]] < |dfn|
    ensures var idm' := if idm[pos[i]] != sdm[pos[i]] then idm[pos[i] := idm[idm[pos[i]]]] else idm;
      && (forall k :: 2 <= k <= i ==> HasIdom(t, dfn, pos, idm', k))
      && (forall k :: i < k < |t.g| ==> Settled(t, sd, 1, dfn, pos, idm', k))
  {
    hide IsIdom, Settled, DfsTree.Valid, SdomsAbove;
    IdomOfNumber(t, sd, dfn, pos, sdm, idm, i);
    var u := pos[i];
    if idm[u] != sdm[u] {
      CopyIdom(t, sd, dfn, pos, idm, i, idm[idm[u]]);
    }
  }

  /** In numbers: a vertex between the semidominator and `i` with the least semidominator shares its dominator. */
  lemma NearestDecides(t: DfsTree, sd: seq<nat>, i: nat, y: nat, z: nat)
    requires t.Valid() && 2 <= i < |t.g| == |sd| && forall x :: 2 <= x < |t.g| ==> IsSdom(t, x, sd[x])
    requires y < |sd| && ((y == sd[i] && forall x :: sd[i] < x && t.Anc(x, i) ==> sd[i] <= sd[x]) ||
      (sd[i] < y && t.Anc(y, i) && sd[y] < sd[i] && forall x :: sd[i] < x && t.Anc(x, i) ==> sd[y] <= sd[x]))
    requires y != sd[i] ==> IsIdom(t.g, 1, z, y)
    ensures IsIdom(t.g, 1, if y == sd[i] then y else z, i)
  {
    hide IsIdom, IsSdom, DfsTree.Valid;
    if y == sd[i] {
      SdomIsIdom(t, i, sd);
    } else {
      SharedIdom(t, i, y, z, sd);
    }
  }

  /** What draining left, in numbers. */
  lemma SettledInNumbers(t: DfsTree, sd: seq<nat>, dfn: seq<nat>, pos: seq<nat>, sdm: seq<nat>, idm: seq<nat>, i: nat)
    requires SdomsAbove(t, sd, 1, dfn, pos, sdm) && 2 <= i < |t.g| && Settled(t, sd, 1, dfn, pos, idm, i)
    ensures |sdm| == |idm| == |dfn| == |pos| && |sd| == |t.g| <= |dfn| && 1 <= pos[i] < |dfn|
    ensures forall x :: 2 <= x < |t.g| ==> IsSdom(t, x, sd[x])
    ensures var u := pos[i]; 1 <= idm[u] < |dfn| && var y := dfn[idm[u]];
      && 0 < y < |t.g| && pos[y] == idm[u] && (idm[u] != sdm[u] <==> y != sd[i])
      && ((y == sd[i] && forall x :: sd[i] < x && t.Anc(x, i) ==> sd[i] <= sd[x]) ||
          (sd[i] < y && t.Anc(y, i) && sd[y] < sd[i] && forall x :: sd[i] < x && t.Anc(x, i) ==> sd[y] <= sd[x]))
  {
    hide IsSdom, DfsTree.Anc;
    assert pos[dfn[sdm[pos[i]]]] == sdm[pos[i]];
  }

  /** The immediate dominator of number `i`, from what draining left in `idm`. */
  lemma IdomOfNumber(t: DfsTree, sd: seq<nat>, dfn: seq<nat>, pos: seq<nat>, sdm: seq<nat>, idm: seq<nat>, i: nat)
    requires t.Valid() && Renumbers(t, dfn, pos) && SdomsAbove(t, sd, 1, dfn, pos, sdm)
    requires 2 <= i < |t.g| && Settled(t, sd, 1, dfn, pos, idm, i)
    requires forall k :: 2 <= k < i ==> HasIdom(t, dfn, pos, idm, k)
    ensures |sdm| == |idm| == |dfn| && |sd| == |t.g| && 1 <= idm[pos[i]] < |dfn|
    ensures var z := if idm[pos[i]] != sdm[pos[i]] then idm[idm[pos[i]]] else idm[pos[i]];
      1 <= z < |dfn| && 0 < dfn[z] && IsIdom(t.g, 1, dfn[z], i)
  {
    hide IsIdom, IsSdom, Settled, SdomsAbove, Renumbers, DfsTree.Valid;
    SettledInNumbers(t, sd, dfn, pos, sdm, idm, i);
    var u := pos[i];
    var y := dfn[idm[u]];
    SdomBelowParent(t, i, sd[i]);
    if y != sd[i] {
      assert HasIdom(t, dfn, pos, idm, y);
    }
    NearestDecides(t, sd, i, y, if y != sd[i] then dfn[idm[idm[u]]] else 0);
  }

  // ---- Back from numbers to vertices ----

  lemma PathOfNumbers(t: DfsTree, g: Graph, r: Search, s: nat, p: seq<nat>) returns (q: seq<nat>)
    requires Mirrors(t, g, r, s) && IsPath(t.g, p) && p[0] == 1
    ensures PathFromTo(g, s, r.pos[p[|p| - 1]], q) && |q| == |p| && forall i :: 0 <= i < |p| ==>
        1 <= p[i] <= r.tim &&
        q[i] == r.pos[p[i]]
  {
    forall i | 0 <= i < |p|
      ensures 1 <= p[i] <= r.tim
    {
      if i > 0 { assert Edge(t.g, p[i - 1], p[i]); }
    }
    q := seq(|p|, i requires 0 <= i < |p| => r.pos[p[i]]);
    forall i | 0 <= i < |q| - 1
      ensures Edge(g, q[i], q[i + 1])
    {
      assert Edge(t.g, p[i], p[i + 1]);
    }
  }

  lemma RootVisited(t: DfsTree, g: Graph, r: Search, s: nat)
    requires Mirrors(t, g, r, s)
    ensures 1 <= s < |g| == |r.dfn| && 0 < r.dfn[s] <= r.tim
  {
  }

  lemma SuccessorVisited(t: DfsTree, g: Graph, r: Search, s: nat, x: nat, y: nat)
    requires Mirrors(t, g, r, s) && 1 <= x < |g| && 0 < r.dfn[x] && y in g[x]
    ensures 1 <= y < |g| && 0 < r.dfn[y] <= r.tim
  {
    hide DfsTree.Valid, Edge;
    assert 1 <= y < |g| && 0 < r.dfn[y];
  }

  lemma {:induction false} PathIsVisited(t: DfsTree, g: Graph, r: Search, s: nat, q: seq<nat>, i: nat)
    requires Mirrors(t, g, r, s) && IsPath(g, q) && q[0] == s && i < |q|
    ensures 1 <= q[i] && 0 < r.dfn[q[i]] <= r.tim
  {
    hide DfsTree.Valid, Mirrors, Renumbers;
    RootVisited(t, g, r, s);
    if i > 0 {
      PathIsVisited(t, g, r, s, q, i - 1);
      assert Edge(g, q[i - 1], q[i]);
      SuccessorVisited(t, g, r, s, q[i - 1], q[i]);
    }
  }

  lemma PathOfVertices(t: DfsTree, g: Graph, r: Search, s: nat, q: seq<nat>) returns (p: seq<nat>)
    requires Mirrors(t, g, r, s) && IsPath(g, q) && q[0] == s
    ensures |p| == |q| && IsPath(t.g, p) && p[0] == 1
    ensures forall i :: 0 <= i < |q| ==> 1 <= q[i] && 0 < r.dfn[q[i]] && p[i] == r.dfn[q[i]]
  {
    forall i | 0 <= i < |q|
      ensures 1 <= q[i] && 0 < r.dfn[q[i]] <= r.tim
    {
      PathIsVisited(t, g, r, s, q, i);
    }
    p := seq(|q|, i requires 0 <= i < |q| => r.dfn[q[i]]);
    forall i | 0 <= i < |p| - 1
      ensures Edge(t.g, p[i], p[i + 1])
    {
      assert Edge(g, q[i], q[i + 1]);
    }
  }

  /** Reachable vertices are the numbered ones, and immediate dominators carry over. */
  lemma IdomsOfVertices(t: DfsTree, g: Graph, r: Search, s: nat, idm: seq<nat>)
    requires Mirrors(t, g, r, s) && |idm| == |g|
    requires forall k :: 2 <= k <= r.tim ==> HasIdom(t, r.dfn, r.pos, idm, k)
    ensures forall v :: 1 <= v < |g| ==> (Reachable(g, s, v) <==> 0 < r.dfn[v])
    ensures forall v :: 1 <= v < |g| && v != s && Reachable(g, s, v) ==> IsIdom(g, s, idm[v], v)
  {
    forall v | 1 <= v < |g|
      ensures Reachable(g, s, v) <==> 0 < r.dfn[v]
    {
      ReachableIsNumbered(t, g, r, s, v);
    }
    forall v | 1 <= v < |g| && v != s && 0 < r.dfn[v]
      ensures IsIdom(g, s, idm[v], v)
    {
      assert r.pos[r.dfn[v]] == v && 2 <= r.dfn[v];
      assert HasIdom(t, r.dfn, r.pos, idm, r.dfn[v]);
      IdomOfVertex(t, g, r, s, idm[v], v);
    }
  }

  lemma ReachableIsNumbered(t: DfsTree, g: Graph, r: Search, s: nat, v: nat)
    requires Mirrors(t, g, r, s) && 1 <= v < |g|
    ensures Reachable(g, s, v) <==> 0 < r.dfn[v]
  {
    if 0 < r.dfn[v] {
      var p := TreePath(t, 1, r.dfn[v]);
      var q := PathOfNumbers(t, g, r, s, p);
      assert PathFromTo(g, s, v, q);
    }
    if Reachable(g, s, v) {
      var q :| PathFromTo(g, s, v, q);
      var p := PathOfVertices(t, g, r, s, q);
    }
  }

  lemma DominatesNumbers(t: DfsTree, g: Graph, r: Search, s: nat, d: nat, v: nat)
    requires Mirrors(t, g, r, s) && 1 <= v < |g| && 0 < r.dfn[v] && Dominates(g, s, d, v)
    ensures 1 <= d < |g| && 0 < r.dfn[d] && Dominates(t.g, 1, r.dfn[d], r.dfn[v])
  {
    forall p | PathFromTo(t.g, 1, r.dfn[v], p)
      ensures 1 <= d < |g| && 0 < r.dfn[d] && r.dfn[d] in p
    {
      var q := PathOfNumbers(t, g, r, s, p);
      assert d in q;
      var i :| 0 <= i < |q| && q[i] == d;
      assert p[i] in p;
    }
    var p := TreePath(t, 1, r.dfn[v]);
  }

  lemma DominatesInNumbers(t: DfsTree, g: Graph, r: Search, s: nat, d: nat, v: nat)
    requires Mirrors(t, g, r, s) && 1 <= v < |g| && 0 < r.dfn[v]
    ensures Dominates(g, s, d, v) <==> 1 <= d < |g| && 0 < r.dfn[d] && Dominates(t.g, 1, r.dfn[d], r.dfn[v])
  {
    if Dominates(g, s, d, v) {
      DominatesNumbers(t, g, r, s, d, v);
    }
    if 1 <= d < |g| && 0 < r.dfn[d] && Dominates(t.g, 1, r.dfn[d], r.dfn[v]) {
      forall q | PathFromTo(g, s, v, q)
        ensures d in q
      {
        var p := PathOfVertices(t, g, r, s, q);
        assert r.dfn[d] in p;
        var i :| 0 <= i < |p| && p[i] == r.dfn[d];
        assert q[i] in q;
      }
    }
  }

  lemma IdomOfVertex(t: DfsTree, g: Graph, r: Search, s: nat, z: nat, v: nat)
    requires Mirrors(t, g, r, s) && 1 <= v < |g| && 0 < r.dfn[v] && 1 <= z < |g| && 0 < r.dfn[z]
    requires IsIdom(t.g, 1, r.dfn[z], r.dfn[v])
    ensures IsIdom(g, s, z, v)
  {
    hide Dominates;
    DominatesInNumbers(t, g, r, s, z, v);
    forall d: nat | StrictlyDominates(g, s, d, v)
      ensures Dominates(g, s, d, z)
    {
      DominatesInNumbers(t, g, r, s, d, v);
      DominatesInNumbers(t, g, r, s, d, z);
      assert r.pos[r.dfn[d]] == d && r.pos[r.dfn[v]] == v;
      assert StrictlyDominates(t.g, 1, r.dfn[d], r.dfn[v]);
    }
  }
}
