/** The interference graph of the register allocator: conservative coalescing and graph colouring. */
module InterferenceGraphs {
  import opened Graphs
  import opened IR

  type Adjacency = map<nat, set<nat>>

  /** Symmetric, without loops, and every neighbour is a node. */
  ghost predicate Simple(a: Adjacency) {
    forall u, v :: u in a && v in a[u] ==> u != v && v in a && u in a[v]
  }

  predicate Adjacent(a: Adjacency, u: nat, v: nat) {
    u in a && v in a[u]
  }

  function Neighbours(a: Adjacency, u: nat): set<nat> {
    if u in a then a[u] else {}
  }

  function WithNode(a: Adjacency, u: nat): Adjacency {
    a[u := Neighbours(a, u)]
  }

  /** Both directions of an edge between different nodes. */
  function WithEdge(a: Adjacency, u: nat, v: nat): Adjacency {
    if u == v then a
    else var b := a[u := Neighbours(a, u) + {v}]; b[v := Neighbours(b, v) + {u}]
  }

  lemma WithEdgeAdds(a: Adjacency, u: nat, v: nat)
    requires Simple(a) && u != v
    ensures Simple(WithEdge(a, u, v)) && WithEdge(a, u, v).Keys == a.Keys + {u, v}
    ensures forall x, y :: Adjacent(WithEdge(a, u, v), x, y) <==>
        Adjacent(a, x, y) || (x == u && y == v) ||
        (x == v && y == u)
  {
  }

  /** Neither direction of the edge. */
  function WithoutEdge(a: Adjacency, u: nat, v: nat): Adjacency {
    if u == v || u !in a || v !in a then a
    else var b := a[u := a[u] - {v}]; b[v := b[v] - {u}]
  }

  lemma WithoutEdgeDrops(a: Adjacency, u: nat, v: nat)
    requires Simple(a) && u in a && v in a
    ensures Simple(WithoutEdge(a, u, v)) && WithoutEdge(a, u, v).Keys == a.Keys
    ensures forall x, y :: Adjacent(WithoutEdge(a, u, v), x, y) <==>
        Adjacent(a, x, y) && !(x == u && y == v) && !(x == v && y == u)
  {
  }

  lemma NoEdgeToDrop(a: Adjacency, u: nat, v: nat)
    requires Simple(a) && (u !in a || v !in a)
    ensures !Adjacent(a, u, v) && !Adjacent(a, v, u)
    ensures (u in a ==> a[u] - {v} == a[u] && a[u := a[u]] == a) && (v in a ==> a[v] - {u} == a[v] && a[v := a[v]] == a)
  {
  }

  // ---- Coalescing ----

  /** `src` disappears and `dst` takes over its neighbours. */
  function Merge(a: Adjacency, src: nat, dst: nat): Adjacency
    requires src in a && dst in a
  {
    map n | n in a && n != src ::
      if n == dst then a[dst] - {src} + (a[src] - {dst})
      else if src in a[n] then a[n] - {src} + {dst}
      else a[n]
  }

  /** What coalescing looks at besides the graph: fixed registers, and variables live across calls. */
  datatype Fixed = Fixed(precolored: map<nat, nat>, physReg: map<nat, nat>, callCrossing: set<nat>)

  /** The graph and the nodes merged so far. */
  datatype Merging = Merging(adj: Adjacency, merged: map<nat, nat>)

  /** Which node of a move disappears and which survives; a precoloured node survives. */
  function Orient(c: Fixed, src: nat, dst: nat): Option<(nat, nat)>
    requires c.precolored.Keys <= c.physReg.Keys
  {
    if src in c.precolored && dst !in c.precolored then
      if dst in c.callCrossing then None else Some((dst, src))
    else if src !in c.precolored && dst in c.precolored then
      if src in c.callCrossing then None else Some((src, dst))
    else if src in c.precolored && dst in c.precolored then
      if c.physReg[src] != c.physReg[dst] then None else Some((src, dst))
    else Some((src, dst))
  }

  predicate Mergeable(m: Merging, k: nat, src: nat, dst: nat) {
    && src in m.adj && dst in m.adj && src !in m.merged && dst !in m.merged && dst !in m.adj[src]
    && |m.adj[src] + m.adj[dst] - {src} - {dst}| < k
  }

  function CoalesceOne(c: Fixed, k: nat, m: Merging, move: (nat, nat)): Merging
    requires c.precolored.Keys <= c.physReg.Keys
  {
    match Orient(c, move.0, move.1)
    case None => m
    case Some((src, dst)) => if Mergeable(m, k, src, dst) then Merging(Merge(m.adj, src, dst), m.merged[src := dst])
      else m
  }

  function CoalesceAll(c: Fixed, k: nat, m: Merging, moves: seq<(nat, nat)>): Merging
    requires c.precolored.Keys <= c.physReg.Keys
    decreases |moves|
  {
    if moves == [] then m else CoalesceOne(c, k, CoalesceAll(c, k, m, moves[..|moves| - 1]), moves[|moves| - 1])
  }

  /** `rep` sends every original node to the node that stands for it now. */
  ghost predicate Stands(a0: Adjacency, m: Merging, rep: map<nat, nat>) {
    && rep.Keys == a0.Keys && m.adj.Keys == a0.Keys - m.merged.Keys
    && (forall x :: x in rep ==> rep[x] in m.adj)
    && (forall x :: x in rep && x in m.adj ==> rep[x] == x)
    && (forall x :: x in m.merged ==> SameRep(rep, x, m.merged[x]))
  }

  predicate SameRep(rep: map<nat, nat>, x: nat, y: nat) {
    x in rep && y in rep && rep[x] == rep[y]
  }

  ghost predicate EdgesKept(a0: Adjacency, a: Adjacency, rep: map<nat, nat>) {
    forall x, y :: Adjacent(a0, x, y) ==> EdgeKept(a, rep, x, y)
  }

  predicate EdgeKept(a: Adjacency, rep: map<nat, nat>, x: nat, y: nat) {
    x in rep && y in rep && Adjacent(a, rep[x], rep[y])
  }

  /** A precoloured node is represented by a precoloured node with the same register. */
  ghost predicate RegsKept(c: Fixed, rep: map<nat, nat>) {
    forall x :: x in c.precolored && x in rep ==> rep[x] in c.precolored && SameReg(c, x, rep[x])
  }

  ghost predicate Represents(a0: Adjacency, c: Fixed, m: Merging, rep: map<nat, nat>) {
    Simple(m.adj) && Stands(a0, m, rep) && EdgesKept(a0, m.adj, rep) && RegsKept(c, rep)
  }

  predicate SameReg(c: Fixed, x: nat, y: nat) {
    x in c.physReg && y in c.physReg && c.physReg[x] == c.physReg[y]
  }

  function Redirect(rep: map<nat, nat>, src: nat, dst: nat): map<nat, nat> {
    map x | x in rep :: if rep[x] == src then dst else rep[x]
  }

  function RepOne(c: Fixed, k: nat, m: Merging, move: (nat, nat), rep: map<nat, nat>): map<nat, nat>
    requires c.precolored.Keys <= c.physReg.Keys
  {
    match Orient(c, move.0, move.1)
    case None => rep
    case Some((src, dst)) => if Mergeable(m, k, src, dst) then Redirect(rep, src, dst) else rep
  }

  /** The node that stands for each original node after all moves. */
  function RepAll(c: Fixed, k: nat, a0: Adjacency, moves: seq<(nat, nat)>): map<nat, nat>
    requires c.precolored.Keys <= c.physReg.Keys
    decreases |moves|
  {
    if moves == [] then map x | x in a0 :: x
    else
      var n := |moves| - 1;
      RepOne(c, k, CoalesceAll(c, k, Merging(a0, map[]), moves[..n]), moves[n], RepAll(c, k, a0, moves[..n]))
  }

  lemma MergeSimple(a: Adjacency, src: nat, dst: nat)
    requires Simple(a) && src in a && dst in a && src != dst && dst !in a[src]
    ensures Simple(Merge(a, src, dst))
    ensures forall x, y :: Adjacent(a, x, y) && x != src && y != src ==> Adjacent(Merge(a, src, dst), x, y)
    ensures forall x :: Adjacent(a, src, x) ==>
        Adjacent(Merge(a, src, dst), dst, x) &&
        Adjacent(Merge(a, src, dst), x, dst)
  {
  }

  lemma SimpleEdge(a: Adjacency, x: nat, y: nat)
    requires Simple(a) && Adjacent(a, x, y)
    ensures x != y && y in a && Adjacent(a, y, x)
  {
  }

  lemma MergeStands(a0: Adjacency, m: Merging, rep: map<nat, nat>, src: nat, dst: nat)
    requires Stands(a0, m, rep) && src in m.adj && dst in m.adj && src != dst && src !in m.merged
    ensures Stands(a0, Merging(Merge(m.adj, src, dst), m.merged[src := dst]), Redirect(rep, src, dst))
  {
    assert Merge(m.adj, src, dst).Keys == m.adj.Keys - {src};
    hide Merge;
    var merged', rep' := m.merged[src := dst], Redirect(rep, src, dst);
    forall x | x in merged'
      ensures SameRep(rep', x, merged'[x])
    {
      assert x != src ==> SameRep(rep, x, m.merged[x]);
    }
  }

  lemma MergeEdgesKept(a0: Adjacency, a: Adjacency, rep: map<nat, nat>, src: nat, dst: nat)
    requires Simple(a) && EdgesKept(a0, a, rep) && src in a && dst in a && src != dst && dst !in a[src]
    ensures EdgesKept(a0, Merge(a, src, dst), Redirect(rep, src, dst))
  {
    hide Merge, Simple;
    MergeSimple(a, src, dst);
    forall x, y | Adjacent(a0, x, y)
      ensures EdgeKept(Merge(a, src, dst), Redirect(rep, src, dst), x, y)
    {
      assert EdgeKept(a, rep, x, y);
      SimpleEdge(a, rep[x], rep[y]);
    }
  }

  lemma MergeRepresents(a0: Adjacency, c: Fixed, m: Merging, rep: map<nat, nat>, k: nat, src: nat, dst: nat)
    requires Represents(a0, c, m, rep) && Mergeable(m, k, src, dst) && src != dst
    requires src in c.precolored ==> dst in c.precolored && SameReg(c, src, dst)
    ensures Represents(a0, c, Merging(Merge(m.adj, src, dst), m.merged[src := dst]), Redirect(rep, src, dst))
  {
    hide Merge, Simple, Stands, EdgesKept;
    MergeSimple(m.adj, src, dst);
    MergeStands(a0, m, rep, src, dst);
    MergeEdgesKept(a0, m.adj, rep, src, dst);
  }

  /** One move. */
  lemma CoalesceOneRepresents(a0: Adjacency, c: Fixed, k: nat, m: Merging, move: (nat, nat), rep: map<nat, nat>)
    requires c.precolored.Keys <= c.physReg.Keys && Represents(a0, c, m, rep) && move.0 != move.1
    ensures Represents(a0, c, CoalesceOne(c, k, m, move), RepOne(c, k, m, move, rep))
  {
    hide Merge, Represents, Mergeable, Redirect;
    match Orient(c, move.0, move.1)
    case None =>
    case Some((src, dst)) =>
      if Mergeable(m, k, src, dst) {
        MergeRepresents(a0, c, m, rep, k, src, dst);
      }
  }

  lemma {:induction false} CoalesceRepresents(a0: Adjacency, c: Fixed, k: nat, moves: seq<(nat, nat)>)
    requires Simple(a0) && c.precolored.Keys <= c.physReg.Keys && forall i :: 0 <= i < |moves| ==>
        moves[i].0 != moves[i].1
    ensures Represents(a0, c, CoalesceAll(c, k, Merging(a0, map[]), moves), RepAll(c, k, a0, moves))
    decreases |moves|
  {
    hide CoalesceOne, RepOne;
    if moves != [] {
      hide Represents;
      var n := |moves| - 1;
      CoalesceRepresents(a0, c, k, moves[..n]);
      CoalesceOneRepresents(a0, c, k, CoalesceAll(c, k, Merging(a0, map[]), moves[..n]), moves[n],
        RepAll(c, k, a0, moves[..n]));
    }
  }

  // ---- When a move is merged ----

  /** Two nodes that are there and unmerged, not adjacent, with fewer than `k` neighbours together. */
  ghost predicate Room(m: Merging, k: nat, x: nat, y: nat) {
    && x in m.adj && y in m.adj && x !in m.merged && y !in m.merged && !Adjacent(m.adj, x, y)
    && |(Neighbours(m.adj, x) + Neighbours(m.adj, y)) - {x, y}| < k
  }

  /** Nothing forbids to merge the ends of a move: there is room, what joins a precoloured node is not live across a
   * call, and precoloured nodes have the same register. */
  ghost predicate Allowed(c: Fixed, k: nat, m: Merging, x: nat, y: nat) {
    && Room(m, k, x, y)
    && (x in c.precolored && y !in c.precolored ==> y !in c.callCrossing)
    && (y in c.precolored && x !in c.precolored ==> x !in c.callCrossing)
    && (x in c.precolored && y in c.precolored ==> SameReg(c, x, y))
  }

  /** `gone` has been merged into `kept`, which has its neighbours now; nothing else is different. */
  ghost predicate JoinedInto(m: Merging, m': Merging, gone: nat, kept: nat) {
    && m'.merged == m.merged[gone := kept] && m'.adj.Keys == m.adj.Keys - {gone}
    && (forall u, v :: Adjacent(m'.adj, u, v) <==>
      || (u != gone && v != gone && Adjacent(m.adj, u, v))
      || (u == kept && v != kept && Adjacent(m.adj, gone, v))
      || (v == kept && u != kept && Adjacent(m.adj, u, gone)))
  }

  /** The `i`-th move is merged just when that is allowed at its turn; a precoloured end survives, else the target. */
  ghost predicate MovedRightly(c: Fixed, k: nat, m0: Merging, moves: seq<(nat, nat)>, i: nat)
    requires c.precolored.Keys <= c.physReg.Keys && i < |moves|
  {
    var m, m', x, y := CoalesceAll(c, k, m0, moves[..i]), CoalesceAll(c, k, m0, moves[..i + 1]), moves[i].0, moves[i].1;
    if !Allowed(c, k, m, x, y) then m' == m
    else if x in c.precolored && y !in c.precolored then JoinedInto(m, m', y, x)
    else JoinedInto(m, m', x, y)
  }

  lemma MergeJoins(m: Merging, gone: nat, kept: nat)
    requires Simple(m.adj) && gone in m.adj && kept in m.adj && gone != kept && kept !in m.adj[gone]
    ensures JoinedInto(m, Merging(Merge(m.adj, gone, kept), m.merged[gone := kept]), gone, kept)
  {
    assert gone !in m.adj[kept] && gone !in m.adj[gone] && kept !in m.adj[kept];
  }

  lemma MergeableIsRoom(m: Merging, k: nat, x: nat, y: nat)
    requires Simple(m.adj) && x != y
    ensures Mergeable(m, k, x, y) == Room(m, k, x, y) == Mergeable(m, k, y, x)
    ensures Room(m, k, x, y) ==> x in m.adj && y in m.adj && y !in m.adj[x] && x !in m.adj[y]
  {
    if x in m.adj && y in m.adj {
      assert y in m.adj[x] <==> x in m.adj[y];
      assert m.adj[x] + m.adj[y] - {x} - {y} == (Neighbours(m.adj, x) + Neighbours(m.adj, y)) - {x, y};
      assert m.adj[y] + m.adj[x] - {y} - {x} == (Neighbours(m.adj, x) + Neighbours(m.adj, y)) - {x, y};
    }
  }

  /** Coalescing one move, told from the tests that forbid it. */
  lemma CoalesceOneRightly(c: Fixed, k: nat, m: Merging, x: nat, y: nat)
    requires c.precolored.Keys <= c.physReg.Keys && Simple(m.adj) && x != y
    ensures var m' := CoalesceOne(c, k, m, (x, y));
      if !Allowed(c, k, m, x, y) then m' == m
      else if x in c.precolored && y !in c.precolored then JoinedInto(m, m', y, x)
      else JoinedInto(m, m', x, y)
  {
    hide Merge, JoinedInto, Simple, Mergeable, Room;
    MergeableIsRoom(m, k, x, y);
    if Room(m, k, x, y) {
      MergeJoins(m, x, y);
      MergeJoins(m, y, x);
    }
  }

  lemma CoalesceRightly(a0: Adjacency, c: Fixed, k: nat, moves: seq<(nat, nat)>, i: nat)
    requires Simple(a0) && c.precolored.Keys <= c.physReg.Keys && i < |moves|
    requires forall j :: 0 <= j < |moves| ==> moves[j].0 != moves[j].1
    ensures MovedRightly(c, k, Merging(a0, map[]), moves, i)
  {
    hide CoalesceOne, Allowed, JoinedInto, Stands, EdgesKept, RegsKept;
    CoalesceRepresents(a0, c, k, moves[..i]);
    assert moves[..i + 1][..i] == moves[..i];
    CoalesceOneRightly(c, k, CoalesceAll(c, k, Merging(a0, map[]), moves[..i]), moves[i].0, moves[i].1);
  }

  // ---- The counts of merged nodes ----

  function CountOf(counts: map<nat, nat>, x: nat): nat {
    if x in counts then counts[x] else 0
  }

  function CountsOne(c: Fixed, k: nat, m: Merging, move: (nat, nat), counts: map<nat, nat>): map<nat, nat>
    requires c.precolored.Keys <= c.physReg.Keys
  {
    match Orient(c, move.0, move.1)
    case None => counts
    case Some((src, dst)) =>
      if Mergeable(m, k, src, dst) then counts[dst := CountOf(counts, dst) + CountOf(counts, src)] else counts
  }

  function CountsAll(c: Fixed, k: nat, a0: Adjacency, moves: seq<(nat, nat)>, counts: map<nat, nat>): map<nat, nat>
    requires c.precolored.Keys <= c.physReg.Keys
    decreases |moves|
  {
    if moves == [] then counts
    else
      var n := |moves| - 1;
      CountsOne(c, k, CoalesceAll(c, k, Merging(a0, map[]), moves[..n]), moves[n],
        CountsAll(c, k, a0, moves[..n], counts))
  }

  /** What the nodes of a list that `x` stands for have together. */
  function SumFor(nodes: seq<nat>, counts: map<nat, nat>, rep: map<nat, nat>, x: nat): nat {
    if nodes == [] then 0
    else
      var y := nodes[0];
      (if y in rep && rep[y] == x then CountOf(counts, y) else 0) + SumFor(nodes[1..], counts, rep, x)
  }

  /** A list of all nodes, each once. */
  ghost predicate ListsNodes(nodes: seq<nat>, a0: Adjacency) {
    && (forall x :: x in nodes <==> x in a0)
    && (forall i, j :: 0 <= i < j < |nodes| ==> nodes[i] != nodes[j])
  }

  lemma {:induction false} SumRedirected(nodes: seq<nat>, counts: map<nat, nat>, rep: map<nat, nat>, src: nat, dst: nat,
      x: nat)
    requires src != dst && x != src
    ensures SumFor(nodes, counts, Redirect(rep, src, dst), x) ==
        SumFor(nodes, counts, rep, x) + if x == dst then SumFor(nodes, counts, rep, src) else 0
  {
    if nodes != [] {
      SumRedirected(nodes[1..], counts, rep, src, dst, x);
    }
  }

  lemma {:induction false} SumAlone(nodes: seq<nat>, counts: map<nat, nat>, rep: map<nat, nat>, x: nat)
    requires forall y :: y in nodes ==> y in rep && rep[y] == y
    requires forall i, j :: 0 <= i < j < |nodes| ==> nodes[i] != nodes[j]
    ensures SumFor(nodes, counts, rep, x) == if x in nodes then CountOf(counts, x) else 0
  {
    if nodes != [] {
      SumAlone(nodes[1..], counts, rep, x);
      assert x in nodes[1..] ==> nodes[0] != x;
      assert x in nodes <==> x == nodes[0] || x in nodes[1..];
    }
  }

  /** The count of a node that is left is the sum over all nodes that it stands for. */
  lemma {:induction false} CountsAreSums(a0: Adjacency, c: Fixed, k: nat, moves: seq<(nat, nat)>, counts: map<nat, nat>,
      nodes: seq<nat>, x: nat)
    requires Simple(a0) && c.precolored.Keys <= c.physReg.Keys && ListsNodes(nodes, a0)
    requires forall i :: 0 <= i < |moves| ==> moves[i].0 != moves[i].1
    requires x in CoalesceAll(c, k, Merging(a0, map[]), moves).adj
    ensures CountOf(CountsAll(c, k, a0, moves, counts), x) == SumFor(nodes, counts, RepAll(c, k, a0, moves), x)
    decreases |moves|
  {
    if moves == [] {
      SumAlone(nodes, counts, RepAll(c, k, a0, moves), x);
    } else {
      var n := |moves| - 1;
      var m, rep := CoalesceAll(c, k, Merging(a0, map[]), moves[..n]), RepAll(c, k, a0, moves[..n]);
      SumOneMore(a0, c, k, m, moves[n], rep, counts, nodes, x);
      hide Simple, ListsNodes, CoalesceOne, RepOne, CountsOne, SumFor;
      assert CoalesceAll(c, k, Merging(a0, map[]), moves) == CoalesceOne(c, k, m, moves[n]);
      KeysOnlyShrink(c, k, m, moves[n], x);
      CountsAreSums(a0, c, k, moves[..n], counts, nodes, x);
      match Orient(c, moves[n].0, moves[n].1)
      case None =>
      case Some((src, dst)) =>
        if Mergeable(m, k, src, dst) {
          CountsAreSums(a0, c, k, moves[..n], counts, nodes, src);
        }
      CountOneMore(c, k, m, moves[n], CountsAll(c, k, a0, moves[..n], counts), x);
    }
  }

  lemma KeysOnlyShrink(c: Fixed, k: nat, m: Merging, move: (nat, nat), x: nat)
    requires c.precolored.Keys <= c.physReg.Keys && x in CoalesceOne(c, k, m, move).adj
    ensures x in m.adj
  {
  }

  ghost predicate MergesNow(c: Fixed, k: nat, m: Merging, move: (nat, nat))
    requires c.precolored.Keys <= c.physReg.Keys
  {
    match Orient(c, move.0, move.1)
    case None => false
    case Some((src, dst)) => Mergeable(m, k, src, dst)
  }

  lemma SumOneMore(a0: Adjacency, c: Fixed, k: nat, m: Merging, move: (nat, nat), rep: map<nat, nat>,
      counts: map<nat, nat>, nodes: seq<nat>, x: nat)
    requires c.precolored.Keys <= c.physReg.Keys && move.0 != move.1 && x in CoalesceOne(c, k, m, move).adj
    ensures !MergesNow(c, k, m, move) ==>
        SumFor(nodes, counts, RepOne(c, k, m, move, rep), x) == SumFor(nodes, counts, rep, x)
    ensures MergesNow(c, k, m, move) ==>
      var (src, dst) := Orient(c, move.0, move.1).value;
      SumFor(nodes, counts, RepOne(c, k, m, move, rep), x) ==
      SumFor(nodes, counts, rep, x) + if x == dst then SumFor(nodes, counts, rep, src) else 0
  {
    hide SumFor, Redirect;
    if MergesNow(c, k, m, move) {
      var (src, dst) := Orient(c, move.0, move.1).value;
      SumRedirected(nodes, counts, rep, src, dst, x);
    }
  }

  lemma CountOneMore(c: Fixed, k: nat, m: Merging, move: (nat, nat), counts: map<nat, nat>, x: nat)
    requires c.precolored.Keys <= c.physReg.Keys
    ensures !MergesNow(c, k, m, move) ==> CountOf(CountsOne(c, k, m, move, counts), x) == CountOf(counts, x)
    ensures MergesNow(c, k, m, move) ==>
      var (src, dst) := Orient(c, move.0, move.1).value;
      CountOf(CountsOne(c, k, m, move, counts), x) == CountOf(counts, x) + if x == dst then CountOf(counts, src) else 0
  {
    hide Mergeable;
  }

  // ---- Merging two virtual nodes keeps a graph colourable ----

  ghost predicate ProperWith(a: Adjacency, k: nat, col: map<nat, nat>) {
    && col.Keys == a.Keys && (forall x :: x in a ==> col[x] < k)
    && forall x, y :: Adjacent(a, x, y) && y in a ==> col[x] != col[y]
  }

  ghost predicate Colourable(a: Adjacency, k: nat) {
    exists col :: ProperWith(a, k, col)
  }

  /** A colour below `k` outside a set of fewer than `k` colours. */
  lemma {:induction false} FreeColour(k: nat, used: set<nat>) returns (c: nat)
    requires |used| < k
    ensures c < k && c !in used
  {
    if k - 1 in used {
      c := FreeColour(k - 1, used - {k - 1});
    } else {
      c := k - 1;
    }
  }

  ghost function Image(s: set<nat>, f: map<nat, nat>): set<nat> {
    set x | x in s && x in f :: f[x]
  }

  lemma {:induction false} ImageSize(s: set<nat>, f: map<nat, nat>)
    ensures |Image(s, f)| <= |s|
    decreases |s|
  {
    if s != {} {
      var x :| x in s;
      ImageSize(s - {x}, f);
      assert Image(s, f) == Image(s - {x}, f) + if x in f then {f[x]} else {};
    }
  }

  /** The size test makes merging safe: whatever colours the rest has, one is left for the merged node. */
  lemma MergeKeepsColourable(m: Merging, k: nat, src: nat, dst: nat)
    requires Simple(m.adj) && Mergeable(m, k, src, dst) && src != dst && Colourable(m.adj, k)
    ensures Colourable(Merge(m.adj, src, dst), k)
  {
    hide Merge, ProperWith, Image;
    var col :| ProperWith(m.adj, k, col);
    var a := Merge(m.adj, src, dst);
    MergedNeighbours(m.adj, src, dst);
    ImageSize(a[dst], col);
    var free := FreeColour(k, Image(a[dst], col));
    ColouredNeighbours(m.adj, a[dst], k, col, free);
    Recolour(m.adj, a, dst, k, col, free);
  }

  lemma ColouredNeighbours(a: Adjacency, s: set<nat>, k: nat, col: map<nat, nat>, free: nat)
    requires ProperWith(a, k, col) && s <= a.Keys && free !in Image(s, col)
    ensures forall x :: x in s ==> x in col && col[x] != free
  {
  }

  /** Colours for all nodes but `dst` carry over; `dst` takes one that its neighbours do not have. */
  lemma Recolour(a: Adjacency, b: Adjacency, dst: nat, k: nat, col: map<nat, nat>, free: nat)
    requires ProperWith(a, k, col) && dst in b && b.Keys <= a.Keys && b[dst] <= a.Keys && dst !in b[dst] && free < k
    requires forall x :: x in b[dst] ==> x in col && col[x] != free
    requires forall x :: Adjacent(b, x, dst) ==> x in b[dst]
    requires forall x, y :: Adjacent(b, x, y) && x != dst && y != dst ==> Adjacent(a, x, y)
    ensures Colourable(b, k)
  {
    var col' := map x | x in b :: if x == dst then free else col[x];
    forall x, y | Adjacent(b, x, y) && y in b
      ensures col'[x] != col'[y]
    {
    }
    assert ProperWith(b, k, col');
  }

  lemma MergedNeighbours(a: Adjacency, src: nat, dst: nat)
    requires Simple(a) && src in a && dst in a && src != dst && dst !in a[src]
    ensures var b := Merge(a, src, dst);
      && b.Keys == a.Keys - {src}
      && b[dst] == a[src] + a[dst] - {src} - {dst} && b[dst] <= a.Keys
      && (forall x :: Adjacent(b, x, dst) ==> x in b[dst])
      && (forall x, y :: Adjacent(b, x, y) && x != dst && y != dst ==> Adjacent(a, x, y))
  {
  }

  // ---- Simplify ----

  /** `work[x]` holds the neighbours of `x` that are still active. */
  ghost predicate Working(a: Adjacency, active: set<nat>, work: Adjacency) {
    active <= a.Keys && active <= work.Keys && forall x :: x in active ==> work[x] == a[x] * active
  }

  /** Queued active nodes have few neighbours, and every active node with few neighbours is queued. */
  ghost predicate LowQueued(k: nat, active: set<nat>, work: Adjacency, worklist: seq<nat>) {
    && (forall i :: 0 <= i < |worklist| && worklist[i] in active && worklist[i] in work ==> |work[worklist[i]]| < k)
    && (forall x :: x in active && x in work && |work[x]| < k ==> x in worklist)
  }

  /** The neighbours of `stack[i]` that were still present when it was pushed. */
  ghost function Remaining(a: Adjacency, stack: seq<nat>, i: nat, active: set<nat>): set<nat>
    requires i < |stack|
  {
    Neighbours(a, stack[i]) * (Elems(stack[i + 1..]) + active)
  }

  /** Nodes of `low` come before all others. */
  predicate LowFirst(low: set<nat>, stack: seq<nat>) {
    forall i, j :: 0 <= i < j < |stack| && stack[j] in low ==> stack[i] in low
  }

  /** The first `n` queued nodes are of `low`, and all present nodes of `low` are among them; until they are gone
   * nothing else is removed. */
  ghost predicate Fifo(low: set<nat>, active: set<nat>, worklist: seq<nat>, n: nat, stack: seq<nat>) {
    && n <= |worklist| && (forall i :: 0 <= i < n ==> worklist[i] in low)
    && (forall x :: x in low && x in active ==> x in worklist[..n])
    && LowFirst(low, stack)
    && ((exists x :: x in low && x in active) ==> forall i :: 0 <= i < |stack| ==> stack[i] in low)
  }

  /** The nodes with fewer than `k` neighbours that are not precoloured. */
  ghost function LowNodes(a: Adjacency, c: set<nat>, k: nat): set<nat> {
    set x | x in a && x !in c && |a[x] * (a.Keys - c)| < k
  }

  lemma FifoStart(low: set<nat>, active: set<nat>, worklist: seq<nat>)
    requires forall x :: x in low <==> x in worklist
    ensures Fifo(low, active, worklist, |worklist|, [])
  {
    assert worklist[..|worklist|] == worklist;
  }

  lemma FifoDrop(low: set<nat>, active: set<nat>, worklist: seq<nat>, n: nat, stack: seq<nat>)
    requires Fifo(low, active, worklist, n, stack) && worklist != [] && worklist[0] !in active
    ensures Fifo(low, active, worklist[1..], if n == 0 then 0 else n - 1, stack)
  {
    var m := if n == 0 then 0 else n - 1;
    forall x | x in low && x in active
      ensures x in worklist[1..][..m]
    {
      var i :| 0 <= i < n && worklist[..n][i] == x;
      assert worklist[1..][..m][i - 1] == x;
    }
  }

  /** The next node removed is of `low` as long as there is one. */
  lemma FifoPop(low: set<nat>, active: set<nat>, worklist: seq<nat>, n: nat, stack: seq<nat>)
    requires Fifo(low, active, worklist, n, stack) && worklist != [] && worklist[0] in active
    ensures Fifo(low, active - {worklist[0]}, worklist[1..], if n == 0 then 0 else n - 1, stack + [worklist[0]])
  {
    var id, m := worklist[0], if n == 0 then 0 else n - 1;
    forall x | x in low && x in active - {id}
      ensures x in worklist[1..][..m]
    {
      var i :| 0 <= i < n && worklist[..n][i] == x;
      assert worklist[1..][..m][i - 1] == x;
    }
    if id in low {
      assert id in active;
    }
  }

  lemma FifoSpill(low: set<nat>, active: set<nat>, n: nat, stack: seq<nat>, id: nat)
    requires Fifo(low, active, [], n, stack) && id in active
    ensures Fifo(low, active - {id}, [], 0, stack + [id])
  {
  }

  lemma FifoLonger(low: set<nat>, active: set<nat>, worklist: seq<nat>, longer: seq<nat>, n: nat, stack: seq<nat>)
    requires Fifo(low, active, worklist, n, stack) && worklist <= longer
    ensures Fifo(low, active, longer, n, stack)
  {
    assert n <= |worklist| ==> longer[..n] == worklist[..n];
  }

  lemma NoElems()
    ensures Elems([]) == {}
  {
  }

  lemma FifoEnd(low: set<nat>, active: set<nat>, worklist: seq<nat>, n: nat, stack: seq<nat>)
    requires Fifo(low, active, worklist, n, stack)
    ensures LowFirst(low, stack)
  {
  }

  lemma QueuedIsLow(a: Adjacency, c: set<nat>, k: nat, active: set<nat>, work: Adjacency, worklist: seq<nat>)
    requires active == a.Keys - c && Working(a, active, work) && LowQueued(k, active, work, worklist)
    requires forall i :: 0 <= i < |worklist| ==> worklist[i] in active
    ensures forall x :: x in LowNodes(a, c, k) <==> x in worklist
  {
    forall x | x in active
      ensures work[x] == a[x] * (a.Keys - c)
    {
    }
  }

  /** The removed nodes in order; those chosen for spilling are exactly the ones with `k` or more neighbours left. */
  ghost predicate Stacked(a: Adjacency, k: nat, nodes: set<nat>, active: set<nat>, stack: seq<nat>, chosen: set<nat>) {
    && Elems(stack) + active == nodes && Elems(stack) !! active && chosen <= Elems(stack)
    && (forall i, j :: 0 <= i < j < |stack| ==> stack[i] != stack[j])
    && (forall i :: 0 <= i < |stack| ==> (stack[i] in chosen <==> |Remaining(a, stack, i, active)| >= k))
  }

  lemma ElemsSnoc(s: seq<nat>, x: nat)
    ensures Elems(s + [x]) == Elems(s) + {x}
  {
  }

  lemma RemainingKept(a: Adjacency, stack: seq<nat>, i: nat, active: set<nat>, id: nat)
    requires i < |stack| && id in active
    ensures Remaining(a, stack + [id], i, active - {id}) == Remaining(a, stack, i, active)
  {
    assert (stack + [id])[i + 1..] == stack[i + 1..] + [id];
    ElemsSnoc(stack[i + 1..], id);
    assert Elems(stack[i + 1..]) + {id} + (active - {id}) == Elems(stack[i + 1..]) + active;
  }

  lemma WorkingKeys(a: Adjacency, active: set<nat>, work: Adjacency)
    requires Working(a, active, work)
    ensures active <= work.Keys
  {
  }

  lemma RemainingNew(a: Adjacency, stack: seq<nat>, active: set<nat>, work: Adjacency, id: nat)
    requires Simple(a) && Working(a, active, work) && id in active
    ensures Remaining(a, stack + [id], |stack|, active - {id}) == work[id]
  {
    assert (stack + [id])[|stack| + 1..] == [];
    assert Elems([]) == {};
    assert id !in a[id];
  }

  lemma PushNode(a: Adjacency, k: nat, nodes: set<nat>, active: set<nat>, work: Adjacency, stack: seq<nat>,
      chosen: set<nat>, id: nat)
    requires Simple(a) && Working(a, active, work) && Stacked(a, k, nodes, active, stack, chosen) && id in active
    ensures Stacked(a, k, nodes, active - {id}, stack + [id], if |work[id]| >= k then chosen + {id} else chosen)
  {
    hide Remaining, Simple, Working, Elems;
    WorkingKeys(a, active, work);
    var stack', active' := stack + [id], active - {id};
    ElemsSnoc(stack, id);
    assert id !in Elems(stack);
    forall i | 0 <= i < |stack'|
      ensures Remaining(a, stack', i, active') == if i < |stack| then Remaining(a, stack, i, active) else work[id]
    {
      if i < |stack| {
        RemainingKept(a, stack, i, active, id);
      } else {
        RemainingNew(a, stack, active, work, id);
      }
    }
    forall i | 0 <= i < |stack|
      ensures stack[i] in Elems(stack)
    {
      ElemsAt(stack, i);
    }
  }

  lemma StackedActive(a: Adjacency, k: nat, nodes: set<nat>, active: set<nat>, stack: seq<nat>, chosen: set<nat>)
    requires Stacked(a, k, nodes, active, stack, chosen)
    ensures active <= nodes
  {
  }

  lemma ElemsAt(s: seq<nat>, i: nat)
    requires i < |s|
    ensures s[i] in Elems(s)
  {
  }

  lemma PrefixMore(a: seq<nat>, b: seq<nat>, x: nat)
    requires a <= b
    ensures a <= b + [x]
  {
  }

  /** The working graph while the neighbours in `done` have dropped `id`. */
  ghost predicate Dropping(work0: Adjacency, id: nat, done: set<nat>, work: Adjacency) {
    && work.Keys == work0.Keys
    && (forall x :: x in work0 ==> work[x] == if x in done then work0[x] - {id} else work0[x])
  }

  lemma NothingDropped(work0: Adjacency, id: nat)
    requires id in work0
    ensures Dropping(work0, id, work0[id] - work0[id], work0)
  {
  }

  lemma DropNext(work0: Adjacency, id: nat, done: set<nat>, work: Adjacency, n: nat)
    requires Dropping(work0, id, done, work) && n in work0 && n !in done
    ensures Dropping(work0, id, done + {n}, work[n := work[n] - {id}])
  {
  }

  lemma DropOne(work0: Adjacency, id: nat, done: set<nat>, work: Adjacency, n: nat, k: nat, active: set<nat>,
      worklist: seq<nat>)
    requires Dropping(work0, id, done, work) && n in work0 && n !in done && id in work0[n]
    requires LowQueued(k, active, work, worklist)
    ensures Dropping(work0, id, done + {n}, work[n := work[n] - {id}])
    ensures LowQueued(k, active, work[n := work[n] - {id}], if |work[n] - {id}| + 1 == k then worklist + [n]
        else worklist)
  {
    assert |work[n]| == |work[n] - {id}| + 1;
  }

  // ---- Select ----

  ghost predicate ProperRegs(a: Adjacency, phys: map<nat, nat>) {
    forall x, y :: Adjacent(a, x, y) && x in phys && y in phys ==> phys[x] != phys[y]
  }

  ghost predicate Injective(m: map<nat, nat>) {
    forall x, y :: x in m && y in m && x != y ==> m[x] != m[y]
  }

  predicate DistinctColours(colors: seq<nat>) {
    forall i, j :: 0 <= i < j < |colors| ==> colors[i] != colors[j]
  }

  /** The first colour that is not used. */
  function FirstNot(colors: seq<nat>, used: set<nat>): (r: Option<nat>)
    ensures r.Some? ==> r.value in colors && r.value !in used
    ensures r.None? ==> forall j :: 0 <= j < |colors| ==> colors[j] in used
  {
    if colors == [] then None else if colors[0] !in used then Some(colors[0]) else FirstNot(colors[1..], used)
  }

  /** The colours that `id` cannot have: those of its neighbours, and t5 if it is live across a call. */
  ghost function Taken(a: Adjacency, c: Fixed, id: nat, phys: map<nat, nat>): set<nat> {
    Image(Neighbours(a, id), phys) + if id in c.callCrossing then {T5} else {}
  }

  /** The registers after the nodes of the stack have chosen in turn, the last one first. */
  ghost function SelectAll(a: Adjacency, c: Fixed, stack: seq<nat>, chosen: set<nat>, colors: seq<nat>): map<nat, nat> {
    if stack == [] then c.physReg
    else
      var phys := SelectAll(a, c, stack[1..], chosen, colors);
      if stack[0] in chosen then phys
      else match FirstNot(colors, Taken(a, c, stack[0], phys))
        case None => phys
        case Some(color) => phys[stack[0] := color]
  }

  /** The stack from `i` on has been coloured. */
  ghost predicate Selected(a: Adjacency, c: Fixed, stack: seq<nat>, i: nat, phys: map<nat, nat>, spilled: set<nat>,
      colors: seq<nat>) {
    && i <= |stack| && ProperRegs(a, phys)
    && phys.Keys == c.precolored.Keys + (Elems(stack[i..]) - spilled)
    && (forall x :: x in c.precolored && x in phys ==> phys[x] == c.precolored[x])
    && (forall x :: x in phys && x !in c.precolored ==> phys[x] in colors && (x in c.callCrossing ==> phys[x] != T5))
  }

  /** Nothing but the neighbours restricts the choice of colours. */
  ghost predicate Unrestricted(k: nat, c: Fixed, nodes: set<nat>, colors: seq<nat>) {
    c.precolored == map[] && c.callCrossing !! nodes && DistinctColours(colors) && k <= |colors|
  }

  lemma AssignColour(a: Adjacency, c: Fixed, stack: seq<nat>, i: nat, phys: map<nat, nat>, spilled: set<nat>,
      colors: seq<nat>, color: nat)
    requires Simple(a) && 0 < i && Selected(a, c, stack, i, phys, spilled, colors) && stack[i - 1] !in spilled &&
        stack[i - 1] !in c.precolored
    requires color in colors && color !in Image(Neighbours(a, stack[i - 1]), phys) &&
        (stack[i - 1] in c.callCrossing ==> color != T5)
    ensures Selected(a, c, stack, i - 1, phys[stack[i - 1] := color], spilled, colors)
  {
    var id := stack[i - 1];
    var phys' := phys[id := color];
    assert Elems(stack[i - 1..]) == Elems(stack[i..]) + {id} by {
      assert stack[i - 1..] == [id] + stack[i..];
    }
    forall x, y | Adjacent(a, x, y) && x in phys' && y in phys'
      ensures phys'[x] != phys'[y]
    {
      if x == id {
        assert y in Neighbours(a, id) && y != id;
        assert phys[y] in Image(Neighbours(a, id), phys);
      } else if y == id {
        assert x in Neighbours(a, id);
        assert phys[x] in Image(Neighbours(a, id), phys);
      }
    }
  }

  lemma LeaveUncoloured(a: Adjacency, c: Fixed, stack: seq<nat>, i: nat, phys: map<nat, nat>, spilled: set<nat>,
      colors: seq<nat>)
    requires 0 < i && Selected(a, c, stack, i, phys, spilled, colors) && stack[i - 1] !in Elems(stack[i..])
    ensures Selected(a, c, stack, i - 1, phys, spilled + {stack[i - 1]}, colors)
  {
    assert Elems(stack[i - 1..]) == Elems(stack[i..]) + {stack[i - 1]} by {
      assert stack[i - 1..] == [stack[i - 1]] + stack[i..];
    }
  }

  /** Fewer than `k` taken colours cannot cover `k` different ones. */
  lemma {:induction false} SomeColourFree(colors: seq<nat>, taken: set<nat>)
    requires DistinctColours(colors) && |taken| < |colors|
    ensures exists j :: 0 <= j < |colors| && colors[j] !in taken
  {
    var n := |colors| - 1;
    if colors[n] in taken {
      SomeColourFree(colors[..n], taken - {colors[n]});
      var j :| 0 <= j < n && colors[..n][j] !in taken - {colors[n]};
      assert colors[j] == colors[..n][j] && colors[j] != colors[n];
      assert colors[j] !in taken;
    }
  }

  /** A node that simplify took with few neighbours left finds a colour. */
  lemma LowNodeColoured(a: Adjacency, c: Fixed, k: nat, nodes: set<nat>, stack: seq<nat>, chosen: set<nat>, i: nat,
      phys: map<nat, nat>, spilled: set<nat>, colors: seq<nat>)
    requires Stacked(a, k, nodes, {}, stack, chosen) && 0 < i && Selected(a, c, stack, i, phys, spilled, colors)
    requires Unrestricted(k, c, nodes, colors) && stack[i - 1] !in chosen
    ensures stack[i - 1] !in c.callCrossing && exists j ::
        0 <= j < |colors| &&
        colors[j] !in Image(Neighbours(a, stack[i - 1]), phys)
  {
    hide Image, ProperRegs, Remaining;
    var id := stack[i - 1];
    assert id in Elems(stack);
    var near := Remaining(a, stack, i - 1, {});
    NearImage(a, c, stack, i, phys, spilled, colors);
    ImageSize(near * phys.Keys, phys);
    SubsetBound(near * phys.Keys, near);
    SomeColourFree(colors, Image(Neighbours(a, id), phys));
  }

  /** Coloured neighbours of the next node lie above it in the stack. */
  lemma NearImage(a: Adjacency, c: Fixed, stack: seq<nat>, i: nat, phys: map<nat, nat>, spilled: set<nat>,
      colors: seq<nat>)
    requires 0 < i && Selected(a, c, stack, i, phys, spilled, colors) && c.precolored == map[]
    ensures Image(Neighbours(a, stack[i - 1]), phys) == Image(Remaining(a, stack, i - 1, {}) * phys.Keys, phys)
  {
    assert stack[i - 1 + 1..] == stack[i..];
    var near, all := Remaining(a, stack, i - 1, {}) * phys.Keys, Neighbours(a, stack[i - 1]);
    forall x | x in all && x in phys
      ensures x in near
    {
    }
    forall v
      ensures v in Image(all, phys) <==> v in Image(near, phys)
    {
    }
  }

  lemma SubsetBound(s: set<nat>, t: set<nat>)
    requires s <= t
    ensures |s| <= |t|
  {
    assert t == s + (t - s);
  }

  /** Colours reach merged nodes: a coloured node has the register of the node that stands for it. */
  ghost predicate Carried(rep: map<nat, nat>, phys: map<nat, nat>) {
    forall x :: x in phys ==> SameColour(rep, phys, x)
  }

  predicate SameColour(rep: map<nat, nat>, phys: map<nat, nat>, x: nat) {
    x in rep && rep[x] in phys && x in phys && phys[x] == phys[rep[x]]
  }

  /** Adjacent variables of the original graph have different registers once merged nodes carry their
   * representative's. */
  lemma CarriedIsProper(a0: Adjacency, a: Adjacency, rep: map<nat, nat>, phys: map<nat, nat>)
    requires EdgesKept(a0, a, rep) && Carried(rep, phys) && ProperRegs(a, phys)
    ensures ProperRegs(a0, phys)
  {
    forall x, y | Adjacent(a0, x, y) && x in phys && y in phys
      ensures phys[x] != phys[y]
    {
      assert EdgeKept(a, rep, x, y);
      assert SameColour(rep, phys, x) && SameColour(rep, phys, y);
    }
  }

  /** Only merged nodes get a register here, so the colouring of the rest stays. */
  lemma CarryOne(a: Adjacency, rep: map<nat, nat>, phys: map<nat, nat>, src: nat, dst: nat)
    requires ProperRegs(a, phys) && Carried(rep, phys) && Simple(a)
    requires src !in a && SameRep(rep, src, dst) && dst in phys && rep[src] in a
    ensures ProperRegs(a, phys[src := phys[dst]]) && Carried(rep, phys[src := phys[dst]])
  {
    assert SameColour(rep, phys, dst);
    var phys' := phys[src := phys[dst]];
    forall x | x in phys'
      ensures SameColour(rep, phys', x)
    {
      if x != src {
        assert SameColour(rep, phys, x);
      }
    }
  }

  lemma UnmergedCarried(a0: Adjacency, c: Fixed, m: Merging, rep: map<nat, nat>, phys: map<nat, nat>)
    requires Represents(a0, c, m, rep) && c.precolored == c.physReg && c.precolored.Keys <= a0.Keys &&
        phys.Keys <= c.precolored.Keys + m.adj.Keys
    requires forall x :: x in c.precolored ==> x in phys && phys[x] == c.precolored[x]
    ensures Carried(rep, phys)
  {
    hide Simple, EdgesKept;
    forall x | x in phys
      ensures SameColour(rep, phys, x)
    {
      if x in c.precolored {
        assert SameReg(c, x, rep[x]);
      }
    }
  }

  /** The neighbours of `src` outside `rest` have `dst` for `src`. */
  ghost predicate Moved(a: Adjacency, src: nat, dst: nat, rest: set<nat>, b: Adjacency) {
    && b.Keys == a.Keys && src in a && dst in a
    && forall n :: n in a ==> b[n] == if n != src && n != dst && n in a[src] && n !in rest then a[n] - {src} + {dst}
      else a[n]
  }

  lemma NothingMoved(a: Adjacency, src: nat, dst: nat)
    requires src in a && dst in a
    ensures Moved(a, src, dst, a[src], a)
  {
  }

  lemma MovedKeys(a: Adjacency, src: nat, dst: nat, b: Adjacency)
    requires Moved(a, src, dst, {}, b)
    ensures b.Keys == a.Keys && src in b && dst in b
  {
  }

  lemma MoveOne(a: Adjacency, src: nat, dst: nat, rest: set<nat>, b: Adjacency, n: nat)
    requires Simple(a) && Moved(a, src, dst, rest, b) && n in rest && rest <= a[src] && dst !in a[src]
    ensures n in b && Moved(a, src, dst, rest - {n}, b[n := b[n] - {src} + {dst}])
  {
  }

  lemma MovedIsMerge(a: Adjacency, src: nat, dst: nat, b: Adjacency)
    requires Simple(a) && src != dst && Moved(a, src, dst, {}, b)
    ensures b[dst := b[dst] - {src} + (b[src] - {dst})] - {src} == Merge(a, src, dst)
  {
    var c, d := b[dst := b[dst] - {src} + (b[src] - {dst})] - {src}, Merge(a, src, dst);
    forall n | n in d
      ensures n in c && c[n] == d[n]
    {
      assert n in a[src] <==> src in a[n];
    }
  }

  // ---- The choice of a node to spill ----

  /** `x` is used and defined less often than `y`, or equally often with more neighbours that have no fixed register. */
  ghost predicate RatherSpilled(uses: map<nat, nat>, defs: map<nat, nat>, a: Adjacency, fixed: set<nat>, x: nat,
      y: nat)
  {
    var wx := (if x in uses then uses[x] else 0) + if x in defs then defs[x] else 0;
    var wy := (if y in uses then uses[y] else 0) + if y in defs then defs[y] else 0;
    wx < wy || (wx == wy && |Neighbours(a, x) - fixed| > |Neighbours(a, y) - fixed|)
  }

  /** A node chosen for spilling was the cheapest of those present: itself, those removed later, those still there. */
  ghost predicate CheapestChosen(uses: map<nat, nat>, defs: map<nat, nat>, a: Adjacency, fixed: set<nat>,
      stack: seq<nat>, chosen: set<nat>, active: set<nat>)
  {
    && (forall i, j :: 0 <= i < j < |stack| && stack[i] in chosen ==>
      !RatherSpilled(uses, defs, a, fixed, stack[j], stack[i]))
    && (forall i, y :: 0 <= i < |stack| && stack[i] in chosen && y in active ==>
      !RatherSpilled(uses, defs, a, fixed, y, stack[i]))
  }

  lemma WorkingDegree(a: Adjacency, fixed: set<nat>, active: set<nat>, work: Adjacency, x: nat)
    requires Simple(a) && active == a.Keys - fixed && Working(a, active, work) && x in active
    ensures Neighbours(work, x) == Neighbours(a, x) - fixed
  {
    assert work[x] == a[x] * active;
    forall v | v in a[x]
      ensures v in a
    {
    }
  }

  lemma CheapestMore(uses: map<nat, nat>, defs: map<nat, nat>, a: Adjacency, k: nat, fixed: set<nat>, nodes: set<nat>,
      stack: seq<nat>, chosen: set<nat>, active: set<nat>, id: nat, spill: bool)
    requires CheapestChosen(uses, defs, a, fixed, stack, chosen, active) && id in active
    requires Stacked(a, k, nodes, active, stack, chosen)
    requires spill ==> forall y :: y in active ==> !RatherSpilled(uses, defs, a, fixed, y, id)
    ensures CheapestChosen(uses, defs, a, fixed, stack + [id], if spill then chosen + {id} else chosen, active - {id})
  {
    hide RatherSpilled, Remaining;
    assert id !in chosen;
    forall i | 0 <= i < |stack|
      ensures stack[i] != id
    {
      ElemsAt(stack, i);
    }
  }

  class InterferenceGraph {
    var adjacency: Adjacency
    var precolored: map<nat, nat>
    var physReg: map<nat, nat>
    var defCount: map<nat, nat>
    var useCount: map<nat, nat>
    var movePairs: seq<(nat, nat)>
    var coalesced: map<nat, nat>
    var callCrossing: set<nat>

    /** Before colouring: only the precoloured nodes have registers, and they are nodes with different registers. */
    ghost predicate Valid()
      reads this
    {
      && Simple(adjacency) && physReg == precolored && Injective(precolored) && precolored.Keys <= adjacency.Keys +
        coalesced.Keys
      && (forall i :: 0 <= i < |movePairs| ==> movePairs[i].0 != movePairs[i].1)
    }

    constructor ()
      ensures Valid() && adjacency == map[] && precolored == map[] && movePairs == [] && coalesced == map[] &&
          callCrossing == {}
    {
      adjacency, precolored, physReg, defCount, useCount, movePairs, coalesced, callCrossing := map[], map[], map[],
        map[], map[], [], map[], {};
    }

    method AddNode(id: nat)
      requires Valid()
      modifies `adjacency
      ensures Valid() && adjacency == WithNode(old(adjacency), id)
    {
      if id !in adjacency {
        adjacency := adjacency[id := {}];
      }
    }

    method AddEdge(u: nat, v: nat)
      requires Valid()
      modifies `adjacency
      ensures Valid() && adjacency == WithEdge(old(adjacency), u, v)
    {
      if u == v {
        return;
      }
      WithEdgeAdds(adjacency, u, v);
      adjacency := adjacency[u := Neighbours(adjacency, u) + {v}];
      adjacency := adjacency[v := Neighbours(adjacency, v) + {u}];
    }

    method RemoveEdge(u: nat, v: nat)
      requires Valid()
      modifies `adjacency
      ensures Valid() && adjacency.Keys == old(adjacency).Keys
      ensures forall x, y :: Adjacent(adjacency, x, y) <==>
          Adjacent(old(adjacency), x, y) && !(x == u && y == v) && !(x == v && y == u)
    {
      if u in adjacency && v in adjacency {
        WithoutEdgeDrops(adjacency, u, v);
      } else {
        NoEdgeToDrop(adjacency, u, v);
      }
      if u == v {
        return;
      }
      ghost var a := adjacency;
      if u in adjacency {
        adjacency := adjacency[u := adjacency[u] - {v}];
      }
      if v in adjacency {
        adjacency := adjacency[v := adjacency[v] - {u}];
      }
      assert adjacency == WithoutEdge(a, u, v);
    }

    method SetPrecolored(id: nat, reg: nat)
      requires Valid() && forall x :: x in precolored ==> x != id && precolored[x] != reg
      modifies `precolored, `physReg, `adjacency
      ensures Valid() && precolored == old(precolored)[id := reg] && adjacency == WithNode(old(adjacency), id)
    {
      precolored := precolored[id := reg];
      physReg := physReg[id := reg];
      if id !in adjacency {
        adjacency := adjacency[id := {}];
      }
    }

    method IncDefCount(id: nat)
      modifies `defCount
      ensures defCount == old(defCount)[id := CountOf(old(defCount), id) + 1]
    {
      defCount := defCount[id := CountOf(defCount, id) + 1];
    }

    method IncUseCount(id: nat)
      modifies `useCount
      ensures useCount == old(useCount)[id := CountOf(old(useCount), id) + 1]
    {
      useCount := useCount[id := CountOf(useCount, id) + 1];
    }

    method AddMovePair(src: nat, dst: nat)
      requires Valid()
      modifies `movePairs
      ensures Valid() && movePairs == old(movePairs) + if src != dst then [(src, dst)] else []
    {
      if src != dst {
        movePairs := movePairs + [(src, dst)];
      }
    }

    ghost function Looks(): Fixed
      reads this
    {
      Fixed(precolored, physReg, callCrossing)
    }

    /** The neighbours of `src` become neighbours of `dst` instead. */
    method MoveNeighbours(src: nat, dst: nat)
      requires Simple(adjacency) && src in adjacency && dst in adjacency && src != dst && dst !in adjacency[src]
      modifies `adjacency
      ensures Moved(old(adjacency), src, dst, {}, adjacency)
    {
      hide Moved, Simple;
      ghost var a := adjacency;
      NothingMoved(a, src, dst);
      var rest := adjacency[src];
      while rest != {}
        invariant rest <= a[src] && Moved(a, src, dst, rest, adjacency)
        decreases |rest|
      {
        var n :| n in rest;
        MoveOne(a, src, dst, rest, adjacency, n);
        adjacency := adjacency[n := adjacency[n] - {src} + {dst}];
        rest := rest - {n};
      }
    }

    /** `src` becomes a part of `dst`. */
    method MergeInto(src: nat, dst: nat)
      requires Simple(adjacency) && src in adjacency && dst in adjacency && src != dst && dst !in adjacency[src]
      modifies `adjacency, `coalesced, `defCount, `useCount
      ensures adjacency == Merge(old(adjacency), src, dst) && coalesced == old(coalesced)[src := dst]
      ensures defCount == old(defCount)[dst := CountOf(old(defCount), dst) + CountOf(old(defCount), src)]
      ensures useCount == old(useCount)[dst := CountOf(old(useCount), dst) + CountOf(old(useCount), src)]
    {
      hide Moved, Simple, Merge, CountOf;
      ghost var a := adjacency;
      MoveNeighbours(src, dst);
      MovedIsMerge(a, src, dst, adjacency);
      MovedKeys(a, src, dst, adjacency);
      adjacency := adjacency[dst := adjacency[dst] - {src}];
      adjacency := adjacency[dst := adjacency[dst] + (adjacency[src] - {dst})];
      adjacency := adjacency - {src};
      defCount := defCount[dst := CountOf(defCount, dst) + CountOf(defCount, src)];
      useCount := useCount[dst := CountOf(useCount, dst) + CountOf(useCount, src)];
      coalesced := coalesced[src := dst];
    }

    method Coalesce(k: nat) returns (ghost rep: map<nat, nat>)
      requires Valid() && coalesced == map[]
      modifies `adjacency, `coalesced, `defCount, `useCount
      ensures Valid() && rep == RepAll(Looks(), k, old(adjacency), movePairs)
      ensures Merging(adjacency, coalesced) == CoalesceAll(Looks(), k, Merging(old(adjacency), map[]), movePairs)
      ensures Represents(old(adjacency), Looks(), Merging(adjacency, coalesced), rep)
      ensures forall i :: 0 <= i < |movePairs| ==>
          MovedRightly(Looks(), k, Merging(old(adjacency), map[]), movePairs, i)
      // A node that is left has the uses and definitions of all nodes that it stands for.
      ensures forall nodes: seq<nat>, x :: ListsNodes(nodes, old(adjacency)) && x in adjacency ==>
          CountOf(useCount, x) == SumFor(nodes, old(useCount), rep, x) &&
          CountOf(defCount, x) == SumFor(nodes, old(defCount), rep, x)
    {
      hide Merge, Represents, CoalesceOne, Simple, Injective, RepAll, MovedRightly, CountsOne, CountsAll, SumFor,
        CoalesceAll;
      NoCountsYet(Looks(), k, adjacency, defCount);
      NoCountsYet(Looks(), k, adjacency, useCount);
      ghost var start, c := Merging(adjacency, map[]), Looks();
      CoalesceRepresents(adjacency, c, k, []);
      for i := 0 to |movePairs|
        invariant Merging(adjacency, coalesced) == CoalesceAll(c, k, start, movePairs[..i])
        invariant defCount == CountsAll(c, k, start.adj, movePairs[..i], old(defCount))
        invariant useCount == CountsAll(c, k, start.adj, movePairs[..i], old(useCount))
        invariant Represents(start.adj, c, Merging(adjacency, coalesced), RepAll(c, k, start.adj, movePairs[..i]))
      {
        OneMoreMove(c, k, start, movePairs, i);
        OneMoreCount(c, k, start.adj, movePairs, i, old(defCount));
        OneMoreCount(c, k, start.adj, movePairs, i, old(useCount));
        RepresentsFacts(start.adj, c, Merging(adjacency, coalesced), RepAll(c, k, start.adj, movePairs[..i]));
        CoalesceRepresents(start.adj, c, k, movePairs[..i + 1]);
        CoalesceMove(k, movePairs[i].0, movePairs[i].1);
      }
      assert movePairs[..|movePairs|] == movePairs;
      rep := RepAll(c, k, start.adj, movePairs);
      StillValid(start.adj, c, Merging(adjacency, coalesced), rep);
      forall i | 0 <= i < |movePairs|
        ensures MovedRightly(c, k, start, movePairs, i)
      {
        CoalesceRightly(start.adj, c, k, movePairs, i);
      }
      forall nodes: seq<nat>, x | ListsNodes(nodes, start.adj) && x in adjacency
        ensures CountOf(useCount, x) == SumFor(nodes, old(useCount), rep, x)
        ensures CountOf(defCount, x) == SumFor(nodes, old(defCount), rep, x)
      {
        CountsAreSums(start.adj, c, k, movePairs, old(useCount), nodes, x);
        CountsAreSums(start.adj, c, k, movePairs, old(defCount), nodes, x);
      }
    }

    /** One move: merge its ends if nothing forbids it and the merged node has few neighbours. */
    method CoalesceMove(k: nat, srcOrig: nat, dstOrig: nat)
      requires precolored.Keys <= physReg.Keys && srcOrig != dstOrig && Simple(adjacency)
      modifies `adjacency, `coalesced, `defCount, `useCount
      ensures Merging(adjacency, coalesced) == CoalesceOne(old(Looks()), k, Merging(old(adjacency), old(coalesced)),
          (srcOrig, dstOrig))
      ensures defCount == CountsOne(old(Looks()), k, Merging(old(adjacency), old(coalesced)), (srcOrig, dstOrig),
          old(defCount))
      ensures useCount == CountsOne(old(Looks()), k, Merging(old(adjacency), old(coalesced)), (srcOrig, dstOrig),
          old(useCount))
    {
      hide Merge, Simple, Orient, CountOf;
      var ends := OrientMove(srcOrig, dstOrig);
      if ends.None? {
        return;
      }
      var src, dst := ends.value.0, ends.value.1;
      if src !in adjacency || dst !in adjacency {
        return;
      }
      if src in coalesced || dst in coalesced {
        return;
      }
      if dst in adjacency[src] {
        return;
      }
      var mergedAdj := adjacency[src] + adjacency[dst] - {src} - {dst};
      if |mergedAdj| >= k {
        return;
      }
      OrientKeepsEnds(Looks(), srcOrig, dstOrig);
      MergeInto(src, dst);
    }

    /** Which end of a move disappears and which survives, unless its kind forbids merging. */
    method OrientMove(srcOrig: nat, dstOrig: nat) returns (ends: Option<(nat, nat)>)
      requires precolored.Keys <= physReg.Keys
      ensures ends == Orient(Looks(), srcOrig, dstOrig)
    {
      var src, dst := srcOrig, dstOrig;
      if src in precolored && dst !in precolored {
        if dst in callCrossing {
          return None;
        }
        src, dst := dst, src;
      } else if src !in precolored && dst in precolored {
        if src in callCrossing {
          return None;
        }
      } else if src in precolored && dst in precolored {
        if physReg[src] != physReg[dst] {
          return None;
        }
      }
      ends := Some((src, dst));
    }

    // ---- Colouring ----

    /** The working copy of the graph without the precoloured nodes. */
    method Strip() returns (work: Adjacency, active: set<nat>)
      requires Simple(adjacency)
      ensures active == adjacency.Keys - precolored.Keys && Working(adjacency, active, work)
    {
      hide Stripped, Simple, Working;
      work, active := adjacency, adjacency.Keys;
      var rest := precolored.Keys;
      ghost var done: set<nat> := {};
      NothingStripped(adjacency);
      while rest != {}
        invariant done + rest == precolored.Keys && done !! rest && active == adjacency.Keys - done
        invariant Stripped(adjacency, done, work)
        decreases |rest|
      {
        var id :| id in rest;
        active := active - {id};
        if id in work {
          work := DropFromAll(adjacency, done, work, id);
        } else {
          StripMissing(adjacency, done, work, id);
        }
        rest := rest - {id};
        done := done + {id};
      }
      StrippedWorks(adjacency, done, work);
    }

    static method DropFromAll(ghost a: Adjacency, ghost done: set<nat>, work0: Adjacency, id: nat)
      returns (work: Adjacency)
      requires Simple(a) && Stripped(a, done, work0) && id in work0 && id !in done
      ensures Stripped(a, done + {id}, work)
    {
      hide Simple, Stripped, Dropping;
      work := work0;
      var todo := work0[id];
      NothingDropped(work0, id);
      while todo != {}
        invariant todo <= work0[id] && work.Keys == work0.Keys && Dropping(work0, id, work0[id] - todo, work)
        decreases |todo|
      {
        var n :| n in todo;
        assert n in work0 by {
          StrippedFacts(a, done, work0, id, n);
        }
        assert work0[id] - (todo - {n}) == work0[id] - todo + {n};
        DropNext(work0, id, work0[id] - todo, work, n);
        work := work[n := work[n] - {id}];
        todo := todo - {n};
      }
      assert work0[id] - todo == work0[id];
      DroppedIsStripped(a, done, work0, id, work);
      work := work[id := {}];
    }

    function Weight(id: nat): nat
      reads this
    {
      CountOf(useCount, id) + CountOf(defCount, id)
    }

    /** Spilled before: used less often, or equally often with more neighbours. */
    predicate Cheaper(work: Adjacency, x: nat, y: nat)
      reads this
    {
      Weight(x) < Weight(y) || (Weight(x) == Weight(y) && |Neighbours(work, x)| > |Neighbours(work, y)|)
    }

    /** No later candidate is cheaper than an earlier one. */
    ghost predicate Ordered(order: seq<nat>, rest: set<nat>, work: Adjacency)
      reads this
    {
      && (forall i, j :: 0 <= i < j < |order| ==> !Cheaper(work, order[j], order[i]))
      && (forall i, y :: 0 <= i < |order| && y in rest ==> !Cheaper(work, y, order[i]))
    }

    lemma NextCheapest(order: seq<nat>, rest: set<nat>, x: nat, work: Adjacency)
      requires Ordered(order, rest, work) && x in rest && forall y :: y in rest ==> !Cheaper(work, y, x)
      ensures Ordered(order + [x], rest - {x}, work)
    {
      hide Cheaper;
    }

    /** The candidates for spilling, cheapest first. */
    method SpillOrder(active: set<nat>, work: Adjacency) returns (order: seq<nat>)
      ensures Elems(order) == active && Ordered(order, {}, work)
    {
      order := [];
      var rest := active;
      assert Ordered(order, rest, work);
      hide Cheaper, Ordered;
      while rest != {}
        invariant Elems(order) + rest == active && Ordered(order, rest, work)
        decreases |rest|
      {
        var x := Cheapest(rest, work);
        ElemsSnoc(order, x);
        NextCheapest(order, rest, x, work);
        order := order + [x];
        rest := rest - {x};
      }
    }

    method Cheapest(s: set<nat>, work: Adjacency) returns (best: nat)
      requires s != {}
      ensures best in s && forall y :: y in s ==> !Cheaper(work, y, best)
    {
      best :| best in s;
      var rest := s - {best};
      while rest != {}
        invariant rest <= s && best in s
        invariant forall y :: y in s && y !in rest ==> !Cheaper(work, y, best)
        decreases |rest|
      {
        var x :| x in rest;
        if Cheaper(work, x, best) {
          best := x;
        }
        rest := rest - {x};
      }
    }

    static method LowDegree(active: set<nat>, work: Adjacency, k: nat) returns (worklist: seq<nat>)
      requires active <= work.Keys
      ensures LowQueued(k, active, work, worklist) && forall i :: 0 <= i < |worklist| ==> worklist[i] in active
    {
      worklist := [];
      var rest := active;
      while rest != {}
        invariant rest <= active && LowQueued(k, active - rest, work, worklist)
        invariant forall i :: 0 <= i < |worklist| ==> worklist[i] in active && |work[worklist[i]]| < k
        decreases |rest|
      {
        var x :| x in rest;
        if |work[x]| < k {
          worklist := worklist + [x];
        }
        rest := rest - {x};
      }
    }

    /** Take `id` out of the working graph; neighbours whose degree drops below `k` are queued. */
    static method RemoveNode(ghost a: Adjacency, work0: Adjacency, active: set<nat>, worklist0: seq<nat>, id: nat,
      k: nat) returns (work: Adjacency, worklist: seq<nat>)
      requires Simple(a) && Working(a, active, work0) && LowQueued(k, active - {id}, work0, worklist0) && id in active
      ensures Working(a, active - {id}, work) && LowQueued(k, active - {id}, work, worklist) && worklist0 <= worklist
    {
      hide Working, LowQueued, Simple, Dropping;
      WorkingKeys(a, active, work0);
      NothingDropped(work0, id);
      work, worklist := work0, worklist0;
      var todo := work0[id];
      while todo != {}
        invariant todo <= work0[id] && work.Keys == work0.Keys && Dropping(work0, id, work0[id] - todo, work)
        invariant LowQueued(k, active - {id}, work, worklist) && worklist0 <= worklist
        decreases |todo|
      {
        var n :| n in todo;
        WorkingEdge(a, active, work0, id, n);
        DropOne(work0, id, work0[id] - todo, work, n, k, active - {id}, worklist);
        assert work0[id] - (todo - {n}) == work0[id] - todo + {n};
        PrefixMore(worklist0, worklist, n);
        work := work[n := work[n] - {id}];
        if |work[n]| + 1 == k && |work[n]| < k {
          worklist := worklist + [n];
        }
        todo := todo - {n};
      }
      assert work0[id] - todo == work0[id];
      DroppedWorks(a, active, work0, id, work, k, worklist);
      work := work - {id};
    }

    /** The candidate is the cheapest of those that come after it in the order. */
    lemma CheapestOfRest(order: seq<nat>, c: nat, active0: set<nat>, active: set<nat>, work: Adjacency)
      requires Simple(adjacency) && active0 == adjacency.Keys - precolored.Keys && Working(adjacency, active0, work)
      requires Ordered(order, {}, work) && c < |order| && active <= Elems(order[c..]) && active <= active0
      requires order[c] in active
      ensures forall y :: y in active ==>
          !RatherSpilled(useCount, defCount, adjacency, precolored.Keys, y, order[c])
    {
      forall y | y in active
        ensures !RatherSpilled(useCount, defCount, adjacency, precolored.Keys, y, order[c])
      {
        var j :| 0 <= j < |order[c..]| && order[c..][j] == y;
        assert j == 0 || !Cheaper(work, order[c + j], order[c]);
        SameChoice(active0, work, y, order[c]);
      }
    }

    lemma SameChoice(active0: set<nat>, work: Adjacency, x: nat, y: nat)
      requires Simple(adjacency) && active0 == adjacency.Keys - precolored.Keys && Working(adjacency, active0, work)
      requires x in active0 && y in active0
      ensures Cheaper(work, x, y) <==> RatherSpilled(useCount, defCount, adjacency, precolored.Keys, x, y)
    {
      hide Simple, Working, Neighbours;
      WorkingDegree(adjacency, precolored.Keys, active0, work, x);
      WorkingDegree(adjacency, precolored.Keys, active0, work, y);
    }

    /** Remove all nodes, those with few neighbours first; when none is left, the cheapest is chosen for spilling. */
    method Simplify(k: nat) returns (stack: seq<nat>, chosen: set<nat>)
      requires Simple(adjacency)
      ensures Stacked(adjacency, k, adjacency.Keys - precolored.Keys, {}, stack, chosen)
      ensures LowFirst(LowNodes(adjacency, precolored.Keys, k), stack)
      ensures CheapestChosen(useCount, defCount, adjacency, precolored.Keys, stack, chosen, {})
    {
      hide Working, LowQueued, Simple, Stacked, Fifo, LowFirst, LowNodes, Elems, RatherSpilled, Cheaper, Ordered;
      NoElems();
      var work, active := Strip();
      ghost var nodes, work0 := active, work;
      WorkingKeys(adjacency, active, work);
      var worklist := LowDegree(active, work, k);
      ghost var low := LowNodes(adjacency, precolored.Keys, k);
      QueuedIsLow(adjacency, precolored.Keys, k, active, work, worklist);
      FifoStart(low, active, worklist);
      ghost var n: nat := |worklist|;
      var spillOrder := SpillOrder(active, work);
      assert spillOrder[0..] == spillOrder;
      var spillCursor: nat := 0;
      stack, chosen := [], {};
      NothingStacked(adjacency, k, nodes);
      while active != {}
        invariant Working(adjacency, active, work) && LowQueued(k, active, work, worklist)
        invariant Stacked(adjacency, k, nodes, active, stack, chosen) && Fifo(low, active, worklist, n, stack)
        invariant spillCursor <= |spillOrder| && active <= Elems(spillOrder[spillCursor..])
        invariant CheapestChosen(useCount, defCount, adjacency, precolored.Keys, stack, chosen, active)
        decreases |active|
      {
        WorkingKeys(adjacency, active, work);
        StackedActive(adjacency, k, nodes, active, stack, chosen);
        var id, spill;
        id, spill, worklist, spillCursor, n := PickNode(k, active, work, worklist, spillOrder, spillCursor, low, n,
          stack);
        ghost var picked := worklist;
        if spill {
          CheapestOfRest(spillOrder, spillCursor - 1, nodes, active, work0);
        }
        CheapestMore(useCount, defCount, adjacency, k, precolored.Keys, nodes, stack, chosen, active, id, spill);
        PushNode(adjacency, k, nodes, active, work, stack, chosen, id);
        if spill {
          chosen := chosen + {id};
        }
        stack := stack + [id];
        work, worklist := RemoveNode(adjacency, work, active, worklist, id, k);
        active := active - {id};
        FifoLonger(low, active, picked, worklist, n, stack);
      }
      FifoEnd(low, active, worklist, n, stack);
    }

    /** The next queued node that is still there, or else the next candidate for spilling. */
    static method PickNode(k: nat, active: set<nat>, work: Adjacency, worklist0: seq<nat>, spillOrder: seq<nat>,
      cursor0: nat, ghost low: set<nat>, ghost n0: nat, ghost stack: seq<nat>)
      returns (id: nat, spill: bool, worklist: seq<nat>, cursor: nat, ghost n: nat)
      requires Fifo(low, active, worklist0, n0, stack)
      requires active != {} && active <= work.Keys && LowQueued(k, active, work, worklist0)
      requires cursor0 <= |spillOrder| && active <= Elems(spillOrder[cursor0..])
      ensures id in active && (spill <==> |work[id]| >= k) && LowQueued(k, active - {id}, work, worklist)
      ensures Fifo(low, active - {id}, worklist, n, stack + [id])
      ensures cursor <= |spillOrder| && active - {id} <= Elems(spillOrder[cursor..])
      ensures spill ==> 0 < cursor && spillOrder[cursor - 1] == id && active <= Elems(spillOrder[cursor - 1..])
    {
      hide LowQueued, Fifo;
      worklist, cursor, n := worklist0, cursor0, n0;
      while worklist != [] && worklist[0] !in active
        invariant LowQueued(k, active, work, worklist) && Fifo(low, active, worklist, n, stack)
        decreases |worklist|
      {
        PopLow(k, active, work, worklist);
        FifoDrop(low, active, worklist, n, stack);
        worklist := worklist[1..];
        n := if n == 0 then 0 else n - 1;
      }
      if worklist != [] {
        id, spill := worklist[0], false;
        PopLow(k, active, work, worklist);
        FifoPop(low, active, worklist, n, stack);
        worklist := worklist[1..];
        n := if n == 0 then 0 else n - 1;
      } else {
        cursor := SkipRemoved(active, spillOrder, cursor);
        id, spill := spillOrder[cursor], true;
        cursor := cursor + 1;
        NoneLow(k, active, work, id);
        FifoSpill(low, active, n, stack, id);
        n := 0;
      }
    }

    /** Move the cursor to the next candidate that is still there; it never runs off the end. */
    static method SkipRemoved(active: set<nat>, spillOrder: seq<nat>, cursor0: nat) returns (cursor: nat)
      requires active != {} && cursor0 <= |spillOrder| && active <= Elems(spillOrder[cursor0..])
      ensures cursor < |spillOrder| && spillOrder[cursor] in active && active <= Elems(spillOrder[cursor..])
      ensures active - {spillOrder[cursor]} <= Elems(spillOrder[cursor + 1..])
    {
      cursor := cursor0;
      while cursor < |spillOrder| && spillOrder[cursor] !in active
        invariant cursor <= |spillOrder| && active <= Elems(spillOrder[cursor..])
      {
        assert spillOrder[cursor..] == [spillOrder[cursor]] + spillOrder[cursor + 1..];
        cursor := cursor + 1;
      }
      NotEmpty(active, spillOrder[cursor..]);
      assert spillOrder[cursor..] == [spillOrder[cursor]] + spillOrder[cursor + 1..];
    }

    /** Give the popped nodes, last removed first, the first colour that no coloured neighbour has. */
    method Select(k: nat, stack: seq<nat>, chosen: set<nat>, colors: seq<nat>) returns (spilled: set<nat>)
      requires Valid() && Stacked(adjacency, k, adjacency.Keys - precolored.Keys, {}, stack, chosen)
      modifies `physReg
      ensures Selected(adjacency, old(Looks()), stack, 0, physReg, spilled, colors)
      ensures physReg == SelectAll(adjacency, old(Looks()), stack, chosen, colors)
      ensures chosen <= spilled <= Elems(stack)
      ensures Unrestricted(k, old(Looks()), adjacency.Keys - precolored.Keys, colors) ==> spilled == chosen
    {
      hide Selected, Stacked, Unrestricted, Simple, Injective, SpilledSoFar;
      ghost var c, nodes := Looks(), adjacency.Keys - precolored.Keys;
      spilled := chosen;
      NothingSelected(adjacency, c, stack, spilled, colors);
      OnlyChosen(adjacency, k, nodes, stack, chosen);
      for i := |stack| downto 0
        invariant Selected(adjacency, c, stack, i, physReg, spilled, colors)
        invariant physReg == SelectAll(adjacency, c, stack[i..], chosen, colors)
        invariant SpilledSoFar(stack, i, chosen, spilled)
        invariant Unrestricted(k, c, nodes, colors) ==> spilled == chosen
      {
        ghost var before := spilled;
        assert stack[i..] == [stack[i]] + stack[i + 1..];
        NextOnStack(adjacency, k, nodes, stack, chosen, i + 1, spilled);
        if stack[i] in spilled {
          LeaveUncoloured(adjacency, c, stack, i + 1, physReg, spilled, colors);
          assert spilled + {stack[i]} == spilled;
        } else {
          spilled := SelectOne(c, k, nodes, stack, chosen, i + 1, spilled, colors);
        }
        SpilledNext(stack, i + 1, chosen, before, spilled);
      }
      assert stack[0..] == stack;
      assert chosen <= spilled <= Elems(stack) by {
        SpilledAtEnd(stack, chosen, spilled);
      }
    }

    /** Colour one node, or spill it when every colour is taken. */
    method SelectOne(ghost c: Fixed, ghost k: nat, ghost nodes: set<nat>, stack: seq<nat>, ghost chosen: set<nat>,
        i: nat, spilled0: set<nat>, colors: seq<nat>)
      returns (spilled: set<nat>)
      requires Simple(adjacency) && Stacked(adjacency, k, nodes, {}, stack, chosen) && 0 < i <= |stack|
      requires Selected(adjacency, c, stack, i, physReg, spilled0, colors) && c.callCrossing == callCrossing
      requires stack[i - 1] !in spilled0 && stack[i - 1] !in chosen && stack[i - 1] !in c.precolored &&
          stack[i - 1] !in Elems(stack[i..])
      modifies `physReg
      ensures Selected(adjacency, c, stack, i - 1, physReg, spilled, colors)
      ensures physReg == match FirstNot(colors, Taken(adjacency, c, stack[i - 1], old(physReg)))
        case None => old(physReg)
        case Some(color) => old(physReg)[stack[i - 1] := color]
      ensures spilled0 <= spilled <= spilled0 + {stack[i - 1]}
      ensures Unrestricted(k, c, nodes, colors) ==> spilled == spilled0
    {
      hide Selected, Stacked, Unrestricted, Simple, Image;
      var id := stack[i - 1];
      spilled := spilled0;
      if Unrestricted(k, c, nodes, colors) {
        LowNodeColoured(adjacency, c, k, nodes, stack, chosen, i, physReg, spilled, colors);
      }
      var color := FirstFree(id, colors);
      if color.Some? {
        AssignColour(adjacency, c, stack, i, physReg, spilled, colors, color.value);
        physReg := physReg[id := color.value];
      } else {
        LeaveUncoloured(adjacency, c, stack, i, physReg, spilled, colors);
        spilled := spilled + {id};
      }
    }

    /** The first colour that no neighbour has; t5 is taken for a variable that is live across a call. */
    method FirstFree(id: nat, colors: seq<nat>) returns (color: Option<nat>)
      ensures color == FirstNot(colors, Taken(adjacency, Looks(), id, physReg))
      ensures color.Some? ==>
          color.value in colors && color.value !in Image(Neighbours(adjacency, id), physReg) &&
          (id in callCrossing ==> color.value != T5)
      ensures color.None? ==> forall j :: 0 <= j < |colors| ==>
          colors[j] in Image(Neighbours(adjacency, id), physReg) || (id in callCrossing && colors[j] == T5)
    {
      var neighbourColors: set<nat> := {};
      var rest := Neighbours(adjacency, id);
      while rest != {}
        invariant rest <= Neighbours(adjacency, id) &&
            neighbourColors == Image(Neighbours(adjacency, id) - rest, physReg)
        decreases |rest|
      {
        var n :| n in rest;
        ImageAdd(Neighbours(adjacency, id) - rest, physReg, n);
        assert Neighbours(adjacency, id) - (rest - {n}) == Neighbours(adjacency, id) - rest + {n};
        if n in physReg {
          neighbourColors := neighbourColors + {physReg[n]};
        }
        rest := rest - {n};
      }
      assert Neighbours(adjacency, id) - {} == Neighbours(adjacency, id);
      ghost var taken := neighbourColors;
      if id in callCrossing {
        neighbourColors := neighbourColors + {T5};
      }
      assert neighbourColors == Taken(adjacency, Looks(), id, physReg);
      assert colors[0..] == colors;
      for j := 0 to |colors|
        invariant forall i :: 0 <= i < j ==> colors[i] in neighbourColors
        invariant FirstNot(colors, neighbourColors) == FirstNot(colors[j..], neighbourColors)
      {
        assert colors[j..][1..] == colors[j + 1..];
        if colors[j] !in neighbourColors {
          return Some(colors[j]);
        }
      }
      color := None;
    }

    /** Merged nodes take the register of the node they were merged into, in any order. */
    method Propagate(ghost a0: Adjacency, ghost c: Fixed, ghost rep: map<nat, nat>)
      requires Represents(a0, c, Merging(adjacency, coalesced), rep) && ProperRegs(adjacency, physReg) &&
          Carried(rep, physReg)
      modifies `physReg
      ensures ProperRegs(adjacency, physReg) && Carried(rep, physReg)
      ensures forall x :: x in coalesced && coalesced[x] in adjacency && coalesced[x] in physReg ==> x in physReg
      ensures forall x :: x !in coalesced ==>
          (x in physReg <==> x in old(physReg)) &&
          (x in physReg ==> physReg[x] == old(physReg)[x])
    {
      hide ProperRegs, Carried, Represents;
      var rest := coalesced.Keys;
      while rest != {}
        invariant rest <= coalesced.Keys && ProperRegs(adjacency, physReg) && Carried(rep, physReg)
        invariant forall x :: x in coalesced && x !in rest && coalesced[x] in adjacency && coalesced[x] in physReg ==>
            x in physReg
        invariant forall x :: x !in coalesced ==>
            (x in physReg <==> x in old(physReg)) &&
            (x in physReg ==> physReg[x] == old(physReg)[x])
        decreases |rest|
      {
        var src :| src in rest;
        var dst := coalesced[src];
        MergedInto(a0, c, Merging(adjacency, coalesced), rep, src);
        if dst in physReg {
          CarryOne(adjacency, rep, physReg, src, dst);
          physReg := physReg[src := physReg[dst]];
        }
        rest := rest - {src};
      }
    }

    /** Returns the nodes without a register; `a0` is the graph before coalescing. */
    method Color(k: nat, colors: seq<nat>, ghost a0: Adjacency, ghost rep: map<nat, nat>)
        returns (spilled: set<nat>, ghost order: seq<nat>, ghost chosen: set<nat>)
      requires Valid() && precolored.Keys <= a0.Keys && Represents(a0, Looks(), Merging(adjacency, coalesced), rep)
      modifies `physReg
      // Adjacent variables of the original graph have different registers.
      ensures ProperRegs(a0, physReg) && Carried(rep, physReg)
      // Precoloured nodes keep their register; the other nodes of the coalesced graph have one of the colours or are
      // spilled.
      ensures forall x :: x in precolored && x in adjacency ==> x in physReg && physReg[x] == precolored[x]
      ensures forall x :: x in adjacency && x !in precolored ==> (x in physReg <==> x !in spilled)
      ensures forall x :: x in adjacency && x !in precolored && x in physReg ==>
          physReg[x] in colors &&
          (x in callCrossing ==> physReg[x] != T5)
      // So does every variable whose representative is live across a call; a node merged into a coloured one is
      // coloured.
      ensures forall x :: x in rep && x in physReg && rep[x] in callCrossing && rep[x] !in precolored ==>
          physReg[x] != T5
      ensures forall x :: x in coalesced && coalesced[x] in adjacency && coalesced[x] in physReg ==> x in physReg
      // The nodes were removed with few neighbours left or chosen for spilling, the initially low ones first, and
      // chose in reverse order.
      ensures Stacked(adjacency, k, adjacency.Keys - precolored.Keys, {}, order, chosen)
      ensures LowFirst(LowNodes(adjacency, precolored.Keys, k), order)
      ensures CheapestChosen(useCount, defCount, adjacency, precolored.Keys, order, chosen, {})
      ensures forall x :: x !in coalesced ==>
          (x in physReg <==> x in SelectAll(adjacency, old(Looks()), order, chosen, colors))
      ensures forall x :: x !in coalesced && x in physReg ==>
          physReg[x] == SelectAll(adjacency, old(Looks()), order, chosen, colors)[x]
      // Only nodes with `k` or more neighbours left at their removal are spilled, if nothing else restricts the
      // colours.
      ensures Elems(order) == adjacency.Keys - precolored.Keys
      ensures Unrestricted(k, old(Looks()), adjacency.Keys - precolored.Keys, colors) ==>
        forall i :: 0 <= i < |order| ==> (order[i] in spilled <==> |Remaining(adjacency, order, i, {})| >= k)
    {
      hide Stacked, Selected, Simple, ProperRegs, Carried, Represents, Remaining, SelectAll, LowFirst, LowNodes,
        CheapestChosen;
      var picked, stack;
      ghost var c := Looks();
      stack, picked := Simplify(k);
      order, chosen := stack, picked;
      spilled := Select(k, stack, picked, colors);
      SelectedFacts(adjacency, c, k, stack, chosen, physReg, spilled, colors);
      assert Carried(rep, physReg) by {
        UnmergedCarried(a0, c, Merging(adjacency, coalesced), rep, physReg);
      }
      RepresentsFacts(a0, c, Merging(adjacency, coalesced), rep);
      Propagate(a0, c, rep);
      CarriedIsProper(a0, adjacency, rep, physReg);
      forall x | x in rep && x in physReg && rep[x] in callCrossing && rep[x] !in precolored
        ensures physReg[x] != T5
      {
        CarriedAt(rep, physReg, x);
        RepInGraph(a0, c, Merging(adjacency, coalesced), rep, x);
      }
    }
  }

  lemma CarriedAt(rep: map<nat, nat>, phys: map<nat, nat>, x: nat)
    requires Carried(rep, phys) && x in phys
    ensures SameColour(rep, phys, x)
  {
  }

  lemma RepInGraph(a0: Adjacency, c: Fixed, m: Merging, rep: map<nat, nat>, x: nat)
    requires Represents(a0, c, m, rep) && x in a0
    ensures x in rep && rep[x] in m.adj
  {
  }

  // ---- Variables live across calls and t5 ----

  /** Every variable that is live across a call is represented by one that is, or by a precoloured one. */
  predicate Guarded(c: Fixed, rep: map<nat, nat>) {
    forall x :: x in c.callCrossing && x in rep ==> rep[x] in c.callCrossing || rep[x] in c.precolored
  }

  /** No variable that is live across a call shares t5 with its representative. */
  ghost predicate OutOfT5(c: Fixed, rep: map<nat, nat>, phys: map<nat, nat>) {
    forall x :: x in c.callCrossing && x in rep && rep[x] in phys ==> phys[rep[x]] != T5
  }

  /** A result of simplifying `m`, for some pool of `k` different colours. */
  ghost predicate Colouring(c: Fixed, k: nat, m: Merging, stack: seq<nat>, chosen: set<nat>, colors: seq<nat>) {
    Stacked(m.adj, k, m.adj.Keys - c.precolored.Keys, {}, stack, chosen) && |colors| == k && DistinctColours(colors)
  }

  /** Whatever the pool and the order, t5 is kept from the variables that are live across calls. */
  ghost predicate NeverInT5(c: Fixed, k: nat, m: Merging, rep: map<nat, nat>) {
    forall stack, chosen, colors :: Colouring(c, k, m, stack, chosen, colors) ==>
        OutOfT5(c, rep, SelectAll(m.adj, c, stack, chosen, colors))
  }

  lemma {:induction false} SelectKeeps(a: Adjacency, c: Fixed, stack: seq<nat>, chosen: set<nat>, colors: seq<nat>,
      x: nat)
    ensures x !in stack ==> var phys := SelectAll(a, c, stack, chosen, colors);
        (x in phys <==> x in c.physReg) &&
        (x in phys ==> phys[x] == c.physReg[x])
    ensures x in c.callCrossing && x !in c.physReg && x in SelectAll(a, c, stack, chosen, colors) ==>
        SelectAll(a, c, stack, chosen, colors)[x] != T5
  {
    if stack != [] {
      SelectKeeps(a, c, stack[1..], chosen, colors, x);
      assert stack == [stack[0]] + stack[1..];
    }
  }

  /** A node that is neither precoloured nor live across calls gets t5 when it chooses first and t5 is the first
   * colour. */
  lemma {:induction false} FirstGetsT5(a: Adjacency, c: Fixed, stack: seq<nat>, chosen: set<nat>, colors: seq<nat>,
      r: nat)
    requires stack != [] && stack[|stack| - 1] == r && forall i :: 0 <= i < |stack| - 1 ==> stack[i] != r
    requires r !in chosen && r !in c.callCrossing && colors != [] && colors[0] == T5
    requires forall x :: x in c.physReg ==> c.physReg[x] != T5
    ensures r in SelectAll(a, c, stack, chosen, colors) && SelectAll(a, c, stack, chosen, colors)[r] == T5
  {
    if |stack| == 1 {
      assert stack[1..] == [] && SelectAll(a, c, [], chosen, colors) == c.physReg;
      assert T5 !in Taken(a, c, r, c.physReg);
    } else {
      FirstGetsT5(a, c, stack[1..], chosen, colors, r);
    }
  }

  lemma ElemsCons(x: nat, s: seq<nat>)
    ensures Elems([x] + s) == {x} + Elems(s)
  {
    assert ([x] + s)[0] == x && forall i :: 0 <= i < |s| ==> ([x] + s)[i + 1] == s[i];
  }

  /** The nodes in some order with `r` last. */
  lemma {:induction false} OrderEnding(nodes: set<nat>, r: nat) returns (stack: seq<nat>)
    requires r in nodes
    ensures Elems(stack) == nodes && stack != [] && stack[|stack| - 1] == r
    ensures forall i, j :: 0 <= i < j < |stack| ==> stack[i] != stack[j]
    decreases |nodes|
  {
    hide Elems;
    ElemsCons(r, []);
    NoElems();
    if nodes - {r} == {} {
      stack := [r];
      assert [r] + [] == [r] && nodes == {r};
    } else {
      var x :| x in nodes - {r};
      var rest := OrderEnding(nodes - {x}, r);
      stack := [x] + rest;
      ElemsCons(x, rest);
      forall i | 0 <= i < |rest|
        ensures rest[i] != x
      {
        ElemsAt(rest, i);
      }
    }
  }

  ghost function Crowded(a: Adjacency, k: nat, stack: seq<nat>): set<nat> {
    set i | 0 <= i < |stack| && |Remaining(a, stack, i, {})| >= k :: stack[i]
  }

  lemma CrowdedStacked(a: Adjacency, k: nat, stack: seq<nat>)
    requires 0 < k && stack != [] && forall i, j :: 0 <= i < j < |stack| ==> stack[i] != stack[j]
    ensures Stacked(a, k, Elems(stack), {}, stack, Crowded(a, k, stack)) && stack[|stack| - 1] !in Crowded(a, k, stack)
  {
    hide Remaining;
    assert Elems(stack) + {} == Elems(stack);
    forall x | x in Crowded(a, k, stack)
      ensures x in Elems(stack)
    {
    }
    var n := |stack| - 1;
    LastRemaining(a, stack);
    assert |Remaining(a, stack, n, {})| == 0;
  }

  lemma LastRemaining(a: Adjacency, stack: seq<nat>)
    requires stack != []
    ensures Remaining(a, stack, |stack| - 1, {}) == {}
  {
    assert stack[|stack|..] == [];
    assert Elems([]) == {};
  }

  /** A pool with t5 in front. */
  function T5Pool(k: nat): (r: seq<nat>)
    ensures |r| == k && DistinctColours(r) && (k > 0 ==> r[0] == T5)
  {
    seq(k, i requires 0 <= i < k => T5 + i)
  }

  /** The condition on the merged nodes is exact: t5 is safe for every pool and order just when they are guarded. */
  lemma T5Exactly(a0: Adjacency, c: Fixed, k: nat, m: Merging, rep: map<nat, nat>)
    requires 0 < k && Represents(a0, c, m, rep) && c.physReg == c.precolored && forall x :: x in c.precolored ==>
        c.precolored[x] != T5
    ensures NeverInT5(c, k, m, rep) <==> Guarded(c, rep)
  {
    hide Simple, EdgesKept, Stacked, Represents;
    if Guarded(c, rep) {
      forall stack, chosen, colors | Colouring(c, k, m, stack, chosen, colors)
        ensures OutOfT5(c, rep, SelectAll(m.adj, c, stack, chosen, colors))
      {
        GuardedKeepsOut(c, k, m, rep, stack, chosen, colors);
      }
    } else {
      var x :| x in c.callCrossing && x in rep && !(rep[x] in c.callCrossing || rep[x] in c.precolored);
      UnguardedFails(a0, c, k, m, rep, x);
    }
  }

  lemma GuardedKeepsOut(c: Fixed, k: nat, m: Merging, rep: map<nat, nat>, stack: seq<nat>, chosen: set<nat>,
      colors: seq<nat>)
    requires Guarded(c, rep) && c.physReg == c.precolored && (forall x :: x in c.precolored ==> c.precolored[x] != T5)
    requires Colouring(c, k, m, stack, chosen, colors)
    ensures OutOfT5(c, rep, SelectAll(m.adj, c, stack, chosen, colors))
  {
    hide SelectAll, Stacked;
    StackFacts(m.adj, k, m.adj.Keys - c.precolored.Keys, stack, chosen);
    forall x | x in c.callCrossing && x in rep && rep[x] in SelectAll(m.adj, c, stack, chosen, colors)
      ensures SelectAll(m.adj, c, stack, chosen, colors)[rep[x]] != T5
    {
      SelectKeeps(m.adj, c, stack, chosen, colors, rep[x]);
      if rep[x] in c.precolored {
        assert rep[x] !in Elems(stack);
      }
    }
  }

  lemma UnguardedFails(a0: Adjacency, c: Fixed, k: nat, m: Merging, rep: map<nat, nat>, x: nat)
    requires 0 < k && Represents(a0, c, m, rep) && c.physReg == c.precolored && forall y :: y in c.precolored ==>
        c.precolored[y] != T5
    requires x in c.callCrossing && x in rep && rep[x] !in c.callCrossing && rep[x] !in c.precolored
    ensures !NeverInT5(c, k, m, rep)
  {
    hide Simple, EdgesKept, Stacked, SelectAll, Crowded;
    var r := rep[x];
    var stack := OrderEnding(m.adj.Keys - c.precolored.Keys, r);
    var chosen := Crowded(m.adj, k, stack);
    CrowdedStacked(m.adj, k, stack);
    assert Colouring(c, k, m, stack, chosen, T5Pool(k));
    FirstGetsT5(m.adj, c, stack, chosen, T5Pool(k), r);
  }

  // ---- Pools with t5 in the last place ----

  /** The pool of functions with calls offers t5 after all other registers. */
  predicate T5Last(colors: seq<nat>) {
    colors != [] && colors[|colors| - 1] == T5 && DistinctColours(colors)
  }

  lemma {:induction false} FirstNotLast(colors: seq<nat>, used: set<nat>)
    requires T5Last(colors)
    ensures FirstNot(colors, used) == Some(T5) <==>
        T5 !in used && forall j :: 0 <= j < |colors| - 1 ==> colors[j] in used
  {
    if |colors| > 1 {
      FirstNotLast(colors[1..], used);
      assert forall j :: 0 < j < |colors| - 1 ==> colors[j] == colors[1..][j - 1];
      assert colors[0] != colors[|colors| - 1];
      assert forall j :: 0 <= j < |colors[1..]| - 1 ==> colors[1..][j] == colors[j + 1];
    } else {
      assert colors[1..] == [];
    }
  }

  /** When it is last in the pool, a node gets t5 just when it is not to be spilled and its neighbours have all the
   * other registers at its turn. */
  lemma {:induction false} LastResort(a: Adjacency, c: Fixed, stack: seq<nat>, chosen: set<nat>, colors: seq<nat>,
      i: nat)
    requires T5Last(colors) && i < |stack| && forall m, n :: 0 <= m < n < |stack| ==> stack[m] != stack[n]
    requires stack[i] !in c.callCrossing && stack[i] !in c.physReg
    ensures var taken := Image(Neighbours(a, stack[i]), SelectAll(a, c, stack[i + 1..], chosen, colors));
      var phys := SelectAll(a, c, stack, chosen, colors);
      (stack[i] in phys && phys[stack[i]] == T5) <==>
        stack[i] !in chosen && T5 !in taken && forall j :: 0 <= j < |colors| - 1 ==> colors[j] in taken
  {
    hide FirstNot, Image;
    var rest := stack[1..];
    if i == 0 {
      SelectKeeps(a, c, rest, chosen, colors, stack[0]);
      assert stack[0] !in rest;
      FirstNotLast(colors, Taken(a, c, stack[0], SelectAll(a, c, rest, chosen, colors)));
    } else {
      assert forall n :: 0 <= n < |rest| ==> rest[n] == stack[n + 1];
      LastResort(a, c, rest, chosen, colors, i - 1);
      assert rest[i..] == stack[i + 1..];
    }
  }

  /** The pool has no t5, or more registers before it than the node has neighbours. */
  predicate SpareColour(a: Adjacency, colors: seq<nat>, r: nat) {
    T5 !in colors || (T5Last(colors) && |Neighbours(a, r)| + 1 < |colors|)
  }

  /** Every variable that is live across a call is represented by one that is, by a precoloured one, or by one that
   * always finds another register. */
  predicate Spared(c: Fixed, a: Adjacency, colors: seq<nat>, rep: map<nat, nat>) {
    forall x :: x in c.callCrossing && x in rep ==>
      rep[x] in c.callCrossing || rep[x] in c.precolored || SpareColour(a, colors, rep[x])
  }

  lemma {:induction false} SpareNotT5(a: Adjacency, c: Fixed, stack: seq<nat>, chosen: set<nat>, colors: seq<nat>,
      r: nat)
    requires SpareColour(a, colors, r) && r !in c.physReg
    ensures r in SelectAll(a, c, stack, chosen, colors) ==> SelectAll(a, c, stack, chosen, colors)[r] != T5
  {
    hide FirstNot, SpareColour, Taken;
    if stack != [] {
      var phys := SelectAll(a, c, stack[1..], chosen, colors);
      SpareNotT5(a, c, stack[1..], chosen, colors, r);
      if r == stack[0] {
        SpareFound(a, c, colors, r, phys);
      }
    }
  }

  lemma SpareFound(a: Adjacency, c: Fixed, colors: seq<nat>, r: nat, phys: map<nat, nat>)
    requires SpareColour(a, colors, r)
    ensures FirstNot(colors, Taken(a, c, r, phys)) != Some(T5)
  {
    var used, near := Taken(a, c, r, phys), Image(Neighbours(a, r), phys);
    if T5 in colors {
      FirstNotLast(colors, used);
      ImageSize(Neighbours(a, r), phys);
      var early := colors[..|colors| - 1];
      SomeColourFree(early, near);
      var j :| 0 <= j < |early| && early[j] !in near;
      assert early[j] == colors[j] && colors[j] != T5;
    }
  }

  lemma RepresentsFacts(a0: Adjacency, c: Fixed, m: Merging, rep: map<nat, nat>)
    requires Represents(a0, c, m, rep)
    ensures Simple(m.adj) && EdgesKept(a0, m.adj, rep) && m.adj.Keys !! m.merged.Keys && rep.Keys == a0.Keys
  {
  }

  lemma MergedInto(a0: Adjacency, c: Fixed, m: Merging, rep: map<nat, nat>, src: nat)
    requires Represents(a0, c, m, rep) && src in m.merged
    ensures src !in m.adj && SameRep(rep, src, m.merged[src]) && rep[src] in m.adj && Simple(m.adj)
  {
  }

  lemma ImageAdd(s: set<nat>, f: map<nat, nat>, n: nat)
    ensures Image(s + {n}, f) == Image(s, f) + if n in f then {f[n]} else {}
  {
  }

  lemma StackFacts(a: Adjacency, k: nat, nodes: set<nat>, stack: seq<nat>, chosen: set<nat>)
    requires Stacked(a, k, nodes, {}, stack, chosen)
    ensures chosen <= Elems(stack) && Elems(stack) == nodes
    ensures forall i :: 0 <= i < |stack| ==> stack[i] in nodes && stack[i] !in Elems(stack[i + 1..])
    ensures forall i :: 0 <= i < |stack| ==> (stack[i] in chosen <==> |Remaining(a, stack, i, {})| >= k)
  {
    hide Remaining;
    assert Elems(stack) + {} == Elems(stack);
    forall i | 0 <= i < |stack|
      ensures stack[i] in Elems(stack) && stack[i] !in Elems(stack[i + 1..])
    {
    }
  }

  ghost predicate SpilledSoFar(stack: seq<nat>, i: nat, chosen: set<nat>, spilled: set<nat>) {
    i <= |stack| && chosen <= spilled <= chosen + Elems(stack[i..]) && chosen <= Elems(stack)
  }

  lemma SpilledAtEnd(stack: seq<nat>, chosen: set<nat>, spilled: set<nat>)
    requires SpilledSoFar(stack, 0, chosen, spilled)
    ensures chosen <= spilled <= Elems(stack)
  {
    assert stack[0..] == stack;
  }

  lemma OnlyChosen(a: Adjacency, k: nat, nodes: set<nat>, stack: seq<nat>, chosen: set<nat>)
    requires Stacked(a, k, nodes, {}, stack, chosen)
    ensures SpilledSoFar(stack, |stack|, chosen, chosen)
  {
  }

  lemma NextOnStack(a: Adjacency, k: nat, nodes: set<nat>, stack: seq<nat>, chosen: set<nat>, i: nat, spilled: set<nat>)
    requires Stacked(a, k, nodes, {}, stack, chosen) && 0 < i && SpilledSoFar(stack, i, chosen, spilled)
    ensures stack[i - 1] in nodes && stack[i - 1] !in Elems(stack[i..]) &&
        (stack[i - 1] in spilled <==> stack[i - 1] in chosen)
  {
    StackFacts(a, k, nodes, stack, chosen);
    assert stack[i - 1 + 1..] == stack[i..];
  }

  lemma SpilledNext(stack: seq<nat>, i: nat, chosen: set<nat>, before: set<nat>, spilled: set<nat>)
    requires 0 < i && SpilledSoFar(stack, i, chosen, before) && before <= spilled <= before + {stack[i - 1]}
    ensures SpilledSoFar(stack, i - 1, chosen, spilled)
  {
    assert stack[i - 1..] == [stack[i - 1]] + stack[i..];
    assert Elems(stack[i - 1..]) == Elems(stack[i..]) + {stack[i - 1]};
  }

  lemma NothingSelected(a: Adjacency, c: Fixed, stack: seq<nat>, spilled: set<nat>, colors: seq<nat>)
    requires c.physReg == c.precolored && Injective(c.precolored) && Simple(a)
    ensures Selected(a, c, stack, |stack|, c.physReg, spilled, colors)
  {
    assert Elems(stack[|stack|..]) == {};
  }

  lemma SelectedFacts(a: Adjacency, c: Fixed, k: nat, stack: seq<nat>, chosen: set<nat>, phys: map<nat, nat>,
      spilled: set<nat>, colors: seq<nat>)
    requires Selected(a, c, stack, 0, phys, spilled, colors) &&
        Stacked(a, k, a.Keys - c.precolored.Keys, {}, stack, chosen)
    ensures ProperRegs(a, phys) && Elems(stack) == a.Keys - c.precolored.Keys
    ensures phys.Keys == c.precolored.Keys + (a.Keys - c.precolored.Keys - spilled)
    ensures forall x :: x in c.precolored ==> x in phys && phys[x] == c.precolored[x]
    ensures forall x :: x in phys && x !in c.precolored ==> phys[x] in colors && (x in c.callCrossing ==> phys[x] != T5)
    ensures forall i :: 0 <= i < |stack| ==> (stack[i] in chosen <==> |Remaining(a, stack, i, {})| >= k)
  {
    hide ProperRegs, Remaining;
    assert stack[0..] == stack;
    StackFacts(a, k, a.Keys - c.precolored.Keys, stack, chosen);
  }

  lemma NotEmpty(active: set<nat>, s: seq<nat>)
    requires active != {} && active <= Elems(s)
    ensures s != []
  {
    var x :| x in active;
    assert x in s;
  }

  ghost predicate Stripped(a: Adjacency, done: set<nat>, work: Adjacency) {
    work.Keys == a.Keys && forall x :: x in a ==> work[x] == if x in done then {} else a[x] - done
  }

  lemma StrippedFacts(a: Adjacency, done: set<nat>, work: Adjacency, id: nat, n: nat)
    requires Simple(a) && Stripped(a, done, work) && id in work && n in work[id]
    ensures n in work
  {
  }

  lemma NothingStripped(a: Adjacency)
    ensures Stripped(a, {}, a)
  {
  }

  lemma StripMissing(a: Adjacency, done: set<nat>, work: Adjacency, id: nat)
    requires Stripped(a, done, work) && Simple(a) && id !in work
    ensures Stripped(a, done + {id}, work)
  {
    forall x | x in a
      ensures a[x] - done == a[x] - (done + {id})
    {
    }
  }

  lemma DroppedIsStripped(a: Adjacency, done: set<nat>, work0: Adjacency, id: nat, work: Adjacency)
    requires Simple(a) && Stripped(a, done, work0) && id in work0 && id !in done && Dropping(work0, id, work0[id], work)
    ensures Stripped(a, done + {id}, work[id := {}])
  {
    forall x | x in a && x != id
      ensures work[x] == if x in done then {} else a[x] - (done + {id})
    {
      assert id in a[x] <==> x in a[id];
    }
  }

  lemma StrippedWorks(a: Adjacency, done: set<nat>, work: Adjacency)
    requires Simple(a) && Stripped(a, done, work)
    ensures Working(a, a.Keys - done, work)
  {
    forall x | x in a.Keys - done
      ensures work[x] == a[x] * (a.Keys - done)
    {
    }
  }

  lemma WorkingEdge(a: Adjacency, active: set<nat>, work: Adjacency, id: nat, n: nat)
    requires Simple(a) && Working(a, active, work) && id in active && id in work && n in work[id]
    ensures n in work && id in work[n]
  {
  }

  lemma DroppedWorks(a: Adjacency, active: set<nat>, work0: Adjacency, id: nat, work: Adjacency, k: nat,
      worklist: seq<nat>)
    requires Simple(a) && Working(a, active, work0) && id in active && id in work0 &&
        Dropping(work0, id, work0[id], work) && LowQueued(k, active - {id}, work, worklist)
    ensures Working(a, active - {id}, work - {id}) && LowQueued(k, active - {id}, work - {id}, worklist)
  {
    forall x | x in active - {id}
      ensures x in work && work[x] == a[x] * (active - {id})
    {
      assert id in a[x] <==> x in a[id];
    }
  }

  lemma NothingStacked(a: Adjacency, k: nat, nodes: set<nat>)
    ensures Stacked(a, k, nodes, nodes, [], {})
  {
  }

  lemma PopLow(k: nat, active: set<nat>, work: Adjacency, worklist: seq<nat>)
    requires worklist != [] && LowQueued(k, active, work, worklist)
    ensures worklist[0] in active && worklist[0] in work ==> |work[worklist[0]]| < k
    ensures LowQueued(k, active - {worklist[0]}, work, worklist[1..])
    ensures worklist[0] !in active ==> LowQueued(k, active, work, worklist[1..])
  {
    assert worklist == [worklist[0]] + worklist[1..];
  }

  lemma NoneLow(k: nat, active: set<nat>, work: Adjacency, id: nat)
    requires LowQueued(k, active, work, []) && id in active && id in work
    ensures |work[id]| >= k && LowQueued(k, active - {id}, work, [])
  {
  }

  lemma OrientKeepsEnds(c: Fixed, x: nat, y: nat)
    requires c.precolored.Keys <= c.physReg.Keys && x != y
    ensures Orient(c, x, y).Some? ==> Orient(c, x, y).value.0 != Orient(c, x, y).value.1
  {
  }

  lemma NoCountsYet(c: Fixed, k: nat, a: Adjacency, counts: map<nat, nat>)
    requires c.precolored.Keys <= c.physReg.Keys
    ensures CountsAll(c, k, a, [], counts) == counts
    ensures CoalesceAll(c, k, Merging(a, map[]), []) == Merging(a, map[])
  {
  }

  lemma OneMoreCount(c: Fixed, k: nat, a0: Adjacency, moves: seq<(nat, nat)>, i: nat, counts: map<nat, nat>)
    requires c.precolored.Keys <= c.physReg.Keys && i < |moves|
    ensures CountsAll(c, k, a0, moves[..i + 1], counts) ==
        CountsOne(c, k, CoalesceAll(c, k, Merging(a0, map[]), moves[..i]), moves[i],
          CountsAll(c, k, a0, moves[..i], counts))
  {
    assert moves[..i + 1][..i] == moves[..i];
  }

  lemma OneMoreMove(c: Fixed, k: nat, m: Merging, moves: seq<(nat, nat)>, i: nat)
    requires c.precolored.Keys <= c.physReg.Keys && i < |moves|
    ensures CoalesceAll(c, k, m, moves[..i + 1]) == CoalesceOne(c, k, CoalesceAll(c, k, m, moves[..i]), moves[i])
  {
    assert moves[..i + 1][..i] == moves[..i];
  }

  lemma StillValid(a0: Adjacency, c: Fixed, m: Merging, rep: map<nat, nat>)
    requires Represents(a0, c, m, rep) && c.precolored.Keys <= a0.Keys
    ensures Simple(m.adj) && c.precolored.Keys <= m.adj.Keys + m.merged.Keys
  {
  }
}
