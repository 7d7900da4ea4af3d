/** A variable that is live across a call ends up in t5: coalescing does not extend the set of call-crossing
 * variables. */
module CallCrossing {
  import opened Graphs
  import opened IR
  import opened PhiElimination
  import opened InterferenceGraphs
  import opened RegisterAllocation

  /** s1 to s11, a0 to a7, and t5: the pool of functions with calls. */
  function ColorPool(): seq<nat> {
    [9, 18, 19, 20, 21, 22, 23, 24, 25, 26, 27, 10, 11, 12, 13, 14, 15, 16, 17, T5]
  }

  lemma PoolFacts()
    ensures |ColorPool()| == 20 && DistinctColours(ColorPool()) && T5 in ColorPool()
  {
  }

  // ---- The graph: nineteen mutually adjacent nodes, each adjacent to three more ----

  /** Everything but `y`, and `ends`. */
  function Others(ys: set<nat>, y: nat, ends: set<nat>): set<nat> {
    ys - {y} + ends
  }

  ghost predicate Knot(g: Adjacency, ys: set<nat>, z: nat, x: nat, r: nat) {
    && |ys| == 19 && z !in ys && x !in ys && r !in ys && z != x && z != r && x != r
    && g.Keys == ys + {z, x, r} && g[x] == g[r] == g[z] == ys
    && forall y :: y in ys ==> g[y] == Others(ys, y, {z, x, r})
  }

  /** The graph once `x` has been merged into `r`. */
  ghost predicate Tied(g: Adjacency, ys: set<nat>, z: nat, r: nat) {
    && |ys| == 19 && z !in ys && r !in ys && z != r
    && g.Keys == ys + {z, r} && g[r] == g[z] == ys
    && forall y :: y in ys ==> g[y] == Others(ys, y, {z, r})
  }

  /** A single move that may be merged. */
  lemma OneMove(c: Fixed, k: nat, g: Adjacency, x: nat, r: nat)
    requires c.precolored == c.physReg == map[] && x in g && r in g && x != r && r !in g[x] &&
        |g[x] + g[r] - {x} - {r}| < k
    ensures CoalesceAll(c, k, Merging(g, map[]), [(x, r)]) == Merging(Merge(g, x, r), map[x := r])
    ensures var rep := RepAll(c, k, g, [(x, r)]); x in rep && rep[x] == r && rep.Keys == g.Keys
  {
    hide Merge;
    var moves, m := [(x, r)], Merging(g, map[]);
    assert moves[..0] == [] && moves[0] == (x, r);
    assert CoalesceAll(c, k, m, moves[..0]) == m;
    assert Mergeable(m, k, x, r);
  }

  lemma KnotMerges(g: Adjacency, ys: set<nat>, z: nat, x: nat, r: nat, c: Fixed)
    requires Knot(g, ys, z, x, r) && c.precolored == c.physReg == map[]
    ensures var m := CoalesceAll(c, 20, Merging(g, map[]), [(x, r)]); m.merged == map[x := r] && Tied(m.adj, ys, z, r)
    ensures var rep := RepAll(c, 20, g, [(x, r)]); x in rep && rep[x] == r
  {
    hide Merge, CoalesceAll, RepAll, Tied;
    assert g[x] + g[r] - {x} - {r} == ys;
    OneMove(c, 20, g, x, r);
    KnotTied(g, ys, z, x, r);
  }

  lemma KnotTied(g: Adjacency, ys: set<nat>, z: nat, x: nat, r: nat)
    requires Knot(g, ys, z, x, r)
    ensures Tied(Merge(g, x, r), ys, z, r)
  {
    hide Merge, Others;
    var b := Merge(g, x, r);
    MergedEnds(g, ys, z, x, r);
    forall y | y in ys
      ensures y in b && b[y] == Others(ys, y, {z, r})
    {
      MergedY(g, x, r, y, ys, z);
    }
  }

  lemma MergedEnds(g: Adjacency, ys: set<nat>, z: nat, x: nat, r: nat)
    requires x in g && r in g && z in g && g[x] == g[r] == g[z] == ys && x !in ys && r !in ys && z != x && z != r &&
        x != r
    requires g.Keys == ys + {z, x, r} && z !in ys
    ensures var b := Merge(g, x, r); b.Keys == ys + {z, r} && b[r] == b[z] == ys
  {
    var b := Merge(g, x, r);
    assert b.Keys == g.Keys - {x};
    assert ys - {x} + (ys - {r}) == ys;
  }

  lemma MergedY(g: Adjacency, x: nat, r: nat, y: nat, ys: set<nat>, z: nat)
    requires x in g && r in g && y in g && y != x && y != r && x !in ys && x != z && x != r &&
        g[y] == Others(ys, y, {z, x, r})
    ensures y in Merge(g, x, r) && Merge(g, x, r)[y] == Others(ys, y, {z, r})
  {
    assert x in g[y] && Merge(g, x, r)[y] == g[y] - {x} + {r};
    assert g[y] - {x} + {r} == Others(ys, y, {z, r});
  }

  lemma TiedY(g: Adjacency, ys: set<nat>, z: nat, r: nat, y: nat)
    requires Tied(g, ys, z, r) && y in ys
    ensures y in g && g[y] == ys - {y} + {z, r} && |ys - {y}| == 18 && |g[y]| == 20
  {
    TwoMore(ys - {y}, z, r);
  }

  lemma TwoMore(s: set<nat>, z: nat, r: nat)
    requires z !in s && r !in s && z != r
    ensures |s + {z, r}| == |s| + 2
  {
    assert s + {z, r} == s + {z} + {r};
  }

  lemma TiedEnds(g: Adjacency, ys: set<nat>, z: nat, r: nat)
    requires Tied(g, ys, z, r)
    ensures |ys| == 19 && g.Keys == ys + {z, r} && g[r] == g[z] == ys && z !in ys && r !in ys && z != r
  {
  }

  lemma TiedClosed(g: Adjacency, ys: set<nat>, z: nat, r: nat, n: nat)
    requires Tied(g, ys, z, r) && n in g
    ensures g[n] <= g.Keys
  {
  }

  lemma TiedLow(g: Adjacency, ys: set<nat>, z: nat, r: nat)
    requires Tied(g, ys, z, r)
    ensures LowNodes(g, {}, 20) == {z, r}
  {
    hide Tied;
    TiedEnds(g, ys, z, r);
    forall n | n in g
      ensures |g[n] * (g.Keys - {})| < 20 <==> n == z || n == r
    {
      AllActive(g, ys, z, r, n);
      if n in ys {
        TiedY(g, ys, z, r, n);
      }
    }
  }

  lemma AllActive(g: Adjacency, ys: set<nat>, z: nat, r: nat, n: nat)
    requires Tied(g, ys, z, r) && n in g
    ensures g[n] * (g.Keys - {}) == g[n]
  {
    TiedClosed(g, ys, z, r, n);
    hide Tied;
  }

  /** Nothing is chosen for spilling: the two low nodes go first, and then few neighbours are left. */
  lemma NoneChosen(g: Adjacency, ys: set<nat>, z: nat, r: nat, order: seq<nat>, chosen: set<nat>)
    requires Tied(g, ys, z, r) && Stacked(g, 20, g.Keys, {}, order, chosen) && LowFirst({z, r}, order)
    ensures chosen == {}
  {
    hide Tied, LowFirst, Remaining, Stacked, Elems;
    TiedEnds(g, ys, z, r);
    StackFacts(g, 20, g.Keys, order, chosen);
    forall i | 0 <= i < |order|
      ensures order[i] !in chosen
    {
      FewRemain(g, ys, z, r, order, i);
    }
    ChosenNone(order, chosen);
  }

  lemma ChosenNone(order: seq<nat>, chosen: set<nat>)
    requires chosen <= Elems(order) && forall i :: 0 <= i < |order| ==> order[i] !in chosen
    ensures chosen == {}
  {
  }

  lemma FewRemain(g: Adjacency, ys: set<nat>, z: nat, r: nat, order: seq<nat>, i: nat)
    requires Tied(g, ys, z, r) && i < |order| && order[i] in g && LowFirst({z, r}, order)
    ensures |Remaining(g, order, i, {})| < 20
  {
    hide Tied, Remaining, LowFirst;
    TiedEnds(g, ys, z, r);
    if order[i] in ys {
      OnlyYs(g, ys, z, r, order, i);
      TiedY(g, ys, z, r, order[i]);
      SubsetBound(Remaining(g, order, i, {}), ys - {order[i]});
    } else {
      RemainingNeighbours(g, order, i);
      SubsetBound(Remaining(g, order, i, {}), ys);
    }
  }

  lemma RemainingNeighbours(g: Adjacency, order: seq<nat>, i: nat)
    requires i < |order| && order[i] in g
    ensures Remaining(g, order, i, {}) <= g[order[i]]
  {
  }

  lemma OnlyYs(g: Adjacency, ys: set<nat>, z: nat, r: nat, order: seq<nat>, i: nat)
    requires Tied(g, ys, z, r) && i < |order| && order[i] in ys && LowFirst({z, r}, order)
    ensures Remaining(g, order, i, {}) <= ys - {order[i]}
  {
    hide Tied, LowFirst, Remaining;
    TiedEnds(g, ys, z, r);
    TiedY(g, ys, z, r, order[i]);
    LaterNotLow(g, order, i, {z, r});
  }

  /** Once a node outside `low` is removed, no node of `low` is left. */
  lemma LaterNotLow(g: Adjacency, order: seq<nat>, i: nat, low: set<nat>)
    requires i < |order| && order[i] in g && order[i] !in low && LowFirst(low, order)
    ensures Remaining(g, order, i, {}) <= g[order[i]] - low
  {
    forall n | n in Remaining(g, order, i, {})
      ensures n in g[order[i]] && n !in low
    {
      var j :| 0 <= j < |order[i + 1..]| && order[i + 1..][j] == n;
      assert order[i + 1 + j] == n;
    }
  }

  // ---- The registers ----

  /** Nodes that are live across calls and all neighbours have different registers, none of them t5. */
  ghost predicate Spread(t: seq<nat>, phys: map<nat, nat>) {
    && phys.Keys == Elems(t) && (forall n :: n in phys ==> phys[n] in ColorPool() && phys[n] != T5) && Injective(phys)
  }

  lemma {:induction false} YsSpread(g: Adjacency, ys: set<nat>, z: nat, r: nat, c: Fixed, t: seq<nat>)
    requires Tied(g, ys, z, r) && c.physReg == map[] && ys <= c.callCrossing
    requires Elems(t) <= ys && forall i, j :: 0 <= i < j < |t| ==> t[i] != t[j]
    ensures Spread(t, SelectAll(g, c, t, {}, ColorPool()))
  {
    hide Tied, FirstNot, Taken, ColorPool, Elems;
    NoElems();
    if t == [] {
      NothingSpread(t, c.physReg);
    } else {
      var rest, y := t[1..], t[0];
      assert t == [y] + rest;
      ElemsCons(y, rest);
      assert forall i :: 0 <= i < |rest| ==> rest[i] == t[i + 1];
      YsSpread(g, ys, z, r, c, rest);
      NotAmong(t);
      hide Spread;
      SpreadMore(g, ys, z, r, c, rest, SelectAll(g, c, rest, {}, ColorPool()), y);
    }
  }

  lemma NothingSpread(t: seq<nat>, phys: map<nat, nat>)
    requires t == [] && phys == map[]
    ensures Spread(t, phys)
  {
  }

  lemma NotAmong(t: seq<nat>)
    requires t != [] && forall i, j :: 0 <= i < j < |t| ==> t[i] != t[j]
    ensures t[0] in Elems(t) && t[0] !in Elems(t[1..])
  {
  }

  /** The next one finds a colour: at most eighteen neighbours are coloured. */
  lemma SpreadMore(g: Adjacency, ys: set<nat>, z: nat, r: nat, c: Fixed, rest: seq<nat>, phys: map<nat, nat>, y: nat)
    requires Tied(g, ys, z, r) && ys <= c.callCrossing && y in ys && y !in Elems(rest) && Elems(rest) <= ys &&
        Spread(rest, phys)
    ensures var color := FirstNot(ColorPool(), Taken(g, c, y, phys));
        color.Some? && Spread([y] + rest, phys[y := color.value])
  {
    hide Tied, ColorPool, DistinctColours, Taken, FirstNot, Spread, Elems;
    PoolFacts();
    TiedY(g, ys, z, r, y);
    var used := Taken(g, c, y, phys);
    SpreadKeys(rest, phys);
    assert Elems(rest) <= ys - {y};
    TakenIs(g, c, y, phys);
    SubsetBound(Elems(rest), ys - {y});
    SomeColourFree(ColorPool(), used);
    var color := FirstNot(ColorPool(), used);
    SpreadOne(rest, phys, y, color.value, used);
  }

  lemma SpreadKeys(t: seq<nat>, phys: map<nat, nat>)
    requires Spread(t, phys)
    ensures phys.Keys == Elems(t)
  {
  }

  lemma SpreadOne(rest: seq<nat>, phys: map<nat, nat>, y: nat, color: nat, used: set<nat>)
    requires Spread(rest, phys) && y !in Elems(rest) && color in ColorPool() && color !in used && T5 in used &&
        Image(phys.Keys, phys) <= used
    ensures Spread([y] + rest, phys[y := color])
  {
    hide ColorPool;
    ElemsCons(y, rest);
    forall n | n in phys
      ensures phys[n] != color
    {
      assert phys[n] in Image(phys.Keys, phys);
    }
  }

  lemma TakenIs(g: Adjacency, c: Fixed, y: nat, phys: map<nat, nat>)
    requires y in g && phys.Keys <= g[y] && y in c.callCrossing
    ensures Taken(g, c, y, phys) == Image(phys.Keys, phys) + {T5} && |Taken(g, c, y, phys)| <= |phys.Keys| + 1
  {
    assert Image(g[y], phys) == Image(phys.Keys, phys);
    ImageSize(phys.Keys, phys);
  }

  /** All nineteen neighbours of `r` have registers of the pool other than t5: only t5 is left. */
  lemma OnlyT5Left(g: Adjacency, c: Fixed, ys: set<nat>, r: nat, phys: map<nat, nat>)
    requires r in g && g[r] == ys && |ys| == 19 && ys <= phys.Keys && r !in c.callCrossing
    requires (forall n :: n in ys ==> phys[n] in ColorPool() && phys[n] != T5) && forall n, o ::
        n in ys && o in ys &&
        n != o ==>
        phys[n] != phys[o]
    ensures FirstNot(ColorPool(), Taken(g, c, r, phys)) == Some(T5)
  {
    hide ColorPool, FirstNot, DistinctColours;
    PoolFacts();
    var used, pool := Taken(g, c, r, phys), PoolSet();
    assert used == Image(ys, phys);
    InjectiveImage(ys, phys);
    PoolSetSize();
    forall n | n in used
      ensures n in pool - {T5}
    {
    }
    assert |pool - {T5}| == 19;
    SameSize(used, pool - {T5});
    var color := FirstNot(ColorPool(), used);
    assert T5 !in used;
    var at :| 0 <= at < |ColorPool()| && ColorPool()[at] == T5;
    if color.Some? {
      InPool(color.value);
    }
  }

  function PoolSet(): set<nat> {
    set j | 0 <= j < |ColorPool()| :: ColorPool()[j]
  }

  lemma InPool(n: nat)
    ensures n in PoolSet() <==> n in ColorPool()
  {
    hide ColorPool;
  }

  lemma PoolSetSize()
    ensures |PoolSet()| == 20 && forall n :: n in PoolSet() <==> n in ColorPool()
  {
    hide ColorPool;
    PoolFacts();
    DistinctSize(ColorPool());
  }

  lemma {:induction false} DistinctSize(s: seq<nat>)
    requires DistinctColours(s)
    ensures |set j | 0 <= j < |s| :: s[j]| == |s|
  {
    if s != [] {
      var n := |s| - 1;
      DistinctSize(s[..n]);
      var all, less := set j | 0 <= j < |s| :: s[j], set j | 0 <= j < |s[..n]| :: s[..n][j];
      assert forall j :: 0 <= j < n ==> s[..n][j] == s[j];
      assert all == less + {s[n]};
      assert s[n] !in less;
    }
  }

  lemma {:induction false} InjectiveImage(s: set<nat>, f: map<nat, nat>)
    requires s <= f.Keys && forall n, o :: n in s && o in s && n != o ==> f[n] != f[o]
    ensures |Image(s, f)| == |s|
    decreases |s|
  {
    if s != {} {
      var x :| x in s;
      InjectiveImage(s - {x}, f);
      assert Image(s, f) == Image(s - {x}, f) + {f[x]};
      assert f[x] !in Image(s - {x}, f);
    }
  }

  lemma SameSize(s: set<nat>, t: set<nat>)
    requires s <= t && |s| == |t|
    ensures s == t
  {
    assert t == s + (t - s);
  }

  /** The two low nodes are the first two of the order. */
  lemma LowPlaces(g: Adjacency, ys: set<nat>, z: nat, r: nat, order: seq<nat>, chosen: set<nat>)
    requires Tied(g, ys, z, r) && Stacked(g, 20, g.Keys, {}, order, chosen) && LowFirst({z, r}, order)
    ensures |order| >= 2 && ((order[0] == r && order[1] == z) || (order[0] == z && order[1] == r))
    ensures forall i, j :: 0 <= i < j < |order| ==> order[i] != order[j]
    ensures Elems(order[2..]) == ys
  {
    hide Tied, Remaining, Elems, LowFirst;
    TiedEnds(g, ys, z, r);
    StackDistinct(g, g.Keys, order, chosen);
    hide Stacked;
    var a := PlaceOf(order, z);
    var b := PlaceOf(order, r);
    LowPlace(order, z, r, a);
    LowPlace(order, z, r, b);
    assert Elems(order[2..]) == Elems(order) - {order[0], order[1]} by {
      DropTwo(order);
    }
  }

  lemma StackDistinct(g: Adjacency, nodes: set<nat>, order: seq<nat>, chosen: set<nat>)
    requires Stacked(g, 20, nodes, {}, order, chosen)
    ensures Elems(order) == nodes && forall i, j :: 0 <= i < j < |order| ==> order[i] != order[j]
  {
    assert Elems(order) + {} == Elems(order);
  }

  lemma PlaceOf(order: seq<nat>, n: nat) returns (a: nat)
    requires n in Elems(order)
    ensures a < |order| && order[a] == n
  {
    a :| 0 <= a < |order| && order[a] == n;
  }

  lemma DropTwo(order: seq<nat>)
    requires |order| >= 2 && forall i, j :: 0 <= i < j < |order| ==> order[i] != order[j]
    ensures Elems(order[2..]) == Elems(order) - {order[0], order[1]}
  {
    assert order == [order[0]] + ([order[1]] + order[2..]);
    ElemsCons(order[1], order[2..]);
    ElemsCons(order[0], [order[1]] + order[2..]);
    forall n | n in order[2..]
      ensures n != order[0] && n != order[1]
    {
      var j :| 0 <= j < |order[2..]| && order[2..][j] == n;
      assert order[j + 2] == n;
    }
  }

  lemma LowPlace(order: seq<nat>, z: nat, r: nat, a: nat)
    requires LowFirst({z, r}, order) && a < |order| && order[a] in {z, r} && forall i, j :: 0 <= i < j < |order| ==>
        order[i] != order[j]
    ensures a <= 1
  {
    hide LowFirst;
    if a > 1 {
      LowBefore(order, {z, r}, 0, a);
      LowBefore(order, {z, r}, 1, a);
    }
  }

  lemma LowBefore(order: seq<nat>, low: set<nat>, i: nat, a: nat)
    requires LowFirst(low, order) && i < a < |order| && order[a] in low
    ensures order[i] in low
  {
  }

  /** Whatever the order, `r` gets t5. */
  lemma EndsInT5(g: Adjacency, ys: set<nat>, z: nat, r: nat, c: Fixed, order: seq<nat>, chosen: set<nat>)
    requires Tied(g, ys, z, r) && Stacked(g, 20, g.Keys, {}, order, chosen) && LowFirst({z, r}, order)
    requires c.physReg == map[] && ys <= c.callCrossing && r !in c.callCrossing
    ensures var phys := SelectAll(g, c, order, chosen, ColorPool()); r in phys && phys[r] == T5
  {
    hide Tied, Stacked, LowFirst, Remaining, ColorPool, Taken, FirstNot, Elems;
    NoneChosen(g, ys, z, r, order, chosen);
    LowPlaces(g, ys, z, r, order, chosen);
    TiedEnds(g, ys, z, r);
    var t := order[2..];
    assert order[1..][1..] == t;
    YsSpread(g, ys, z, r, c, t);
    var phys := SelectAll(g, c, t, {}, ColorPool());
    SpreadFacts(t, phys);
    assert SelectAll(g, c, order, {}, ColorPool()) == Chooses(g, c, order[0], Chooses(g, c, order[1], phys)) by {
      assert order[1..][0] == order[1];
    }
    OnlyT5Left(g, c, ys, r, phys);
    OnlyT5Left(g, c, ys, r, Chooses(g, c, z, phys));
  }

  /** The registers after `n` has chosen. */
  ghost function Chooses(g: Adjacency, c: Fixed, n: nat, phys: map<nat, nat>): map<nat, nat> {
    match FirstNot(ColorPool(), Taken(g, c, n, phys))
    case None => phys
    case Some(color) => phys[n := color]
  }

  lemma SpreadFacts(t: seq<nat>, phys: map<nat, nat>)
    requires Spread(t, phys)
    ensures phys.Keys == Elems(t) && (forall n :: n in phys ==> phys[n] in ColorPool() && phys[n] != T5)
    ensures forall n, o :: n in phys && o in phys && n != o ==> phys[n] != phys[o]
  {
  }

  // ---- The function ----

  function Y(i: nat): Name {
    "%y" + Decimal(i)
  }

  const Z: Name := "%z"
  const X: Name := "%x"
  const R: Name := "%r"

  /** Nineteen loads, a load and its use, a load that is kept across the first call and then moved, and a call that
   * uses the rest. */
  function Item(k: nat): Instr {
    if k < 19 then Effect(Some(Y(k)), Load, [Const(0)])
    else if k == 19 then Effect(Some(Z), Load, [Const(0)])
    else if k == 20 then Effect(None, Store, [Var(Z), Const(0)])
    else if k == 21 then Effect(Some(X), Load, [Const(0)])
    else if k == 22 then Effect(None, Call("f"), [])
    else if k == 23 then Move(R, Var(X))
    else Effect(None, Call("g"), seq(20, i requires 0 <= i < 20 => if i < 19 then Var(Y(i)) else Var(R)))
  }

  function Example(): (f: Func)
    ensures |f| == 1 && f[0].phis == [] && f[0].term == Return(None) && |f[0].body| == 25 && forall k ::
        0 <= k < 25 ==> f[0].body[k] == Item(k)
  {
    [Block([], seq(25, k requires 0 <= k < 25 => Item(k)), Return(None))]
  }

  lemma NamesDiffer(i: nat, j: nat)
    ensures Y(i) == Y(j) ==> i == j
    ensures Y(i) != Z && Y(i) != X && Y(i) != R && IsVariable(Y(i)) && Z != X && Z != R && X != R
  {
    hide Decimal;
    assert Y(i)[1] == 'y' && Z[1] == 'z' && X[1] == 'x' && R[1] == 'r';
    if Y(i) == Y(j) {
      assert Y(i)[2..] == Decimal(i) && Y(j)[2..] == Decimal(j);
      DecimalInjective(i, j);
    }
  }

  lemma ExampleAcceptable()
    ensures Acceptable(Example(), [])
  {
    var f := Example();
    assert Flow(f)[0] == [];
    hide Y, Item;
    forall k | 0 <= k < 25
      ensures Target(f[0].body[k]).Some? ==> IsVariable(Target(f[0].body[k]).value)
    {
      ItemVariables(k);
    }
    forall k, j | 0 <= k <= 25 && 0 <= j < |ItemOperands(f[0], k)| && ItemOperands(f[0], k)[j].Var?
      ensures IsVariable(ItemOperands(f[0], k)[j].name)
    {
      if k < 25 {
        ItemVariables(k);
      }
    }
  }

  lemma ItemVariables(k: nat)
    ensures Target(Item(k)).Some? ==> IsVariable(Target(Item(k)).value)
    ensures forall j :: 0 <= j < |Uses(Item(k))| && Uses(Item(k))[j].Var? ==> IsVariable(Uses(Item(k))[j].name)
  {
    hide Decimal;
  }

  // ---- What the allocator finds out about it ----

  /** The variables in the order of their definitions, where they are defined, and where they are used. */
  function V(i: nat): Name {
    if i < 19 then Y(i) else if i == 19 then Z else if i == 20 then X else R
  }

  function DefAt(i: nat): nat {
    if i <= 19 then i else if i == 20 then 21 else 23
  }

  function UseAt(i: nat): nat {
    if i == 19 then 20 else if i == 20 then 23 else 24
  }

  lemma VDiffer(i: nat, j: nat)
    requires i < 22 && j < 22
    ensures V(i) == V(j) ==> i == j
  {
    hide Y;
    NamesDiffer(i, j);
    NamesDiffer(j, i);
  }

  lemma ItemTarget(i: nat, k: nat)
    requires i < 22 && k < 25
    ensures Target(Item(k)) == Some(V(i)) <==> k == DefAt(i)
  {
    hide Y;
    NamesDiffer(i, k);
    NamesDiffer(k, i);
  }

  lemma ItemUse(i: nat, k: nat)
    requires i < 22 && k < 25
    ensures Var(V(i)) in Uses(Item(k)) <==> k == UseAt(i)
  {
    hide Y;
    NamesDiffer(i, k);
    if k == 24 {
      var os := Uses(Item(24));
      assert |os| == 20 && forall j :: 0 <= j < 20 ==> os[j] == if j < 19 then Var(Y(j)) else Var(R);
      if i < 19 {
        assert os[i] == Var(Y(i));
      } else if i == 21 {
        assert os[19] == Var(R);
      } else {
        forall j | 0 <= j < 20
          ensures os[j] != Var(V(i))
        {
          NamesDiffer(j, 0);
        }
      }
    }
  }

  /** Every variable of the example has a number of its own. */
  ghost predicate Numbers(ids: Ids) {
    InjectiveIds(ids) && forall i: nat :: i < 22 ==> V(i) in ids
  }

  lemma ExampleNumbers(ids: Ids)
    requires InjectiveIds(ids) && NamesOk(Example()[0], ids)
    ensures Numbers(ids)
  {
    hide V, Item;
    forall i: nat | i < 22
      ensures V(i) in ids
    {
      ItemTarget(i, DefAt(i));
      assert Target(Example()[0].body[DefAt(i)]) == Some(V(i));
    }
  }

  lemma DefsOf(ids: Ids, i: nat, k: nat)
    requires Numbers(ids) && i < 22
    ensures ids[V(i)] in ItemDefs(ids, Example()[0], k) <==> k == DefAt(i)
  {
    hide V, Item;
    if k < 25 {
      ItemTarget(i, k);
      assert Example()[0].body[k] == Item(k);
    }
  }

  lemma UsesOf(ids: Ids, i: nat, k: nat)
    requires Numbers(ids) && i < 22
    ensures ids[V(i)] in ItemUses(ids, Example()[0], k) <==> k == UseAt(i)
  {
    hide V, Item;
    var blk := Example()[0];
    if k < 25 {
      ItemUse(i, k);
      assert blk.body[k] == Item(k);
      UsedByName(ids, Uses(Item(k)), V(i));
    } else {
      assert ItemOperands(blk, k) == [];
    }
  }

  lemma UsedByName(ids: Ids, os: seq<Operand>, x: Name)
    requires InjectiveIds(ids) && x in ids
    ensures ids[x] in OperandIds(ids, os) <==> Var(x) in os
  {
    if ids[x] in OperandIds(ids, os) {
      var k :| 0 <= k < |os| && UsesId(ids, os[k], ids[x]);
      assert os[k] == Var(x);
    }
    if Var(x) in os {
      var k :| 0 <= k < |os| && os[k] == Var(x);
      assert UsesId(ids, os[k], ids[x]);
    }
  }

  /** A variable with one definition and one use is used from anywhere in between. */
  lemma OneRange(ids: Ids, blk: Block, v: nat, d: nat, u: nat, k: nat)
    requires d < u <= |blk.body| && (forall j: nat :: v in ItemDefs(ids, blk, j) <==> j == d) && forall j: nat ::
        v in ItemUses(ids, blk, j) <==> j == u
    ensures UsedFrom(ids, blk, k, v) <==> d < k <= u
  {
    hide ItemDefs, ItemUses;
    if d < k <= u {
      assert NotDefined(ids, blk, k, u, v);
    } else if k <= d {
      assert v in ItemDefs(ids, blk, d) && k <= d < u;
    }
  }

  lemma OnlyBlock(ids: Ids, k: nat, v: nat)
    ensures LivePoint(Example(), ids, 0, k, v) <==> UsedFrom(ids, Example()[0], k, v)
  {
    hide UsedFrom, NotDefined;
    var f := Example();
    assert Flow(f)[0] == [];
    if UsedFrom(ids, f[0], k, v) {
      assert IsPath(Flow(f), [0]);
      assert LiveOnPath(f, ids, 0, k, v, [0]);
    }
    if LivePoint(f, ids, 0, k, v) {
      var path :| LiveOnPath(f, ids, 0, k, v, path);
      if |path| > 1 {
        assert Edge(Flow(f), path[0], path[1]);
      }
    }
  }

  /** A variable is live between its definition and its use. */
  lemma LiveRange(p: Plan, i: nat, k: nat)
    requires Planned(Example(), [], p) && Numbers(p.ids) && i < 22 && k <= 26 && p.ids[V(i)] in p.tracked
    ensures p.ids[V(i)] in LiveBefore(p.ids, p.tracked, Example()[0], k, p.outs[0]) <==> DefAt(i) < k <= UseAt(i)
  {
    hide V, Item, UsedFrom, ItemDefs, ItemUses, LiveBefore, LivePoint, Planned;
    assert V(i) in p.ids;
    var f, v := Example(), p.ids[V(i)];
    forall j: nat
      ensures (v in ItemDefs(p.ids, f[0], j) <==> j == DefAt(i)) && (v in ItemUses(p.ids, f[0], j) <==> j == UseAt(i))
    {
      DefsOf(p.ids, i, j);
      UsesOf(p.ids, i, j);
    }
    OneRange(p.ids, f[0], v, DefAt(i), UseAt(i), k);
    OnlyBlock(p.ids, k, v);
    SinglePath(Flow(f), 0);
    LiveAsPlanned(f, p, 0, k, v);
  }

  lemma LiveAsPlanned(f: Func, p: Plan, b: nat, k: nat, v: nat)
    requires Planned(f, [], p) && b < |f| && Reachable(Flow(f), 0, b) && k <= |f[b].body| + 1
    ensures b < |p.outs| && (v in LiveBefore(p.ids, p.tracked, f[b], k, p.outs[b]) <==>
        v in p.tracked &&
        LivePoint(f, p.ids, b, k, v))
  {
  }

  // ---- Its interference graph is the knot ----

  lemma ExamplePromotable(i: nat)
    requires i < 22
    ensures DefAt(i) < 25 && IsPromotable(Item(DefAt(i)))
  {
    hide Y;
  }

  lemma OnlyThese(k: nat)
    requires k < 25 && Target(Item(k)).Some?
    ensures exists i: nat :: i < 22 && Target(Item(k)) == Some(V(i))
  {
    hide Y;
    var i := if k <= 19 then k else if k == 21 then 20 else 21;
    assert Target(Item(k)) == Some(V(i));
  }

  /** Exactly the twenty-two variables are tracked. */
  lemma ExampleTracked(p: Plan, v: nat)
    requires Planned(Example(), [], p) && Numbers(p.ids)
    ensures p.pre == map[] && (v in p.tracked <==> exists i: nat :: i < 22 && p.ids[V(i)] == v)
  {
    var f := Example();
    hide V, Item, LiveBefore, LivePoint, EdgesFrom, EdgesPresent, CrossedBlocks, NamesOk, Simple, AllMoves;
    assert p.pre == map[];
    assert v in p.tracked <==> PromotableIn(f, p.ids, v);
    hide Planned;
    if PromotableIn(f, p.ids, v) {
      var b, k :| 0 <= b < |f| && 0 <= k < |f[b].body| && IsPromotable(f[b].body[k]) && v in ItemDefs(p.ids, f[b], k);
      assert f[0].body[k] == Item(k);
      OnlyThese(k);
    }
    if i: nat :| i < 22 && p.ids[V(i)] == v {
      ExamplePromotable(i);
      DefsOf(p.ids, i, DefAt(i));
      assert f[0].body[DefAt(i)] == Item(DefAt(i));
    }
  }

  /** The definition of `i` happens while `j` is live, and is not the copy of `j`. */
  predicate DefinedOver(i: nat, j: nat) {
    DefAt(j) < DefAt(i) <= UseAt(j) && !(i == 21 && j == 20)
  }

  lemma MovedByItem(ids: Ids, i: nat, k: nat)
    requires Numbers(ids) && i < 22
    ensures ids[V(i)] in MoveSource(ids, Example()[0], k) <==> k == 23 && i == 20
  {
    hide V, ItemUses;
    UsesOf(ids, i, k);
    if k < 25 {
      assert Example()[0].body[k] == Item(k);
      hide Y;
    }
  }

  lemma ExampleItemEdge(p: Plan, i: nat, j: nat, k: nat)
    requires Planned(Example(), [], p) && Numbers(p.ids) && i < 22 && j < 22
    ensures ItemEdge(p.ids, p.tracked, p.promotable, Example()[0], p.outs[0], k, p.ids[V(i)], p.ids[V(j)]) <==>
        k == DefAt(i) && i != j && DefinedOver(i, j)
  {
    hide Planned, V, Item, ItemDefs, MoveSource, LiveBefore;
    PlanSizes(p);
    assert V(i) in p.ids && V(j) in p.ids;
    ExampleTracked(p, p.ids[V(i)]);
    ExampleTracked(p, p.ids[V(j)]);
    VDiffer(i, j);
    DefsOf(p.ids, i, k);
    if k < 25 {
      LiveRange(p, j, k);
      MovedByItem(p.ids, j, k);
    }
  }

  lemma PlanSizes(p: Plan)
    requires Planned(Example(), [], p)
    ensures |p.outs| == |Example()| == 1 && p.tracked == p.promotable + p.pre.Keys && Simple(p.graph) &&
        p.graph.Keys <= p.tracked
    ensures InjectiveIds(p.ids) && NamesOk(Example()[0], p.ids) && p.pre == map[]
    ensures p.moves == AllMoves(p.ids, Example(), 1) &&
        CrossedBlocks(p.ids, p.tracked, Example(), p.outs, 1, p.crossing)
    ensures EdgesFrom(p.full, p.ids, p.tracked, p.promotable, Example(), p.outs, 1) && Simple(p.full)
    ensures EdgesPresent(p.full, p.ids, p.tracked, p.promotable, Example()[0], p.outs[0], 0)
    ensures EdgesDropped(Example(), p.ids, p.promotable, p.full, p.graph)
  {
    hide LiveBefore, LivePoint, EdgesFrom, EdgesPresent, CrossedBlocks, NamesOk, Simple, AllMoves, PromotableIn,
      EdgesDropped;
    assert p.pre == map[];
  }

  /** No edge is taken out again: the only instruction that uses `r` defines nothing. */
  lemma NothingDropped(p: Plan, x: nat, y: nat)
    requires Planned(Example(), [], p) && Numbers(p.ids)
    ensures Adjacent(p.graph, x, y) <==> Adjacent(p.full, x, y)
  {
    hide Planned, V, Example, DroppedAt, Item;
    PlanSizes(p);
    forall m: nat, s, d
      ensures !DroppedAt(p.ids, p.promotable, Example()[0], m, s, d)
    {
      NoDrop(p.ids, p.promotable, m, s, d);
    }
  }

  lemma NoDrop(ids: Ids, promotable: set<nat>, m: nat, s: nat, d: nat)
    requires Numbers(ids)
    ensures !DroppedAt(ids, promotable, Example()[0], m, s, d)
  {
    hide V, ItemUses, Item, MoveSource;
    var blk := Example()[0];
    assert V(21) in ids;
    NamesOfEnds();
    if m < 25 {
      assert blk.body[m] == Item(m);
      ItemTarget(21, m);
      MovesOnce(m);
      MoveEnds(ids, blk, m, s, d);
    }
    forall j: nat
      ensures !LastUser(ids, blk, |blk.body|, ids[V(21)], j)
    {
      UsesOf(ids, 21, j);
      if j < 25 {
        assert blk.body[j] == Item(j);
        EndDefinesNothing();
      }
    }
  }

  lemma MovesOnce(k: nat)
    requires k < 25
    ensures Item(k).Move? ==> k == 23 && Item(k).result == R
  {
  }

  lemma EndDefinesNothing()
    ensures UseAt(21) == 24 && !HasDef(Item(24))
  {
  }

  lemma ExampleAdjacent(p: Plan, i: nat, j: nat)
    requires Planned(Example(), [], p) && Numbers(p.ids) && i < 22 && j < 22
    ensures Adjacent(p.graph, p.ids[V(i)], p.ids[V(j)]) <==> i != j && (DefinedOver(i, j) || DefinedOver(j, i))
  {
    hide Planned, V, Item, ItemEdge, Example, EdgesDropped;
    PlanSizes(p);
    assert V(i) in p.ids && V(j) in p.ids;
    var a, b := p.ids[V(i)], p.ids[V(j)];
    forall k: nat
      ensures ItemEdge(p.ids, p.tracked, p.promotable, Example()[0], p.outs[0], k, a, b) <==>
          k == DefAt(i) &&
          i != j && DefinedOver(i, j)
      ensures ItemEdge(p.ids, p.tracked, p.promotable, Example()[0], p.outs[0], k, b, a) <==>
          k == DefAt(j) &&
          i != j && DefinedOver(j, i)
    {
      ExampleItemEdge(p, i, j, k);
      ExampleItemEdge(p, j, i, k);
    }
    NothingDropped(p, a, b);
    if Adjacent(p.full, a, b) {
      assert EdgeInBlocks(p.ids, p.tracked, p.promotable, Example(), p.outs, 1, a, b);
    }
    if i != j && DefinedOver(i, j) {
      assert ItemEdge(p.ids, p.tracked, p.promotable, Example()[0], p.outs[0], DefAt(i), a, b);
    }
    if i != j && DefinedOver(j, i) {
      assert ItemEdge(p.ids, p.tracked, p.promotable, Example()[0], p.outs[0], DefAt(j), b, a);
      assert Adjacent(p.full, b, a);
      SimpleEdge(p.full, b, a);
    }
  }

  ghost function Ys(ids: Ids, n: nat): set<nat>
    requires Numbers(ids) && n <= 19
  {
    set i: nat | i < n :: ids[V(i)]
  }

  lemma {:induction false} YsSize(ids: Ids, n: nat)
    requires Numbers(ids) && n <= 19
    ensures |Ys(ids, n)| == n
  {
    hide V, Ys, Numbers;
    if n > 0 {
      YsSize(ids, n - 1);
      YsMore(ids, n - 1);
    } else {
      NoYs(ids);
    }
  }

  lemma NoYs(ids: Ids)
    requires Numbers(ids)
    ensures Ys(ids, 0) == {}
  {
  }

  lemma YsMore(ids: Ids, n: nat)
    requires Numbers(ids) && n < 19
    ensures V(n) in ids && ids[V(n)] !in Ys(ids, n) && Ys(ids, n + 1) == Ys(ids, n) + {ids[V(n)]}
  {
    hide V;
    assert V(n) in ids;
    forall i: nat | i < n
      ensures ids[V(i)] != ids[V(n)]
    {
      VDiffer(i, n);
    }
  }

  /** Neighbours by index. */
  lemma ExampleNeighbours(p: Plan, i: nat)
    requires Planned(Example(), [], p) && Numbers(p.ids) && i < 22
    ensures p.ids[V(i)] in p.graph
    ensures forall v :: v in p.graph[p.ids[V(i)]] <==> exists j: nat ::
        j < 22 && v == p.ids[V(j)] && i != j &&
        (DefinedOver(i, j) || DefinedOver(j, i))
  {
    hide Planned, V;
    PlanSizes(p);
    assert V(i) in p.ids;
    var a := p.ids[V(i)];
    var near := if i == 0 then 1 else 0;
    ExampleAdjacent(p, i, near);
    forall v
      ensures v in p.graph[a] <==> exists j: nat ::
          j < 22 && v == p.ids[V(j)] && i != j &&
          (DefinedOver(i, j) || DefinedOver(j, i))
    {
      if v in p.graph[a] {
        SimpleEdge(p.graph, a, v);
        ExampleTracked(p, v);
        var j: nat :| j < 22 && p.ids[V(j)] == v;
        ExampleAdjacent(p, i, j);
      }
      if j: nat :| j < 22 && v == p.ids[V(j)] && i != j && (DefinedOver(i, j) || DefinedOver(j, i)) {
        ExampleAdjacent(p, i, j);
      }
    }
  }

  /** The neighbours of the last three are the nineteen. */
  lemma EndNeighbours(p: Plan, i: nat)
    requires Planned(Example(), [], p) && Numbers(p.ids) && 19 <= i < 22
    ensures p.ids[V(i)] in p.graph && p.graph[p.ids[V(i)]] == Ys(p.ids, 19) && p.ids[V(i)] !in Ys(p.ids, 19)
  {
    hide Planned, V;
    ExampleNeighbours(p, i);
    forall j: nat | j < 22
      ensures (i != j && (DefinedOver(i, j) || DefinedOver(j, i))) <==> j < 19
    {
    }
    forall j: nat | j < 19
      ensures p.ids[V(j)] != p.ids[V(i)]
    {
      VDiffer(i, j);
    }
  }

  /** The neighbours of each of the nineteen are all the others. */
  lemma YNeighbours(p: Plan, i: nat)
    requires Planned(Example(), [], p) && Numbers(p.ids) && i < 19
    ensures p.ids[V(i)] in p.graph
    ensures p.graph[p.ids[V(i)]] == Others(Ys(p.ids, 19), p.ids[V(i)], {p.ids[V(19)], p.ids[V(20)], p.ids[V(21)]})
  {
    hide Planned, V;
    ExampleNeighbours(p, i);
    forall j: nat | j < 22
      ensures (i != j && (DefinedOver(i, j) || DefinedOver(j, i))) <==> i != j
      ensures p.ids[V(j)] == p.ids[V(i)] <==> i == j
    {
      VDiffer(i, j);
    }
  }

  lemma ExampleKeys(p: Plan)
    requires Planned(Example(), [], p) && Numbers(p.ids)
    ensures p.graph.Keys == Ys(p.ids, 19) + {p.ids[V(19)], p.ids[V(20)], p.ids[V(21)]}
  {
    hide Planned, V, Simple, EdgesFrom, EdgesPresent, CrossedBlocks, AllMoves, Example, NamesOk;
    PlanSizes(p);
    forall v
      ensures v in p.graph <==> v in Ys(p.ids, 19) || v == p.ids[V(19)] || v == p.ids[V(20)] || v == p.ids[V(21)]
    {
      if v in p.graph {
        ExampleTracked(p, v);
        var i: nat :| i < 22 && p.ids[V(i)] == v;
      }
      if i: nat :| i < 22 && p.ids[V(i)] == v {
        ExampleNeighbours(p, i);
      }
    }
  }

  lemma ExampleKnot(p: Plan)
    requires Planned(Example(), [], p) && Numbers(p.ids)
    ensures Knot(p.graph, Ys(p.ids, 19), p.ids[V(19)], p.ids[V(20)], p.ids[V(21)])
  {
    hide Planned, V, Example, Ys, Others;
    ExampleKeys(p);
    YsSize(p.ids, 19);
    EndNeighbours(p, 19);
    EndNeighbours(p, 20);
    EndNeighbours(p, 21);
    VDiffer(19, 20);
    VDiffer(19, 21);
    VDiffer(20, 21);
    var ys := Ys(p.ids, 19);
    forall y | y in ys
      ensures y in p.graph && p.graph[y] == Others(ys, y, {p.ids[V(19)], p.ids[V(20)], p.ids[V(21)]})
    {
      var i := OneOfYs(p.ids, y);
      YNeighbours(p, i);
    }
  }

  lemma OneOfYs(ids: Ids, y: nat) returns (i: nat)
    requires Numbers(ids) && y in Ys(ids, 19)
    ensures i < 19 && V(i) in ids && ids[V(i)] == y
  {
    hide V;
    i :| i < 19 && ids[V(i)] == y;
  }

  /** Across the first call live the nineteen and `x`; `r` is live across no call. */
  lemma ExampleCrossing(p: Plan, i: nat)
    requires Planned(Example(), [], p) && Numbers(p.ids) && i < 22
    ensures p.ids[V(i)] in p.crossing <==> i < 19 || i == 20
  {
    hide Planned, V, LiveBefore, ItemDefs, Example, Y;
    PlanSizes(p);
    assert V(i) in p.ids;
    var v := p.ids[V(i)];
    ExampleTracked(p, v);
    forall k: nat
      ensures CrossesCall(p.ids, p.tracked, Example()[0], p.outs[0], k, v) <==>
          (k == 22 || k == 24) &&
          DefAt(i) < k + 1 <= UseAt(i)
    {
      DefsOf(p.ids, i, k);
      if k < 25 {
        LiveRange(p, i, k + 1);
        assert Example()[0].body[k] == Item(k);
      }
    }
    assert CrossesCall(p.ids, p.tracked, Example()[0], p.outs[0], 22, v) <==> DefAt(i) < 23 <= UseAt(i);
    assert AcrossCall(p.ids, p.tracked, Example()[0], p.outs[0], v) <==> DefAt(i) < 23 <= UseAt(i);
  }

  lemma {:induction false} ExampleMoves(ids: Ids, k: nat)
    requires Numbers(ids) && k <= 26
    ensures ScannedMoves(ids, Example()[0], k) == if k <= 23 then [(ids[V(20)], ids[V(21)])] else []
    decreases 26 - k
  {
    hide V, Item;
    if k < 26 {
      ExampleMoves(ids, k + 1);
      ExampleMove(ids, k);
    }
  }

  lemma ExampleMove(ids: Ids, k: nat)
    requires Numbers(ids)
    ensures MoveOf(ids, Example()[0], k) == if k == 23 then [(ids[V(20)], ids[V(21)])] else []
  {
    assert V(20) in ids && V(21) in ids;
    VDiffer(20, 21);
    if k < 25 {
      assert Example()[0].body[k] == Item(k);
    }
  }

  /** In the example every colouring that the allocator may find with the real pool puts `x`, which is live across the
   * call, in t5. */
  lemma CrossingInT5(p: Plan, order: seq<nat>, chosen: set<nat>)
    requires Planned(Example(), [], p) && ColouredBy(p, ColorPool(), order, chosen)
    ensures X in p.ids && p.ids[X] in p.crossing && p.ids[X] in p.phys && p.phys[p.ids[X]] == T5
    ensures Home(p.ids, p.phys, X) == Home(p.ids, p.phys, R) == RegName(T5) && !CallSafe(p, ColorPool())
  {
    hide V, Knot, Tied, SelectAll, Stacked, LowFirst, LowNodes, Represents, Planned, CoalesceAll, RepAll;
    PlanSizes(p);
    ExampleNumbers(p.ids);
    assert V(19) in p.ids && V(20) in p.ids && V(21) in p.ids;
    var ys, z, x, r := Ys(p.ids, 19), p.ids[V(19)], p.ids[V(20)], p.ids[V(21)];
    NamesOfEnds();
    ExampleKnot(p);
    ExampleMoves(p.ids, 0);
    assert p.moves == [(x, r)] by {
      assert AllMoves(p.ids, Example(), 0) == [];
      assert [] + [(x, r)] == [(x, r)];
    }
    var c, m := Looked(p), Merged(p, 20);
    PoolFacts();
    KnotMerges(p.graph, ys, z, x, r, c);
    TiedLow(m.adj, ys, z, r);
    assert m.adj.Keys - p.pre.Keys == m.adj.Keys && p.pre.Keys == {};
    forall y | y in ys
      ensures y in p.crossing
    {
      var i: nat :| i < 19 && p.ids[V(i)] == y;
      ExampleCrossing(p, i);
    }
    ExampleCrossing(p, 20);
    ExampleCrossing(p, 21);
    EndsInT5(m.adj, ys, z, r, c, order, chosen);
    assert r !in m.merged;
    assert SameAt(p.phys, SelectAll(m.adj, c, order, chosen, ColorPool()), r);
    TiedEnds(m.adj, ys, z, r);
    assert x in m.merged && m.merged[x] == r && x in p.phys;
    assert SameColour(Stand(p, 20), p.phys, x);
  }

  lemma NamesOfEnds()
    ensures V(19) == Z && V(20) == X && V(21) == R
  {
  }

  // ---- The run that fails ----

  lemma {:induction false} LosingAppend(w: World, a: seq<Instr>, b: seq<Instr>, s: State)
    ensures ExecAllLosing(w, a + b, s) == match ExecAllLosing(w, a, s)
      case None => None
      case Some(t) => ExecAllLosing(w, b, t)
  {
    hide ExecLosing;
    if a == [] {
      assert a + b == b;
    } else {
      assert (a + b)[1..] == a[1..] + b;
      if ExecLosing(w, a[0], s).Some? {
        LosingAppend(w, a[1..], b, ExecLosing(w, a[0], s).value);
      }
    }
  }

  /** A call, a move out of t5 into t5, and a use of t5: the value is gone. */
  lemma LostValue(w: World, f: Instr, m: Instr, g: Instr, s: State)
    requires IsCall(f) && Target(f).None? && m == Move(RegName(T5), Var(RegName(T5))) && g.Effect? &&
        Var(RegName(T5)) in g.args
    ensures ExecAllLosing(w, [f, m, g], s).None?
  {
    hide RegName;
    if ExecLosing(w, f, s).Some? {
      var t := ExecLosing(w, f, s).value;
      assert [f, m, g][1..] == [m, g] && [m, g][1..] == [g];
      assert RegName(T5) !in t.env;
      var u := ExecLosing(w, m, t).value;
      assert RegName(T5) !in u.env;
      var k :| 0 <= k < |g.args| && g.args[k] == Var(RegName(T5));
      UndefinedArg(u.env, g.args, k);
      assert ExecAllLosing(w, [g], u).None?;
      assert ExecAllLosing(w, [m, g], t).None?;
    }
  }

  lemma {:induction false} UndefinedArg(env: Env, os: seq<Operand>, k: nat)
    requires k < |os| && Lookup(env, os[k]).None?
    ensures LookupAll(env, os).None?
  {
    if k > 0 {
      UndefinedArg(env, os[1..], k - 1);
    }
  }

  /** After `k` items every variable defined so far has a value. */
  predicate DefinedSoFar(k: nat, env: Env) {
    forall i: nat :: i < 22 && DefAt(i) < k ==> V(i) in env
  }

  lemma ItemRuns(w: World, k: nat, s: State)
    requires k < 25 && DefinedSoFar(k, s.env)
    ensures Exec(w, Item(k), s).Some? && DefinedSoFar(k + 1, Exec(w, Item(k), s).value.env)
  {
    hide V, Item, Y;
    ItemShape(k);
    forall j | 0 <= j < |Uses(Item(k))|
      ensures Lookup(s.env, Uses(Item(k))[j]).Some?
    {
      ItemOperandDefined(k, j);
    }
    AllDefined(s.env, Uses(Item(k)));
    forall i: nat | i < 22
      ensures Target(Item(k)) == Some(V(i)) <==> k == DefAt(i)
    {
      ItemTarget(i, k);
    }
  }

  lemma ItemShape(k: nat)
    requires k < 25
    ensures Item(k).Effect? || Item(k).Move?
  {
  }

  lemma ItemOperandDefined(k: nat, j: nat)
    requires k < 25 && j < |Uses(Item(k))|
    ensures var o := Uses(Item(k))[j]; o.Var? ==> exists i: nat :: i < 22 && o == Var(V(i)) && DefAt(i) < k
  {
    var o := Uses(Item(k))[j];
    if o.Var? {
      var i := if k == 20 then 19 else if k == 23 then 20 else if j < 19 then j else 21;
      assert o == Var(V(i));
    }
  }

  lemma {:induction false} AllDefined(env: Env, os: seq<Operand>)
    requires forall j :: 0 <= j < |os| ==> Lookup(env, os[j]).Some?
    ensures LookupAll(env, os).Some?
  {
    if os != [] {
      AllDefined(env, os[1..]);
    }
  }

  lemma {:induction false} ExampleRuns(w: World, k: nat, s: State)
    requires k <= 25 && DefinedSoFar(k, s.env)
    ensures ExecAll(w, Example()[0].body[k..], s).Some?
    decreases 25 - k
  {
    hide V, Item, DefinedSoFar, Exec;
    if k < 25 {
      var rest := Example()[0].body[k..];
      assert rest[0] == Item(k) && rest[1..] == Example()[0].body[k + 1..];
      ItemRuns(w, k, s);
      ExampleRuns(w, k + 1, Exec(w, Item(k), s).value);
    }
  }

  /** With `x` and `r` in t5 the allocated example gets stuck in its first block, while the example itself returns. */
  lemma AllocationFails(w: World, r: Func, p: Plan)
    requires Allocated(Example(), p.ids, p.phys, r) && Home(p.ids, p.phys, X) == Home(p.ids, p.phys, R) == RegName(T5)
    ensures !SameOutcome(Runs(w, Example(), Start(map[]), 1), RunsLosing(w, r, Start(map[]), 1))
  {
    hide RegName, Home, Y, ExecLosing, Exec;
    var f, s := Example(), State(map[], []);
    assert f[0].body[0..] == f[0].body;
    ExampleRuns(w, 0, s);
    assert Runs(w, f, Start(map[]), 0) == At(0, s) && RunsLosing(w, r, Start(map[]), 0) == At(0, s);
    var body := r[0].body;
    assert r[0] == PlacedBlock(f[0], p.ids, p.phys);
    PlacedEnd(p);
    assert body == body[..22] + [body[22], body[23], body[24]];
    LosingAppend(w, body[..22], [body[22], body[23], body[24]], s);
    if ExecAllLosing(w, body[..22], s).Some? {
      LostValue(w, body[22], body[23], body[24], ExecAllLosing(w, body[..22], s).value);
    }
  }

  lemma PlacedEnd(p: Plan)
    requires Home(p.ids, p.phys, X) == Home(p.ids, p.phys, R) == RegName(T5)
    ensures var body := PlacedBlock(Example()[0], p.ids, p.phys).body;
      && |body| == 25 && IsCall(body[22]) && Target(body[22]).None? && body[23] == Move(RegName(T5), Var(RegName(T5)))
      && body[24].Effect? && Var(RegName(T5)) in body[24].args
  {
    hide RegName, Home, Y;
    var blk := Example()[0];
    assert blk.body[22] == Item(22) && blk.body[23] == Item(23) && blk.body[24] == Item(24);
    var g := Placed(blk.body[24], p.ids, p.phys);
    assert g.args[19] == Var(Home(p.ids, p.phys, R));
  }

  /** The allocator run on the example with the pool of functions with calls: a variable that is live across a call is
   * in t5, and the allocated function does not do what the example does. */
  method AllocateExample() returns (r: Func, ghost p: Plan)
    ensures Allocated(Example(), p.ids, p.phys, r) && |p.outs| == 1
    ensures X in p.ids && AcrossCall(p.ids, p.tracked, Example()[0], p.outs[0], p.ids[X]) && p.ids[X] in p.phys &&
        p.phys[p.ids[X]] == T5
    ensures forall w: World :: !SameOutcome(Runs(w, Example(), Start(map[]), 1), RunsLosing(w, r, Start(map[]), 1))
  {
    hide Planned, ColouredBy, Allocated, Acceptable, AcrossCall, StartsInPlace, CallSafe, Runs, RunsLosing, Example;
    ExampleAcceptable();
    ghost var order, chosen;
    r, p, order, chosen := Visit(Example(), [], ColorPool());
    CrossingInT5(p, order, chosen);
    PlanSizes(p);
    forall w: World
      ensures !SameOutcome(Runs(w, Example(), Start(map[]), 1), RunsLosing(w, r, Start(map[]), 1))
    {
      AllocationFails(w, r, p);
    }
  }
}
