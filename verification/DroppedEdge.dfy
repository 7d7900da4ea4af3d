/** An edge that is taken out of the interference graph although both of its variables are needed at once: a call
 * without a result that uses the old value of a moved variable is not seen. */
module DroppedEdges {
  import opened Graphs
  import opened IR
  import opened PhiElimination
  import opened InterferenceGraphs
  import opened RegisterAllocation
  import opened CallCrossing

  const OLD: Name := "%i"
  const NEXT: Name := "%j"

  /** The body of a loop that counts and prints the old value of the counter. */
  function Body(): seq<Instr> {
    [Move(OLD, Const(0)), Arith(NEXT, Add, false, Var(OLD), Const(1)), Effect(None, Call("print"), [Var(OLD)]),
      Move(OLD, Var(NEXT))]
  }

  function Counting(): Func {
    [Block([], Body(), Return(None))]
  }

  lemma CountingAcceptable()
    ensures Acceptable(Counting(), [])
  {
    var f := Counting();
    assert Flow(f)[0] == [];
    forall k, j | 0 <= k <= 4 && 0 <= j < |ItemOperands(f[0], k)| && ItemOperands(f[0], k)[j].Var?
      ensures IsVariable(ItemOperands(f[0], k)[j].name)
    {
    }
  }

  // ---- What the allocator finds out about it ----

  /** Both variables have numbers. */
  ghost predicate Both(ids: Ids) {
    InjectiveIds(ids) && OLD in ids && NEXT in ids && ids[OLD] != ids[NEXT]
  }

  lemma BothNumbered(ids: Ids)
    requires InjectiveIds(ids) && NamesOk(Counting()[0], ids)
    ensures Both(ids)
  {
    var blk := Counting()[0];
    assert Target(blk.body[0]) == Some(OLD) && Target(blk.body[1]) == Some(NEXT);
    assert OLD[1] == 'i' && NEXT[1] == 'j';
  }

  lemma Definitions(ids: Ids, k: nat, v: nat)
    requires Both(ids)
    ensures v in ItemDefs(ids, Counting()[0], k) <==>
      ((k == 0 || k == 3) && v == ids[OLD]) || (k == 1 && v == ids[NEXT])
  {
  }

  lemma OldUses(ids: Ids, k: nat)
    requires Both(ids)
    ensures ids[OLD] in ItemUses(ids, Counting()[0], k) <==> k == 1 || k == 2
    ensures ids[NEXT] in ItemUses(ids, Counting()[0], k) <==> k == 3
  {
    var os := ItemOperands(Counting()[0], k);
    UsedByName(ids, os, OLD);
    UsedByName(ids, os, NEXT);
    assert OLD[1] == 'i' && NEXT[1] == 'j';
    assert k == 1 || k == 2 ==> os[0] == Var(OLD);
    assert k == 3 ==> os[0] == Var(NEXT);
  }

  /** The facts of the plan that the argument needs. */
  lemma PlanFacts(p: Plan)
    requires Planned(Counting(), [], p)
    ensures Both(p.ids) && p.pre == map[] && p.tracked == p.promotable && p.graph.Keys <= p.tracked
    ensures forall v :: v in p.promotable <==> PromotableIn(Counting(), p.ids, v)
    ensures |p.outs| == 1 && Simple(p.graph) && p.moves == AllMoves(p.ids, Counting(), 1)
    ensures EdgesPresent(p.full, p.ids, p.tracked, p.promotable, Counting()[0], p.outs[0], 0)
    ensures EdgesDropped(Counting(), p.ids, p.promotable, p.full, p.graph)
  {
    hide LiveBefore, LivePoint, EdgesFrom, EdgesPresent, CrossedBlocks, NamesOk, Simple, AllMoves, PromotableIn,
      EdgesDropped, Both;
    assert p.pre == map[];
    BothNumbered(p.ids);
  }

  lemma BothTracked(p: Plan, v: nat)
    requires Planned(Counting(), [], p)
    ensures Both(p.ids) && (v in p.tracked <==> v == p.ids[OLD] || v == p.ids[NEXT])
  {
    hide Planned, Simple, EdgesPresent, EdgesDropped, AllMoves, ItemDefs;
    PlanFacts(p);
    var f := Counting();
    if PromotableIn(f, p.ids, v) {
      var b, k :| 0 <= b < |f| && 0 <= k < |f[b].body| && IsPromotable(f[b].body[k]) && v in ItemDefs(p.ids, f[b], k);
      Definitions(p.ids, k, v);
    }
    Definitions(p.ids, 0, p.ids[OLD]);
    Definitions(p.ids, 1, p.ids[NEXT]);
    assert IsPromotable(f[0].body[0]) && IsPromotable(f[0].body[1]);
  }

  /** The scan enters the edge: the old value is live where the next one is computed. */
  lemma EdgeEntered(p: Plan)
    requires Planned(Counting(), [], p)
    ensures Both(p.ids) && Adjacent(p.full, p.ids[NEXT], p.ids[OLD])
  {
    hide Planned, Simple, EdgesDropped, AllMoves, ItemDefs, ItemUses;
    PlanFacts(p);
    var blk, out, i, j := Counting()[0], p.outs[0], p.ids[OLD], p.ids[NEXT];
    BothTracked(p, i);
    BothTracked(p, j);
    Definitions(p.ids, 1, j);
    OldUses(p.ids, 1);
    assert i in LiveBefore(p.ids, p.tracked, blk, 1, out);
    assert ItemEdge(p.ids, p.tracked, p.promotable, blk, out, 1, j, i);
  }

  /** And the edge is taken out again: the last instruction with a result that uses the old value computes the next. */
  lemma EdgeTakenOut(p: Plan)
    requires Planned(Counting(), [], p)
    ensures Both(p.ids) && DroppedUpTo(Counting(), p.ids, p.promotable, 1, p.ids[NEXT], p.ids[OLD])
  {
    hide Planned, Simple, EdgesDropped, EdgesPresent, AllMoves, ItemDefs, ItemUses;
    PlanFacts(p);
    var blk, i, j := Counting()[0], p.ids[OLD], p.ids[NEXT];
    BothTracked(p, i);
    Definitions(p.ids, 1, j);
    Definitions(p.ids, 3, i);
    OldUses(p.ids, 1);
    OldUses(p.ids, 3);
    assert !HasDef(blk.body[2]);
    assert LastUser(p.ids, blk, 4, i, 1);
    assert LastUseDefines(p.ids, blk, 4, i, j);
    assert DroppedAt(p.ids, p.promotable, blk, 3, j, i);
    assert DroppedBefore(p.ids, p.promotable, blk, 4, j, i);
  }

  /** The variables clash: the next value is written while the old one is still to be printed. */
  lemma StillNeeded(p: Plan)
    requires Planned(Counting(), [], p)
    ensures Both(p.ids) && Clashes(Counting(), p, p.ids[NEXT], p.ids[OLD]) && !DropsSafe(Counting(), p)
  {
    hide Planned, Simple, EdgesDropped, EdgesPresent, AllMoves, ItemDefs, ItemUses, DroppedUpTo;
    PlanFacts(p);
    var f, blk, out, i, j := Counting(), Counting()[0], p.outs[0], p.ids[OLD], p.ids[NEXT];
    BothTracked(p, i);
    BothTracked(p, j);
    Definitions(p.ids, 1, j);
    OldUses(p.ids, 2);
    SinglePath(Flow(f), 0);
    assert i in LiveBefore(p.ids, p.tracked, blk, 2, out);
    assert Clash(p.ids, p.tracked, p.promotable, blk, out, 1, j, i);
    assert ClashesAt(f, p, 0, 1, j, i);
    EdgeTakenOut(p);
  }

  /** The graph to colour has the two nodes and no edge. */
  lemma NoEdgeLeft(p: Plan)
    requires Planned(Counting(), [], p)
    ensures Both(p.ids) && p.graph == map[p.ids[OLD] := {}, p.ids[NEXT] := {}]
  {
    hide Planned, EdgesPresent, AllMoves, DroppedUpTo, Simple;
    PlanFacts(p);
    EdgeEntered(p);
    EdgeTakenOut(p);
    var g, i, j := p.graph, p.ids[OLD], p.ids[NEXT];
    assert !Adjacent(g, j, i);
    forall x, y
      ensures !Adjacent(g, x, y)
    {
      if Adjacent(g, x, y) {
        SimpleEdge(g, x, y);
        BothTracked(p, x);
        BothTracked(p, y);
        SimpleIrreflexive(g, x);
      }
    }
    FullKeys(p, j, i);
    forall v
      ensures v in g <==> v == i || v == j
    {
      BothTracked(p, v);
    }
    NoNeighbours(g, i);
    NoNeighbours(g, j);
  }

  lemma NoNeighbours(g: Adjacency, i: nat)
    requires i in g && forall v :: !Adjacent(g, i, v)
    ensures g[i] == {}
  {
    forall v | v in g[i]
      ensures false
    {
      assert Adjacent(g, i, v);
    }
  }

  lemma SimpleIrreflexive(g: Adjacency, x: nat)
    requires Simple(g)
    ensures !Adjacent(g, x, x)
  {
  }

  lemma FullKeys(p: Plan, x: nat, y: nat)
    requires Planned(Counting(), [], p) && Adjacent(p.full, x, y)
    ensures x in p.graph && y in p.graph
  {
    hide LiveBefore, LivePoint, EdgesFrom, EdgesPresent, CrossedBlocks, NamesOk, AllMoves, PromotableIn, DroppedUpTo;
  }

  lemma OneMovePair(ids: Ids)
    requires Both(ids)
    ensures AllMoves(ids, Counting(), 1) == [(ids[NEXT], ids[OLD])]
  {
    var blk := Counting()[0];
    assert ScannedMoves(ids, blk, 5) == [] && ScannedMoves(ids, blk, 4) == [];
    assert ScannedMoves(ids, blk, 3) == [(ids[NEXT], ids[OLD])];
    assert ScannedMoves(ids, blk, 2) == ScannedMoves(ids, blk, 1) == ScannedMoves(ids, blk, 0) ==
      ScannedMoves(ids, blk, 3);
    assert AllMoves(ids, Counting(), 0) == [];
  }

  /** A single node without neighbours gets a register of the pool. */
  lemma LoneNode(g: Adjacency, c: Fixed, i: nat, order: seq<nat>, chosen: set<nat>)
    requires g == map[i := {}] && c.physReg == map[] && Stacked(g, 20, {i}, {}, order, chosen)
    ensures i in SelectAll(g, c, order, chosen, ColorPool())
  {
    hide Taken, FirstNot, ColorPool;
    assert Elems(order) + {} == Elems(order);
    SingleOrder(order, i);
    NothingRemains(g, i);
    assert order[0] == i && |Remaining(g, order, 0, {})| < 20;
    assert order[1..] == [];
    SomeRegister(g, c, i);
  }

  lemma SingleOrder(order: seq<nat>, i: nat)
    requires Elems(order) == {i} && forall m, n :: 0 <= m < n < |order| ==> order[m] != order[n]
    ensures order == [i]
  {
    var first, second := if |order| > 0 then order[0] else i, if |order| > 1 then order[1] else i + 1;
    assert first != second;
    assert i in Elems(order);
    forall m | 0 <= m < |order|
      ensures order[m] == i
    {
      assert order[m] in Elems(order);
    }
    assert first == i && (|order| > 1 ==> second == i);
  }

  lemma NothingRemains(g: Adjacency, i: nat)
    requires g == map[i := {}]
    ensures |Remaining(g, [i], 0, {})| == 0
  {
    assert Remaining(g, [i], 0, {}) == {};
  }

  lemma SomeRegister(g: Adjacency, c: Fixed, i: nat)
    requires g == map[i := {}]
    ensures FirstNot(ColorPool(), Taken(g, c, i, map[])).Some?
  {
    assert ColorPool()[0] == 9 && T5 == 30;
    assert Taken(g, c, i, map[]) <= {T5};
  }

  /** Whatever the order, both variables are in the same register. */
  lemma SameRegister(p: Plan, order: seq<nat>, chosen: set<nat>) returns (reg: Name)
    requires Planned(Counting(), [], p) && ColouredBy(p, ColorPool(), order, chosen)
    ensures Home(p.ids, p.phys, OLD) == Home(p.ids, p.phys, NEXT) == reg
  {
    hide Planned, SelectAll, Stacked, LowFirst, LowNodes, Represents, CoalesceAll, RepAll, Simple, EdgesPresent,
      EdgesDropped, AllMoves;
    PlanFacts(p);
    NoEdgeLeft(p);
    OneMovePair(p.ids);
    PoolFacts();
    var i, j, c := p.ids[OLD], p.ids[NEXT], Looked(p);
    OneMove(c, 20, p.graph, j, i);
    var m := Merged(p, 20);
    MergedAlone(p.graph, j, i);
    assert m.adj == map[i := {}] && m.merged == map[j := i];
    assert m.adj.Keys - p.pre.Keys == {i};
    LoneNode(m.adj, c, i, order, chosen);
    assert SameAt(p.phys, SelectAll(m.adj, c, order, chosen, ColorPool()), i);
    assert j in m.merged && m.merged[j] == i && j in p.phys;
    assert SameColour(Stand(p, 20), p.phys, j);
    reg := RegName(p.phys[i]);
  }

  lemma MergedAlone(g: Adjacency, j: nat, i: nat)
    requires i != j && g == map[i := {}, j := {}]
    ensures Merge(g, j, i) == map[i := {}]
  {
    var b := Merge(g, j, i);
    assert b.Keys == {i} && b[i] == {};
  }

  // ---- The run that goes wrong ----

  lemma BodyInSteps(w: World, b: seq<Instr>, s: State)
    requires b != []
    ensures ExecAll(w, b, s) == match Exec(w, b[0], s)
      case None => None
      case Some(t) => if |b| == 1 then Some(t) else ExecAll(w, b[1..], t)
    ensures ExecAllLosing(w, b, s) == match ExecLosing(w, b[0], s)
      case None => None
      case Some(t) => if |b| == 1 then Some(t) else ExecAllLosing(w, b[1..], t)
  {
    hide Exec, ExecLosing;
  }

  lemma LookupOne(env: Env, o: Operand, v: Int32)
    requires Lookup(env, o) == Some(v)
    ensures LookupAll(env, [o]) == Some([v])
  {
    var os, vs: seq<Int32> := [o], [];
    assert os[1..] == [];
    assert LookupAll(env, os[1..]) == Some(vs) && [v] + vs == [v];
  }

  lemma AddOne(x: Name, o: Name, w: World, s: State)
    requires o in s.env && s.env[o] == 0
    ensures Exec(w, Arith(x, Add, false, Var(o), Const(1)), s) == Some(s.(env := s.env[x := 1]))
  {
    var os := [Var(o), Const(1)];
    assert os[1..] == [Const(1)] && [0] + [1] == [0, 1];
    LookupOne(s.env, Const(1), 1);
    assert LookupAll(s.env, os) == Some([0, 1]);
  }

  lemma Printed(o: Name, w: World, s: State)
    requires o in s.env
    ensures Exec(w, Effect(None, Call("print"), [Var(o)]), s) ==
      Some(State(s.env, s.history + [Event(Call("print"), [s.env[o]])]))
  {
    LookupOne(s.env, Var(o), s.env[o]);
  }

  /** The original prints 0. */
  lemma PrintsZero(w: World)
    ensures Runs(w, Counting(), Start(map[]), 1) == Left(None, [Event(Call("print"), [0])])
  {
    var f, s := Counting(), State(map[], []);
    assert Runs(w, f, Start(map[]), 0) == At(0, s);
    var b := f[0].body;
    BodyInSteps(w, b, s);
    BodyInSteps(w, b[1..], State(map[OLD := 0], []));
    assert b[1..][0] == b[1] && b[1..][1..] == b[2..] && b[2..][0] == b[2] && b[2..][1..] == b[3..] &&
        b[3..][0] == b[3];
    var s1 := State(map[OLD := 0], []);
    assert Exec(w, f[0].body[0], s) == Some(s1);
    AddOne(NEXT, OLD, w, s1);
    var s2 := State(s1.env[NEXT := 1], []);
    assert OLD[1] == 'i' && NEXT[1] == 'j';
    BodyInSteps(w, b[2..], s2);
    Printed(OLD, w, s2);
    assert [] + [Event(Call("print"), [0])] == [Event(Call("print"), [0])];
    BodyInSteps(w, b[3..], State(s2.env, [Event(Call("print"), [0])]));
  }

  lemma LosingBasic(w: World, i: Instr, s: State)
    requires !i.Effect?
    ensures ExecLosing(w, i, s) == Exec(w, i, s)
  {
  }

  /** With both variables in one register the allocated function prints 1. */
  lemma PrintsOne(w: World, r: Func, p: Plan, reg: Name)
    requires Allocated(Counting(), p.ids, p.phys, r)
    requires Home(p.ids, p.phys, OLD) == Home(p.ids, p.phys, NEXT) == reg
    ensures !SameOutcome(Runs(w, Counting(), Start(map[]), 1), RunsLosing(w, r, Start(map[]), 1))
  {
    hide Home, Exec, ExecLosing, RegName;
    PrintsZero(w);
    var b, s := r[0].body, State(map[], []);
    PlacedBodyIs(r, p, reg);
    assert RunsLosing(w, r, Start(map[]), 0) == At(0, s);
    assert b[1..][0] == b[1] && b[1..][1..] == b[2..] && b[2..][0] == b[2] && b[2..][1..] == b[3..] &&
        b[3..][0] == b[3];
    BodyInSteps(w, b, s);
    LosingBasic(w, b[0], s);
    var s1 := State(map[reg := 0], []);
    MoveZero(w, reg, s);
    BodyInSteps(w, b[1..], s1);
    LosingBasic(w, b[1], s1);
    AddOne(reg, reg, w, s1);
    var s2 := State(s1.env[reg := 1], []);
    Printed(reg, w, s2);
    assert [] + [Event(Call("print"), [1])] == [Event(Call("print"), [1])];
    BodyInSteps(w, b[2..], s2);
    PrintLosing(w, b[2], s2);
    var s3 := ExecLosing(w, b[2], s2).value;
    BodyInSteps(w, b[3..], s3);
    LosingBasic(w, b[3], s3);
    MoveHistory(w, b[3], s3);
    assert Event(Call("print"), [1]).args[0] == 1;
  }

  lemma MoveZero(w: World, reg: Name, s: State)
    requires s == State(map[], [])
    ensures Exec(w, Move(reg, Const(0)), s) == Some(State(map[reg := 0], []))
  {
  }

  lemma MoveHistory(w: World, i: Instr, s: State)
    requires i.Move?
    ensures Exec(w, i, s).Some? && Exec(w, i, s).value.history == s.history
  {
  }

  lemma PrintLosing(w: World, i: Instr, s: State)
    requires i.Effect? && Exec(w, i, s).Some?
    ensures ExecLosing(w, i, s).Some? && ExecLosing(w, i, s).value.history == Exec(w, i, s).value.history
  {
  }

  lemma PlacedBodyIs(r: Func, p: Plan, reg: Name)
    requires Allocated(Counting(), p.ids, p.phys, r)
    requires Home(p.ids, p.phys, OLD) == Home(p.ids, p.phys, NEXT) == reg
    ensures |r| == 1 && r[0].term == Return(None) && r[0].body == [Move(reg, Const(0)),
      Arith(reg, Add, false, Var(reg), Const(1)), Effect(None, Call("print"), [Var(reg)]), Move(reg, Var(reg))]
  {
    hide Home;
    assert r[0] == PlacedBlock(Counting()[0], p.ids, p.phys);
    assert MapOperands([Var(OLD)], HomeOf(p.ids, p.phys)) == [Var(reg)];
  }

  /** The allocator run on the example with the pool of functions with calls: the edge between the two variables is
   * entered and taken out again, they share a register, and the function prints the wrong value. */
  method AllocateCounting() returns (r: Func, ghost p: Plan)
    ensures Allocated(Counting(), p.ids, p.phys, r) && Both(p.ids) && !DropsSafe(Counting(), p)
    ensures Adjacent(p.full, p.ids[NEXT], p.ids[OLD]) && !Adjacent(p.graph, p.ids[NEXT], p.ids[OLD])
    ensures forall w: World :: !SameOutcome(Runs(w, Counting(), Start(map[]), 1), RunsLosing(w, r, Start(map[]), 1))
  {
    hide Planned, ColouredBy, Allocated, Acceptable, StartsInPlace, CallSafe, DropsSafe, Runs, RunsLosing, Counting,
      Both;
    CountingAcceptable();
    ghost var order, chosen;
    r, p, order, chosen := Visit(Counting(), [], ColorPool());
    ghost var reg := SameRegister(p, order, chosen);
    StillNeeded(p);
    EdgeEntered(p);
    NoEdgeLeft(p);
    forall w: World
      ensures !SameOutcome(Runs(w, Counting(), Start(map[]), 1), RunsLosing(w, r, Start(map[]), 1))
    {
      PrintsOne(w, r, p, reg);
    }
  }
}
