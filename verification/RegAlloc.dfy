/** Register allocation: instruction-level liveness, interference edges, and the renaming of variables to registers. */
module RegisterAllocation {
  import opened Graphs
  import opened IR
  import opened Liveness
  import opened InterferenceGraphs
  import opened PhiElimination

  /** Variable numbers. */
  type Ids = map<Name, nat>

  ghost predicate InjectiveIds(ids: Ids) {
    forall x, y :: x in ids && y in ids && ids[x] == ids[y] ==> x == y
  }

  function IdOf(ids: Ids, x: Name): set<nat> {
    if x in ids then {ids[x]} else {}
  }

  // ---- Definitions and uses ----

  /** Item `k` of a block is an instruction of the body, or the terminator for `k == |body|`. */
  function ItemDefs(ids: Ids, blk: Block, k: nat): set<nat> {
    if k < |blk.body| && Target(blk.body[k]).Some? then IdOf(ids, Target(blk.body[k]).value) else {}
  }

  function ItemOperands(blk: Block, k: nat): seq<Operand> {
    if k < |blk.body| then Uses(blk.body[k]) else if k == |blk.body| then TermUses(blk.term) else []
  }

  function OperandIds(ids: Ids, os: seq<Operand>): (s: set<nat>)
    ensures forall v :: v in s <==> exists k :: 0 <= k < |os| && UsesId(ids, os[k], v)
  {
    if os == [] then {}
    else
      var rest := OperandIds(ids, os[..|os| - 1]);
      assert os == os[..|os| - 1] + [os[|os| - 1]];
      rest + if os[|os| - 1].Var? then IdOf(ids, os[|os| - 1].name) else {}
  }

  predicate UsesId(ids: Ids, o: Operand, v: nat) {
    o.Var? && o.name in ids && ids[o.name] == v
  }

  function ItemUses(ids: Ids, blk: Block, k: nat): set<nat> {
    OperandIds(ids, ItemOperands(blk, k))
  }

  /** The source of a move, which may share a register with its target. */
  function MoveSource(ids: Ids, blk: Block, k: nat): set<nat> {
    if k < |blk.body| && blk.body[k].Move? then ItemUses(ids, blk, k) else {}
  }

  /** Some item from `k` on uses `v` and no item in between defines it. */
  ghost predicate UsedFrom(ids: Ids, blk: Block, k: nat, v: nat) {
    exists j :: k <= j <= |blk.body| && v in ItemUses(ids, blk, j) && NotDefined(ids, blk, k, j, v)
  }

  ghost predicate NotDefined(ids: Ids, blk: Block, k: nat, j: nat, v: nat) {
    forall i: nat :: k <= i < j ==> v !in ItemDefs(ids, blk, i)
  }

  /** The upward-exposed uses and the definitions of a block, gathered item by item. */
  method BlockUseDef(ids: Ids, blk: Block) returns (use: set<nat>, def: set<nat>)
    ensures forall v :: v in use <==> UsedFrom(ids, blk, 0, v)
    ensures forall v :: v !in def <==> NotDefined(ids, blk, 0, |blk.body| + 1, v)
  {
    hide ItemUses, ItemDefs;
    use, def := {}, {};
    for k := 0 to |blk.body| + 1
      invariant forall v :: v in use <==> exists j ::
          0 <= j < k && v in ItemUses(ids, blk, j) &&
          NotDefined(ids, blk, 0, j, v)
      invariant forall v :: v !in def <==> NotDefined(ids, blk, 0, k, v)
    {
      ghost var use0, def0 := use, def;
      use := use + (ItemUses(ids, blk, k) - def);
      def := def + ItemDefs(ids, blk, k);
      forall v
        ensures v !in def <==> NotDefined(ids, blk, 0, k + 1, v)
      {
        assert NotDefined(ids, blk, 0, k + 1, v) <==> NotDefined(ids, blk, 0, k, v) && v !in ItemDefs(ids, blk, k);
      }
    }
  }

  // ---- The reverse scan ----

  /** The tracked variables live before item `k`, found going backwards from those live at the end of the block. */
  ghost function LiveBefore(ids: Ids, tracked: set<nat>, blk: Block, k: nat, out: set<nat>): set<nat>
    decreases |blk.body| + 1 - k
  {
    if k > |blk.body| then out * tracked
    else LiveBefore(ids, tracked, blk, k + 1, out) - ItemDefs(ids, blk, k) + ItemUses(ids, blk, k) * tracked
  }

  /** The scan is exact at every item: used later before any definition, or live at the end and not defined. */
  lemma {:induction false} LiveBeforeExact(ids: Ids, tracked: set<nat>, blk: Block, k: nat, out: set<nat>, v: nat)
    requires k <= |blk.body| + 1
    ensures v in LiveBefore(ids, tracked, blk, k, out) <==>
      v in tracked && (UsedFrom(ids, blk, k, v) || (v in out && NotDefined(ids, blk, k, |blk.body| + 1, v)))
    decreases |blk.body| + 1 - k
  {
    hide ItemUses, ItemDefs;
    if k <= |blk.body| {
      LiveBeforeExact(ids, tracked, blk, k + 1, out, v);
      forall j: nat | k < j
        ensures NotDefined(ids, blk, k, j, v) <==> v !in ItemDefs(ids, blk, k) && NotDefined(ids, blk, k + 1, j, v)
      {
      }
      assert NotDefined(ids, blk, k, k, v);
      if v in ItemUses(ids, blk, k) {
        assert UsedFrom(ids, blk, k, v);
      }
      assert UsedFrom(ids, blk, k, v) <==>
          v in ItemUses(ids, blk, k) ||
          (v !in ItemDefs(ids, blk, k) && UsedFrom(ids, blk, k + 1, v));
    }
  }

  lemma {:induction false} LiveIsTracked(ids: Ids, tracked: set<nat>, blk: Block, k: nat, out: set<nat>)
    ensures LiveBefore(ids, tracked, blk, k, out) <= tracked
    decreases |blk.body| + 1 - k
  {
    if k <= |blk.body| {
      LiveIsTracked(ids, tracked, blk, k + 1, out);
    }
  }

  /** At the start of a block the scan gives the tracked part of IN. */
  lemma LiveAtStart(ids: Ids, tracked: set<nat>, blk: Block, use: set<nat>, def: set<nat>, out: set<nat>)
    requires forall v :: v in use <==> UsedFrom(ids, blk, 0, v)
    requires forall v :: v !in def <==> NotDefined(ids, blk, 0, |blk.body| + 1, v)
    ensures LiveBefore(ids, tracked, blk, 0, out) == (use + (out - def)) * tracked
  {
    forall v
      ensures v in LiveBefore(ids, tracked, blk, 0, out) <==> v in (use + (out - def)) * tracked
    {
      LiveBeforeExact(ids, tracked, blk, 0, out, v);
    }
  }

  // ---- Where variables live ----

  function RegName(r: nat): Name {
    "x" + Decimal(r)
  }

  /** The register of a coloured variable; any other variable stays in its own place. */
  function Home(ids: Ids, phys: map<nat, nat>, x: Name): Name {
    if x in ids && ids[x] in phys then RegName(phys[ids[x]]) else x
  }

  predicate IsVariable(x: Name) {
    |x| > 0 && x[0] == '%'
  }

  predicate Coloured(ids: Ids, phys: map<nat, nat>, x: Name) {
    x in ids && ids[x] in phys
  }

  /** Two variables share a place only if they have the same register. */
  lemma HomesDiffer(ids: Ids, phys: map<nat, nat>, x: Name, y: Name)
    requires IsVariable(x) && IsVariable(y) && Home(ids, phys, x) == Home(ids, phys, y)
    ensures x == y || (Coloured(ids, phys, x) && Coloured(ids, phys, y) && phys[ids[x]] == phys[ids[y]])
  {
    if Coloured(ids, phys, x) && Coloured(ids, phys, y) {
      var m, n := phys[ids[x]], phys[ids[y]];
      assert RegName(m)[1..] == Decimal(m) && RegName(n)[1..] == Decimal(n);
      DecimalInjective(m, n);
    }
  }

  function HomeOf(ids: Ids, phys: map<nat, nat>): Operand -> Operand {
    (o: Operand) => match o case Const(_) => o case Var(x) => Var(Home(ids, phys, x))
  }

  /** The instruction with its operands and its result in their places. */
  function Placed(i: Instr, ids: Ids, phys: map<nat, nat>): Instr {
    var j := MapUses(i, HomeOf(ids, phys));
    if Target(i).Some? then WithTarget(j, Home(ids, phys, Target(i).value)) else j
  }

  function PlacedBlock(blk: Block, ids: Ids, phys: map<nat, nat>): Block {
    Block([], seq(|blk.body|, k requires 0 <= k < |blk.body| => Placed(blk.body[k], ids, phys)),
      MapTermUses(blk.term, HomeOf(ids, phys)))
  }

  ghost predicate Allocated(f: Func, ids: Ids, phys: map<nat, nat>, r: Func) {
    |r| == |f| && forall b :: 0 <= b < |f| ==> r[b] == PlacedBlock(f[b], ids, phys)
  }

  // ---- Runs that lose t5 at calls ----

  predicate IsCall(i: Instr) {
    i.Effect? && i.effect.Call?
  }

  /** A callee may overwrite t5, which neither it nor its caller saves. */
  function Clobbered(i: Instr, s: State): State {
    if IsCall(i) && Target(i) != Some(RegName(T5)) then s.(env := s.env - {RegName(T5)}) else s
  }

  function ExecLosing(w: World, i: Instr, s: State): Option<State> {
    match Exec(w, i, s)
    case None => None
    case Some(t) => Some(Clobbered(i, t))
  }

  function ExecAllLosing(w: World, body: seq<Instr>, s: State): Option<State> {
    if body == [] then Some(s)
    else match ExecLosing(w, body[0], s)
      case None => None
      case Some(t) => ExecAllLosing(w, body[1..], t)
  }

  /** A block of a function without phis. */
  function StepLosing(w: World, f: Func, c: Config): Config {
    match c
    case At(b, s) =>
      if b >= |f| then Stuck
      else
        (match ExecAllLosing(w, f[b].body, s)
         case None => Stuck
         case Some(t) =>
           match Follow(f[b].term, t.env)
           case Undefined => Stuck
           case Leave(r) => Left(r, t.history)
           case Goto(v) => if v >= |f| then Stuck else At(v, t))
    case _ => c
  }

  function RunsLosing(w: World, f: Func, c: Config, n: nat): Config {
    if n == 0 then c else StepLosing(w, f, RunsLosing(w, f, c, n - 1))
  }

  // ---- Runs with variables in their places ----

  /** The place of `x` holds its value. */
  predicate InPlace(ids: Ids, phys: map<nat, nat>, env: Env, env': Env, x: Name) {
    x in env && Home(ids, phys, x) in env' && env'[Home(ids, phys, x)] == env[x]
  }

  predicate Matters(ids: Ids, phys: map<nat, nat>, live: set<nat>, x: Name) {
    IsVariable(x) && (Coloured(ids, phys, x) ==> ids[x] in live)
  }

  /** Every defined variable is in its place, except coloured ones that are dead. */
  ghost predicate Held(ids: Ids, phys: map<nat, nat>, live: set<nat>, env: Env, env': Env) {
    forall x :: x in env && Matters(ids, phys, live, x) ==> InPlace(ids, phys, env, env', x)
  }

  /** Item `k` defines `d` while `v` is live before it, and does not copy `v`. */
  ghost predicate ItemEdge(ids: Ids, tracked: set<nat>, promotable: set<nat>, blk: Block, out: set<nat>, k: nat,
      d: nat, v: nat) {
    && k < |blk.body| && d in ItemDefs(ids, blk, k) && d in promotable
    && v in LiveBefore(ids, tracked, blk, k, out) && v != d && v !in MoveSource(ids, blk, k)
  }

  /** The edges that the scan of one block must leave in the graph. */
  ghost predicate EdgesPresent(a: Adjacency, ids: Ids, tracked: set<nat>, promotable: set<nat>, blk: Block,
      out: set<nat>, from: nat) {
    forall k: nat, d, v :: from <= k && ItemEdge(ids, tracked, promotable, blk, out, k, d, v) ==> Adjacent(a, d, v)
  }

  /** Item `k` writes `d` while `v` is needed afterwards, and does not copy `v`. */
  ghost predicate Clash(ids: Ids, tracked: set<nat>, promotable: set<nat>, blk: Block, out: set<nat>, k: nat,
      d: nat, v: nat) {
    && k < |blk.body| && d in ItemDefs(ids, blk, k) && d in promotable
    && v in LiveBefore(ids, tracked, blk, k + 1, out) && v != d && v !in MoveSource(ids, blk, k)
  }

  /** What is needed afterwards is live before as well, so the scan enters an edge. */
  lemma ClashIsEdge(ids: Ids, tracked: set<nat>, promotable: set<nat>, blk: Block, out: set<nat>, k: nat, d: nat,
      v: nat)
    requires Clash(ids, tracked, promotable, blk, out, k, d, v)
    ensures ItemEdge(ids, tracked, promotable, blk, out, k, d, v)
  {
  }

  /** The variable is live after a call of the block and is not its result. */
  ghost predicate AcrossCall(ids: Ids, tracked: set<nat>, blk: Block, out: set<nat>, v: nat) {
    exists k :: CrossesCall(ids, tracked, blk, out, k, v)
  }

  ghost predicate CrossesCall(ids: Ids, tracked: set<nat>, blk: Block, out: set<nat>, k: nat, v: nat) {
    k < |blk.body| && IsCall(blk.body[k]) && v in LiveBefore(ids, tracked, blk, k + 1, out) &&
      v !in ItemDefs(ids, blk, k)
  }

  predicate NamesOk(blk: Block, ids: Ids) {
    && (forall k :: 0 <= k < |blk.body| && Target(blk.body[k]).Some? ==> NameOk(ids, Target(blk.body[k]).value))
    && (forall k, j :: 0 <= k <= |blk.body| && 0 <= j < |ItemOperands(blk, k)| ==>
      OperandOk(ids, ItemOperands(blk, k)[j]))
  }

  predicate NameOk(ids: Ids, x: Name) {
    IsVariable(x) && x in ids
  }

  predicate OperandOk(ids: Ids, o: Operand) {
    o.Var? ==> NameOk(ids, o.name)
  }

  /** A colouring: the graph as scanned and the graph to colour, the variable numbers, which variables are tracked and
   * which may be given a register, those with fixed registers, those live across calls, the moves, what is live at the
   * end of each block, and the registers. */
  datatype Plan = Plan(full: Adjacency, graph: Adjacency, ids: Ids, tracked: set<nat>, promotable: set<nat>,
    pre: map<nat, nat>, crossing: set<nat>, moves: seq<(nat, nat)>, outs: seq<set<nat>>, phys: map<nat, nat>)

  /** No register is written while it holds another variable that is needed afterwards. */
  ghost predicate Apart(p: Plan, blk: Block, out: set<nat>) {
    forall k: nat, d, v :: Clash(p.ids, p.tracked, p.promotable, blk, out, k, d, v) && d in p.phys && v in p.phys ==>
        p.phys[d] != p.phys[v]
  }

  /** What the run of one block relies on. */
  ghost predicate WellPlaced(p: Plan, blk: Block, out: set<nat>) {
    && InjectiveIds(p.ids) && NamesOk(blk, p.ids) && p.phys.Keys <= p.tracked && Apart(p, blk, out)
    && (forall k, d :: 0 <= k < |blk.body| && d in ItemDefs(p.ids, blk, k) && d in p.phys ==> d in p.promotable)
    && (forall v :: AcrossCall(p.ids, p.tracked, blk, out, v) && v in p.phys ==> p.phys[v] != T5)
  }

  lemma OperandHeld(ids: Ids, phys: map<nat, nat>, live: set<nat>, env: Env, env': Env, o: Operand)
    requires Held(ids, phys, live, env, env') && OperandOk(ids, o) && Lookup(env, o).Some?
    requires o.Var? && Coloured(ids, phys, o.name) ==> ids[o.name] in live
    ensures Lookup(env', HomeOf(ids, phys)(o)) == Lookup(env, o)
  {
    if o.Var? {
      assert Matters(ids, phys, live, o.name);
      assert InPlace(ids, phys, env, env', o.name);
    }
  }

  lemma {:induction false} OperandsHeld(ids: Ids, phys: map<nat, nat>, live: set<nat>, env: Env, env': Env,
      os: seq<Operand>)
    requires Held(ids, phys, live, env, env') && LookupAll(env, os).Some?
    requires forall k :: 0 <= k < |os| ==> OperandOk(ids, os[k])
    requires forall k :: 0 <= k < |os| && os[k].Var? && Coloured(ids, phys, os[k].name) ==> ids[os[k].name] in live
    ensures LookupAll(env', MapOperands(os, HomeOf(ids, phys))) == LookupAll(env, os)
  {
    hide Held, OperandOk, HomeOf;
    if os != [] {
      OperandHeld(ids, phys, live, env, env', os[0]);
      OperandsHeld(ids, phys, live, env, env', os[1..]);
      assert MapOperands(os, HomeOf(ids, phys))[1..] == MapOperands(os[1..], HomeOf(ids, phys));
    }
  }

  /** The operands of item `k` are live before it. */
  lemma OperandsLive(ids: Ids, tracked: set<nat>, phys: map<nat, nat>, blk: Block, k: nat, out: set<nat>)
    requires NamesOk(blk, ids) && k <= |blk.body| && phys.Keys <= tracked
    ensures forall j :: 0 <= j < |ItemOperands(blk, k)| ==> OperandOk(ids, ItemOperands(blk, k)[j])
    ensures var os := ItemOperands(blk, k);
      forall j :: 0 <= j < |os| && os[j].Var? && Coloured(ids, phys, os[j].name) ==>
          ids[os[j].name] in LiveBefore(ids, tracked, blk, k, out)
  {
    var os := ItemOperands(blk, k);
    forall j | 0 <= j < |os| && os[j].Var? && Coloured(ids, phys, os[j].name)
      ensures ids[os[j].name] in LiveBefore(ids, tracked, blk, k, out)
    {
      assert UsesId(ids, os[j], ids[os[j].name]);
    }
  }

  lemma OneDef(ids: Ids, blk: Block, k: nat, d: Name)
    requires k < |blk.body| && Target(blk.body[k]) == Some(d) && d in ids
    ensures ItemDefs(ids, blk, k) == {ids[d]}
  {
  }

  /** Writing the result of item `k` destroys no variable that is still needed. */
  lemma WriteHeld(p: Plan, blk: Block, out: set<nat>, k: nat,
                  env: Env, env': Env, d: Name, v: Option<Int32>, v': Option<Int32>)
    requires WellPlaced(p, blk, out) && k < |blk.body| && Target(blk.body[k]) == Some(d)
    requires Held(p.ids, p.phys, LiveBefore(p.ids, p.tracked, blk, k, out), env, env')
    requires v.Some? ==> v' == v
    requires blk.body[k].Move? ==> v == Lookup(env, blk.body[k].arg)
    ensures Held(p.ids, p.phys, LiveBefore(p.ids, p.tracked, blk, k + 1, out), Assign(env, d, v),
        Assign(env', Home(p.ids, p.phys, d), v'))
  {
    hide LiveBefore, Apart, InjectiveIds, ItemDefs, MoveSource, Home;
    var live, next := LiveBefore(p.ids, p.tracked, blk, k, out), LiveBefore(p.ids, p.tracked, blk, k + 1, out);
    var env1, env1' := Assign(env, d, v), Assign(env', Home(p.ids, p.phys, d), v');
    assert NameOk(p.ids, d);
    OneDef(p.ids, blk, k, d);
    forall x | x in env1 && Matters(p.ids, p.phys, next, x)
      ensures InPlace(p.ids, p.phys, env1, env1', x)
    {
      assert Lookup(env1, Var(x)).Some?;
      if x != d {
        assert Lookup(env1, Var(x)) == Lookup(env, Var(x));
        StillLive(p.ids, p.tracked, p.phys, blk, k, out, x, d);
        assert InPlace(p.ids, p.phys, env, env', x);
        if Home(p.ids, p.phys, x) == Home(p.ids, p.phys, d) {
          SharedPlace(p, blk, out, k, x, d);
        } else {
          assert Lookup(env1', Var(Home(p.ids, p.phys, x))) == Lookup(env', Var(Home(p.ids, p.phys, x)));
        }
      }
    }
  }

  lemma StillLive(ids: Ids, tracked: set<nat>, phys: map<nat, nat>, blk: Block, k: nat, out: set<nat>, x: Name, d: Name)
    requires InjectiveIds(ids) && k < |blk.body| && Target(blk.body[k]) == Some(d) && x != d && d in ids
    requires Matters(ids, phys, LiveBefore(ids, tracked, blk, k + 1, out), x)
    ensures Matters(ids, phys, LiveBefore(ids, tracked, blk, k, out), x)
  {
  }

  /** Only the source of a move may still be needed in the place that is written. */
  lemma SharedPlace(p: Plan, blk: Block, out: set<nat>, k: nat, x: Name, d: Name)
    requires WellPlaced(p, blk, out) && k < |blk.body| && Target(blk.body[k]) == Some(d) && x != d
    requires Matters(p.ids, p.phys, LiveBefore(p.ids, p.tracked, blk, k + 1, out), x) &&
        Home(p.ids, p.phys, x) == Home(p.ids, p.phys, d)
    ensures blk.body[k].Move? && blk.body[k].arg == Var(x)
  {
    hide LiveBefore, Home;
    assert NameOk(p.ids, d);
    HomesDiffer(p.ids, p.phys, x, d);
    assert p.ids[d] in ItemDefs(p.ids, blk, k);
    assert !Clash(p.ids, p.tracked, p.promotable, blk, out, k, p.ids[d], p.ids[x]);
    assert p.ids[x] in MoveSource(p.ids, blk, k);
    MoveSourceIs(p.ids, blk, k, x);
  }

  lemma MoveSourceIs(ids: Ids, blk: Block, k: nat, x: Name)
    requires InjectiveIds(ids) && k < |blk.body| && x in ids && ids[x] in MoveSource(ids, blk, k)
    ensures blk.body[k].Move? && blk.body[k].arg == Var(x)
  {
    var os := ItemOperands(blk, k);
    var j :| 0 <= j < |os| && UsesId(ids, os[j], ids[x]);
    assert os == [blk.body[k].arg];
  }

  /** After item `k`, the placed run has the same events, and what is still needed is in its place. */
  ghost predicate PlacedStep(p: Plan, blk: Block, out: set<nat>, k: nat, w: World, s: State, t: State) {
    k < |blk.body| && Exec(w, blk.body[k], s).Some? &&
    var s', t' := Exec(w, blk.body[k], s).value, ExecLosing(w, Placed(blk.body[k], p.ids, p.phys), t);
    t'.Some? && t'.value.history == s'.history && Held(p.ids, p.phys, LiveBefore(p.ids, p.tracked, blk, k + 1, out),
      s'.env, t'.value.env)
  }

  /** What is needed before item `k` is in its place. */
  ghost predicate Ready(p: Plan, blk: Block, out: set<nat>, k: nat, s: State, t: State) {
    WellPlaced(p, blk, out) && k <= |blk.body| && Held(p.ids, p.phys, LiveBefore(p.ids, p.tracked, blk, k, out), s.env,
      t.env) && s.history == t.history
  }

  lemma WellPlacedFacts(p: Plan, blk: Block, out: set<nat>)
    requires WellPlaced(p, blk, out)
    ensures NamesOk(blk, p.ids) && p.phys.Keys <= p.tracked
  {
  }

  lemma PlacedMove(p: Plan, blk: Block, out: set<nat>, k: nat, w: World, s: State, t: State)
    requires Ready(p, blk, out, k, s, t) && k < |blk.body| && blk.body[k].Move?
    ensures PlacedStep(p, blk, out, k, w, s, t)
  {
    hide LiveBefore, WellPlaced, ItemDefs, MoveSource, Home, Held, HomeOf, Compute, NamesOk;
    WellPlacedFacts(p, blk, out);
    OperandsLive(p.ids, p.tracked, p.phys, blk, k, out);
    var d, o := blk.body[k].result, blk.body[k].arg;
    assert ItemOperands(blk, k)[0] == o;
    if Lookup(s.env, o).Some? {
      OperandHeld(p.ids, p.phys, LiveBefore(p.ids, p.tracked, blk, k, out), s.env, t.env, o);
    }
    WriteHeld(p, blk, out, k, s.env, t.env, d, Lookup(s.env, o), Lookup(t.env, HomeOf(p.ids, p.phys)(o)));
  }

  lemma PlacedEffect(p: Plan, blk: Block, out: set<nat>, k: nat, w: World, s: State, t: State)
    requires Ready(p, blk, out, k, s, t) && k < |blk.body| && blk.body[k].Effect? && Exec(w, blk.body[k], s).Some?
    ensures PlacedStep(p, blk, out, k, w, s, t)
  {
    hide LiveBefore, WellPlaced, ItemDefs, MoveSource, Home, Held, HomeOf, Compute, NamesOk;
    WellPlacedFacts(p, blk, out);
    OperandsLive(p.ids, p.tracked, p.phys, blk, k, out);
    var i := blk.body[k];
    assert ItemOperands(blk, k) == Uses(i);
    OperandsHeld(p.ids, p.phys, LiveBefore(p.ids, p.tracked, blk, k, out), s.env, t.env, i.args);
    var s' := Exec(w, i, s).value;
    var t' := Exec(w, Placed(i, p.ids, p.phys), t).value;
    if i.target.Some? {
      var v := w(s.history + [Event(i.effect, LookupAll(s.env, i.args).value)]);
      WriteHeld(p, blk, out, k, s.env, t.env, i.target.value, Some(v), Some(v));
    } else {
      NoWriteHeld(p.ids, p.tracked, p.phys, blk, k, out, s.env, t.env);
    }
    if IsCall(i) && Target(Placed(i, p.ids, p.phys)) != Some(RegName(T5)) {
      LosingHeld(p, blk, out, k, s'.env, t'.env);
    }
  }

  /** Losing t5 at a call destroys nothing that is still needed. */
  lemma LosingHeld(p: Plan, blk: Block, out: set<nat>, k: nat, env: Env, env': Env)
    requires WellPlaced(p, blk, out) && k < |blk.body| && IsCall(blk.body[k]) &&
        Target(Placed(blk.body[k], p.ids, p.phys)) != Some(RegName(T5))
    requires Held(p.ids, p.phys, LiveBefore(p.ids, p.tracked, blk, k + 1, out), env, env')
    ensures Held(p.ids, p.phys, LiveBefore(p.ids, p.tracked, blk, k + 1, out), env, env' - {RegName(T5)})
  {
    hide LiveBefore, RegName, Home, WellPlaced, AcrossCall, Placed;
    forall x | x in env && Matters(p.ids, p.phys, LiveBefore(p.ids, p.tracked, blk, k + 1, out), x)
      ensures InPlace(p.ids, p.phys, env, env' - {RegName(T5)}, x)
    {
      assert InPlace(p.ids, p.phys, env, env', x);
      HomeNotT5(p, blk, out, k, x);
    }
  }

  /** What is needed after a call has its place outside t5. */
  lemma HomeNotT5(p: Plan, blk: Block, out: set<nat>, k: nat, x: Name)
    requires WellPlaced(p, blk, out) && k < |blk.body| && IsCall(blk.body[k]) &&
        Target(Placed(blk.body[k], p.ids, p.phys)) != Some(RegName(T5))
    requires Matters(p.ids, p.phys, LiveBefore(p.ids, p.tracked, blk, k + 1, out), x)
    ensures Home(p.ids, p.phys, x) != RegName(T5)
  {
    hide LiveBefore, RegName, Home, Placed;
    HomeInT5(p.ids, p.phys, x);
    if Coloured(p.ids, p.phys, x) {
      if p.ids[x] in ItemDefs(p.ids, blk, k) {
        ResultHome(p, blk, k, x);
      } else {
        CrossingNotT5(p, blk, out, k, x);
      }
    }
  }

  lemma CrossingNotT5(p: Plan, blk: Block, out: set<nat>, k: nat, x: Name)
    requires WellPlaced(p, blk, out) && k < |blk.body| && IsCall(blk.body[k]) && Coloured(p.ids, p.phys, x)
    requires p.ids[x] in LiveBefore(p.ids, p.tracked, blk, k + 1, out) && p.ids[x] !in ItemDefs(p.ids, blk, k)
    ensures p.phys[p.ids[x]] != T5
  {
    hide LiveBefore, ItemDefs;
    assert CrossesCall(p.ids, p.tracked, blk, out, k, p.ids[x]);
  }

  lemma HomeInT5(ids: Ids, phys: map<nat, nat>, x: Name)
    requires IsVariable(x)
    ensures Home(ids, phys, x) == RegName(T5) ==> Coloured(ids, phys, x) && phys[ids[x]] == T5
  {
    if Coloured(ids, phys, x) && Home(ids, phys, x) == RegName(T5) {
      var n := phys[ids[x]];
      assert RegName(n)[1..] == Decimal(n) && RegName(T5)[1..] == Decimal(T5);
      DecimalInjective(n, T5);
    }
  }

  lemma ResultHome(p: Plan, blk: Block, k: nat, x: Name)
    requires InjectiveIds(p.ids) && k < |blk.body| && x in p.ids && p.ids[x] in ItemDefs(p.ids, blk, k)
    ensures Target(Placed(blk.body[k], p.ids, p.phys)) == Some(Home(p.ids, p.phys, x))
  {
    hide Home;
  }

  lemma PlacedComputation(p: Plan, blk: Block, out: set<nat>, k: nat, w: World, s: State, t: State)
    requires Ready(p, blk, out, k, s, t) && k < |blk.body| && !blk.body[k].Effect? && !blk.body[k].Move? &&
        Exec(w, blk.body[k], s).Some?
    ensures PlacedStep(p, blk, out, k, w, s, t)
  {
    hide LiveBefore, WellPlaced, ItemDefs, MoveSource, Home, Held, HomeOf, Compute, NamesOk, Placed;
    WellPlacedFacts(p, blk, out);
    OperandsLive(p.ids, p.tracked, p.phys, blk, k, out);
    var i := blk.body[k];
    assert ItemOperands(blk, k) == Uses(i);
    OperandsHeld(p.ids, p.phys, LiveBefore(p.ids, p.tracked, blk, k, out), s.env, t.env, Uses(i));
    var vs := LookupAll(s.env, Uses(i)).value;
    SameCompute(i, p.ids, p.phys, vs);
    WriteHeld(p, blk, out, k, s.env, t.env, i.result, Compute(i, vs), Compute(i, vs));
  }

  /** One instruction and its placed form. */
  lemma PlacedExec(p: Plan, blk: Block, out: set<nat>, k: nat, w: World, s: State, t: State)
    requires Ready(p, blk, out, k, s, t) && k < |blk.body| && Exec(w, blk.body[k], s).Some?
    ensures PlacedStep(p, blk, out, k, w, s, t)
  {
    hide Ready, PlacedStep, Exec;
    match blk.body[k]
    case Move(_, _) => PlacedMove(p, blk, out, k, w, s, t);
    case Effect(_, _, _) => PlacedEffect(p, blk, out, k, w, s, t);
    case _ => PlacedComputation(p, blk, out, k, w, s, t);
  }

  lemma NoWriteHeld(ids: Ids, tracked: set<nat>, phys: map<nat, nat>, blk: Block, k: nat, out: set<nat>, env: Env,
      env': Env)
    requires k < |blk.body| && Target(blk.body[k]).None? &&
        Held(ids, phys, LiveBefore(ids, tracked, blk, k, out), env, env')
    ensures Held(ids, phys, LiveBefore(ids, tracked, blk, k + 1, out), env, env')
  {
    forall x | x in env && Matters(ids, phys, LiveBefore(ids, tracked, blk, k + 1, out), x)
      ensures InPlace(ids, phys, env, env', x)
    {
      assert Matters(ids, phys, LiveBefore(ids, tracked, blk, k, out), x);
    }
  }

  lemma SameCompute(i: Instr, ids: Ids, phys: map<nat, nat>, vs: seq<Int32>)
    requires !i.Effect? && !i.Move? && |vs| == |Uses(i)|
    ensures |Uses(Placed(i, ids, phys))| == |vs| && !Placed(i, ids, phys).Effect? && !Placed(i, ids, phys).Move?
    ensures Uses(Placed(i, ids, phys)) == MapOperands(Uses(i), HomeOf(ids, phys))
    ensures Compute(Placed(i, ids, phys), vs) == Compute(i, vs) && Placed(i, ids, phys).result ==
        Home(ids, phys, i.result)
  {
  }

  /** A whole body, item by item. */
  lemma {:induction false} PlacedBody(p: Plan, blk: Block, out: set<nat>, k: nat, w: World, s: State, t: State)
    requires Ready(p, blk, out, k, s, t) && ExecAll(w, blk.body[k..], s).Some?
    ensures var s', t' := ExecAll(w, blk.body[k..], s).value,
        ExecAllLosing(w, PlacedBlock(blk, p.ids, p.phys).body[k..], t);
      t'.Some? && Ready(p, blk, out, |blk.body|, s', t'.value)
    decreases |blk.body| - k
  {
    hide Exec, ExecLosing, Held, LiveBefore, WellPlaced, Placed;
    if k < |blk.body| {
      var body := PlacedBlock(blk, p.ids, p.phys).body;
      assert blk.body[k..][0] == blk.body[k] && blk.body[k..][1..] == blk.body[k + 1..];
      assert body[k..][0] == Placed(blk.body[k], p.ids, p.phys) && body[k..][1..] == body[k + 1..];
      PlacedExec(p, blk, out, k, w, s, t);
      PlacedBody(p, blk, out, k + 1, w, Exec(w, blk.body[k], s).value, ExecLosing(w, body[k], t).value);
    }
  }

  /** The terminator goes the same way, and what is live on leaving is in its place. */
  lemma PlacedTerm(p: Plan, blk: Block, out: set<nat>, s: State, t: State)
    requires Ready(p, blk, out, |blk.body|, s, t) && !Follow(blk.term, s.env).Undefined?
    ensures Follow(MapTermUses(blk.term, HomeOf(p.ids, p.phys)), t.env) == Follow(blk.term, s.env)
    ensures Held(p.ids, p.phys, out * p.tracked, s.env, t.env)
  {
    var n, live := |blk.body|, LiveBefore(p.ids, p.tracked, blk, |blk.body|, out);
    OperandsLive(p.ids, p.tracked, p.phys, blk, n, out);
    match blk.term {
      case Branch(c, _, _) =>
        assert ItemOperands(blk, n)[0] == c;
        OperandHeld(p.ids, p.phys, live, s.env, t.env, c);
      case Return(Some(o)) =>
        assert ItemOperands(blk, n)[0] == o;
        OperandHeld(p.ids, p.phys, live, s.env, t.env, o);
      case _ =>
    }
    assert LiveBefore(p.ids, p.tracked, blk, n + 1, out) == out * p.tracked && ItemDefs(p.ids, blk, n) == {};
    HeldLess(p.ids, p.phys, live, out * p.tracked, s.env, t.env);
  }

  lemma HeldLess(ids: Ids, phys: map<nat, nat>, live: set<nat>, less: set<nat>, env: Env, env': Env)
    requires Held(ids, phys, live, env, env') && less <= live
    ensures Held(ids, phys, less, env, env')
  {
    forall x | x in env && Matters(ids, phys, less, x)
      ensures InPlace(ids, phys, env, env', x)
    {
      assert Matters(ids, phys, live, x);
    }
  }

  /** The facts about a whole function: IN and OUT of every reachable block, and the colouring of every block. */
  ghost predicate Allocatable(f: Func, p: Plan, ins: seq<set<nat>>, outs: seq<set<nat>>) {
    && ValidTargets(f) && |ins| == |outs| == |f|
    && (forall b :: 0 <= b < |f| ==> f[b].phis == [])
    && (forall b: nat :: Reachable(Flow(f), 0, b) && b < |f| ==> BlockAllocatable(f, p, ins, outs, b))
  }

  ghost predicate BlockAllocatable(f: Func, p: Plan, ins: seq<set<nat>>, outs: seq<set<nat>>, b: nat) {
    && b < |f| && |ins| == |outs| == |f|
    && WellPlaced(p, f[b], outs[b])
    && LiveBefore(p.ids, p.tracked, f[b], 0, outs[b]) == ins[b] * p.tracked
    && (forall v :: v in Successors(f[b].term) && v < |f| ==> ins[v] <= outs[b])
  }

  /** At the start of a block, everything live there is in its place. */
  ghost predicate Together(p: Plan, ins: seq<set<nat>>, c: Config, d: Config) {
    match c
    case At(b, s) => b < |ins| && d.At? && d.block == b && d.state.history == s.history &&
      Held(p.ids, p.phys, ins[b] * p.tracked, s.env, d.state.env)
    case Left(_, _) => d == c
    case Stuck => true
  }

  lemma PlacedParts(blk: Block, ids: Ids, phys: map<nat, nat>)
    ensures PlacedBlock(blk, ids, phys).term == MapTermUses(blk.term, HomeOf(ids, phys)) &&
        PlacedBlock(blk, ids, phys).phis == []
  {
  }

  lemma PlacedBlockRuns(f: Func, p: Plan, ins: seq<set<nat>>, outs: seq<set<nat>>, r: Func, w: World, b: nat, s: State,
      t: State)
    requires Allocatable(f, p, ins, outs) && Allocated(f, p.ids, p.phys, r) && Reachable(Flow(f), 0, b)
    requires Together(p, ins, At(b, s), At(b, t))
    ensures Together(p, ins, StepBlock(w, f, At(b, s)), StepLosing(w, r, At(b, t)))
  {
    hide Held, WellPlaced, LiveBefore, PlacedBlock, Reachable;
    assert BlockAllocatable(f, p, ins, outs, b);
    assert r[b] == PlacedBlock(f[b], p.ids, p.phys);
    assert f[b].body[0..] == f[b].body && r[b].body[0..] == r[b].body;
    if ExecAll(w, f[b].body, s).Some? {
      PlacedBody(p, f[b], outs[b], 0, w, s, t);
      var s1, t1 := ExecAll(w, f[b].body, s).value, ExecAllLosing(w, r[b].body, t).value;
      if !Follow(f[b].term, s1.env).Undefined? {
        PlacedTerm(p, f[b], outs[b], s1, t1);
        PlacedParts(f[b], p.ids, p.phys);
        if Follow(f[b].term, s1.env).Goto? {
          var v := Follow(f[b].term, s1.env).block;
          assert v in Successors(f[b].term);
          assert v in Flow(f)[b];
          assert r[v] == PlacedBlock(f[v], p.ids, p.phys);
          PlacedParts(f[v], p.ids, p.phys);
          HeldLess(p.ids, p.phys, outs[b] * p.tracked, ins[v] * p.tracked, s1.env, t1.env);
        }
      }
    }
  }

  /** Every variable of the starting environment is in its place. */
  ghost predicate StartsInPlace(p: Plan, env: Env, env': Env) {
    forall x :: x in env && IsVariable(x) ==> InPlace(p.ids, p.phys, env, env', x)
  }

  lemma AllocatableTargets(f: Func, p: Plan, ins: seq<set<nat>>, outs: seq<set<nat>>)
    requires Allocatable(f, p, ins, outs)
    ensures ValidTargets(f)
  {
  }

  lemma StartTogether(f: Func, p: Plan, ins: seq<set<nat>>, outs: seq<set<nat>>, env: Env, env': Env)
    requires Allocatable(f, p, ins, outs) && StartsInPlace(p, env, env')
    ensures Together(p, ins, Start(env), Start(env'))
  {
  }

  lemma StoppedLosing(w: World, f: Func, c: Config)
    ensures !c.At? ==> StepLosing(w, f, c) == c
  {
  }

  /** The main result: the placed function does the same, block by block, as long as the original is defined. */
  lemma {:induction false} AllocationKeepsRuns(f: Func, p: Plan, ins: seq<set<nat>>, outs: seq<set<nat>>, r: Func,
      w: World, env: Env, env': Env, n: nat)
    requires Allocatable(f, p, ins, outs) && Allocated(f, p.ids, p.phys, r) && StartsInPlace(p, env, env')
    ensures Together(p, ins, Runs(w, f, Start(env), n), RunsLosing(w, r, Start(env'), n))
  {
    hide StepBlock, StepLosing, Allocated, BlockAllocatable, Held, Reachable, Allocatable, StartsInPlace;
    if n == 0 {
      StartTogether(f, p, ins, outs, env, env');
    } else {
      AllocationKeepsRuns(f, p, ins, outs, r, w, env, env', n - 1);
      var c, d := Runs(w, f, Start(env), n - 1), RunsLosing(w, r, Start(env'), n - 1);
      if c.At? {
        AllocatableTargets(f, p, ins, outs);
        VisitedReachable(f, w, env, n - 1);
        PlacedBlockRuns(f, p, ins, outs, r, w, c.block, c.state, d.state);
      } else {
        Stopped(w, f, c);
        StoppedLosing(w, r, d);
      }
    }
  }

  // ---- The pass ----

  /** Instructions whose result may be kept in a register. */
  predicate IsPromotable(i: Instr) {
    match i
    case Effect(t, op, _) => t.Some? && (op.Load? || op.Gep? || op.Call?)
    case _ => true
  }

  ghost predicate Grows(a: Adjacency, b: Adjacency, tracked: set<nat>) {
    && a.Keys <= b.Keys && (a.Keys <= tracked ==> b.Keys <= tracked)
    && forall x, y :: Adjacent(a, x, y) ==> Adjacent(b, x, y)
  }

  lemma GrowsTwice(a: Adjacency, b: Adjacency, c: Adjacency, tracked: set<nat>)
    requires Grows(a, b, tracked) && Grows(b, c, tracked)
    ensures Grows(a, c, tracked)
  {
  }

  lemma GrowsRefl(a: Adjacency, tracked: set<nat>)
    ensures Grows(a, a, tracked)
  {
  }

  lemma GrowsAdjacent(a: Adjacency, b: Adjacency, c: Adjacency, tracked: set<nat>, d: nat)
    requires Grows(a, b, tracked) && Grows(b, c, tracked)
    ensures forall v :: Adjacent(a, d, v) ==> Adjacent(c, d, v)
  {
  }

  lemma NodeGrows(a: Adjacency, u: nat, tracked: set<nat>)
    requires u in tracked
    ensures Grows(a, WithNode(a, u), tracked)
  {
  }

  lemma EdgeGrows(a: Adjacency, u: nat, v: nat, tracked: set<nat>)
    requires Simple(a) && u != v && u in tracked && v in tracked
    ensures Grows(a, WithEdge(a, u, v), tracked) && Adjacent(WithEdge(a, u, v), u, v)
    ensures forall x, y :: Adjacent(WithEdge(a, u, v), x, y) ==>
        Adjacent(a, x, y) || (x == u && y == v) ||
        (x == v && y == u)
  {
    WithEdgeAdds(a, u, v);
  }

  lemma EdgesStay(a: Adjacency, b: Adjacency, ids: Ids, tracked: set<nat>, promotable: set<nat>, blk: Block,
      out: set<nat>, from: nat)
    requires EdgesPresent(a, ids, tracked, promotable, blk, out, from) && Grows(a, b, tracked)
    ensures EdgesPresent(b, ids, tracked, promotable, blk, out, from)
  {
    hide ItemDefs, LiveBefore, MoveSource;
  }

  /** An edge between `d` and something else that is live and not the source of the move. */
  predicate Star(d: nat, live: set<nat>, moveSource: set<nat>, x: nat, y: nat) {
    (x == d && y in live && y != d && y !in moveSource) || (y == d && x in live && x != d && x !in moveSource)
  }

  lemma NodeEdges(a: Adjacency, u: nat)
    ensures forall x, y :: Adjacent(WithNode(a, u), x, y) <==> Adjacent(a, x, y)
  {
  }

  /** The nodes of `s` count one more. */
  ghost predicate Counted(before: map<nat, nat>, after: map<nat, nat>, s: set<nat>) {
    forall x :: CountOf(after, x) == CountOf(before, x) + if x in s then 1 else 0
  }

  /** How many items of the block from `k` on use `x`, and how many define it, if it may be given a register. */
  function UsesFrom(ids: Ids, promotable: set<nat>, blk: Block, k: nat, x: nat): nat
    decreases |blk.body| + 1 - k
  {
    if k > |blk.body| then 0
    else UsesFrom(ids, promotable, blk, k + 1, x) + if x in ItemUses(ids, blk, k) * promotable then 1 else 0
  }

  function DefsFrom(ids: Ids, promotable: set<nat>, blk: Block, k: nat, x: nat): nat
    decreases |blk.body| + 1 - k
  {
    if k > |blk.body| then 0
    else DefsFrom(ids, promotable, blk, k + 1, x) + if x in ItemDefs(ids, blk, k) * promotable then 1 else 0
  }

  function UsesIn(ids: Ids, promotable: set<nat>, f: Func, n: nat, x: nat): nat
    requires n <= |f|
  {
    if n == 0 then 0 else UsesIn(ids, promotable, f, n - 1, x) + UsesFrom(ids, promotable, f[n - 1], 0, x)
  }

  function DefsIn(ids: Ids, promotable: set<nat>, f: Func, n: nat, x: nat): nat
    requires n <= |f|
  {
    if n == 0 then 0 else DefsIn(ids, promotable, f, n - 1, x) + DefsFrom(ids, promotable, f[n - 1], 0, x)
  }

  /** The items of the block from `k` on have been counted. */
  ghost predicate CountedFrom(ids: Ids, promotable: set<nat>, blk: Block, k: nat, uses: map<nat, nat>,
      uses': map<nat, nat>, defs: map<nat, nat>, defs': map<nat, nat>) {
    && (forall x :: CountOf(uses', x) == CountOf(uses, x) + UsesFrom(ids, promotable, blk, k, x))
    && (forall x :: CountOf(defs', x) == CountOf(defs, x) + DefsFrom(ids, promotable, blk, k, x))
  }

  lemma NoItemsCounted(ids: Ids, promotable: set<nat>, blk: Block, uses: map<nat, nat>, defs: map<nat, nat>)
    ensures CountedFrom(ids, promotable, blk, |blk.body| + 1, uses, uses, defs, defs)
  {
  }

  lemma OneMoreCounted(ids: Ids, promotable: set<nat>, blk: Block, k: nat, uses: map<nat, nat>, uses1: map<nat, nat>,
      uses2: map<nat, nat>, defs: map<nat, nat>, defs1: map<nat, nat>, defs2: map<nat, nat>)
    requires k <= |blk.body| && CountedFrom(ids, promotable, blk, k + 1, uses, uses1, defs, defs1)
    requires Counted(uses1, uses2, ItemUses(ids, blk, k) * promotable)
    requires Counted(defs1, defs2, ItemDefs(ids, blk, k) * promotable)
    ensures CountedFrom(ids, promotable, blk, k, uses, uses2, defs, defs2)
  {
    hide ItemUses, ItemDefs, CountOf;
    var m := k + 1;
    forall x
      ensures UsesFrom(ids, promotable, blk, k, x) ==
          UsesFrom(ids, promotable, blk, m, x) + if x in ItemUses(ids, blk, k) * promotable then 1 else 0
      ensures DefsFrom(ids, promotable, blk, k, x) ==
          DefsFrom(ids, promotable, blk, m, x) + if x in ItemDefs(ids, blk, k) * promotable then 1 else 0
    {
    }
    hide UsesFrom, DefsFrom;
  }

  /** The first `n` blocks have been counted. */
  ghost predicate CountedBlocks(ids: Ids, promotable: set<nat>, f: Func, n: nat, uses: map<nat, nat>,
      uses': map<nat, nat>, defs: map<nat, nat>, defs': map<nat, nat>) {
    && n <= |f|
    && (forall x :: CountOf(uses', x) == CountOf(uses, x) + UsesIn(ids, promotable, f, n, x))
    && (forall x :: CountOf(defs', x) == CountOf(defs, x) + DefsIn(ids, promotable, f, n, x))
  }

  lemma NoBlocksCounted(ids: Ids, promotable: set<nat>, f: Func, uses: map<nat, nat>, defs: map<nat, nat>)
    ensures CountedBlocks(ids, promotable, f, 0, uses, uses, defs, defs)
  {
  }

  lemma OneMoreBlockCounted(ids: Ids, promotable: set<nat>, f: Func, n: nat, uses: map<nat, nat>,
      uses1: map<nat, nat>, uses2: map<nat, nat>, defs: map<nat, nat>, defs1: map<nat, nat>, defs2: map<nat, nat>)
    requires n < |f| && CountedBlocks(ids, promotable, f, n, uses, uses1, defs, defs1)
    requires CountedFrom(ids, promotable, f[n], 0, uses1, uses2, defs1, defs2)
    ensures CountedBlocks(ids, promotable, f, n + 1, uses, uses2, defs, defs2)
  {
    hide UsesFrom, DefsFrom, CountOf;
  }

  /** Edges from a new definition to everything live, except itself and the source of its move. */
  method AddEdgesFor(ig: InterferenceGraph, tracked: set<nat>, d: nat, live: set<nat>, moveSource: set<nat>)
    requires ig.Valid() && d in tracked && live <= tracked
    modifies ig`adjacency, ig`defCount
    ensures ig.Valid() && Grows(old(ig.adjacency), ig.adjacency, tracked)
    ensures forall v :: v in live && v != d && v !in moveSource ==> Adjacent(ig.adjacency, d, v)
    ensures forall x, y :: Adjacent(ig.adjacency, x, y) ==>
        Adjacent(old(ig.adjacency), x, y) ||
        Star(d, live, moveSource, x, y)
    ensures Counted(old(ig.defCount), ig.defCount, {d})
  {
    hide Simple, Grows, Injective;
    NodeGrows(ig.adjacency, d, tracked);
    NodeEdges(ig.adjacency, d);
    ig.AddNode(d);
    ig.IncDefCount(d);
    var rest := live;
    while rest != {}
      modifies ig`adjacency
      invariant ig.Valid() && rest <= live && Grows(old(ig.adjacency), ig.adjacency, tracked)
      invariant forall v :: v in live - rest && v != d && v !in moveSource ==> Adjacent(ig.adjacency, d, v)
      invariant forall x, y :: Adjacent(ig.adjacency, x, y) ==>
          Adjacent(old(ig.adjacency), x, y) ||
          Star(d, live, moveSource, x, y)
      decreases |rest|
    {
      var other :| other in rest;
      if other != d && other !in moveSource {
        ghost var a := ig.adjacency;
        NodeGrows(ig.adjacency, other, tracked);
        NodeEdges(ig.adjacency, other);
        ig.AddNode(other);
        ghost var b := ig.adjacency;
        EdgeGrows(ig.adjacency, d, other, tracked);
        ig.AddEdge(d, other);
        GrowsTwice(a, b, ig.adjacency, tracked);
        GrowsTwice(old(ig.adjacency), a, ig.adjacency, tracked);
        GrowsAdjacent(a, b, ig.adjacency, tracked, d);
      }
      rest := rest - {other};
    }
  }

  ghost predicate EdgeAt(ids: Ids, tracked: set<nat>, promotable: set<nat>, blk: Block, out: set<nat>, k: nat, x: nat,
      y: nat) {
    ItemEdge(ids, tracked, promotable, blk, out, k, x, y) || ItemEdge(ids, tracked, promotable, blk, out, k, y, x)
  }

  ghost predicate EdgeBetween(ids: Ids, tracked: set<nat>, promotable: set<nat>, blk: Block, out: set<nat>, from: nat,
      to: nat, x: nat, y: nat) {
    exists k: nat :: from <= k < to && EdgeAt(ids, tracked, promotable, blk, out, k, x, y)
  }

  /** Every new edge comes from an item between `from` and `to`. */
  ghost predicate OnlyEdges(a: Adjacency, b: Adjacency, ids: Ids, tracked: set<nat>, promotable: set<nat>, blk: Block,
      out: set<nat>, from: nat, to: nat) {
    forall x, y :: Adjacent(b, x, y) ==>
        Adjacent(a, x, y) ||
        EdgeBetween(ids, tracked, promotable, blk, out, from, to, x, y)
  }

  lemma OnlyMoreEdges(a: Adjacency, b: Adjacency, c: Adjacency, ids: Ids, tracked: set<nat>, promotable: set<nat>,
      blk: Block, out: set<nat>, from: nat, to: nat)
    requires OnlyEdges(a, b, ids, tracked, promotable, blk, out, from + 1, to) &&
        OnlyEdges(b, c, ids, tracked, promotable, blk, out, from, from + 1) && from < to
    ensures OnlyEdges(a, c, ids, tracked, promotable, blk, out, from, to)
  {
    hide EdgeAt;
  }

  /** The move that item `k` is, as a pair of different variables. */
  function MoveOf(ids: Ids, blk: Block, k: nat): seq<(nat, nat)> {
    if k < |blk.body| && blk.body[k].Move? && blk.body[k].arg.Var? && blk.body[k].arg.name in ids &&
        blk.body[k].result in ids
       && ids[blk.body[k].arg.name] != ids[blk.body[k].result] then
         [(ids[blk.body[k].arg.name], ids[blk.body[k].result])]
    else []
  }

  /** The moves of a block from the last down to item `k`. */
  function ScannedMoves(ids: Ids, blk: Block, k: nat): seq<(nat, nat)>
    decreases |blk.body| + 1 - k
  {
    if k > |blk.body| then [] else ScannedMoves(ids, blk, k + 1) + MoveOf(ids, blk, k)
  }

  function AllMoves(ids: Ids, f: Func, n: nat): seq<(nat, nat)>
    requires n <= |f|
  {
    if n == 0 then [] else AllMoves(ids, f, n - 1) + ScannedMoves(ids, f[n - 1], 0)
  }

  /** Definitions of one item: an edge to everything live before it. */
  method AddItemEdges(ig: InterferenceGraph, ids: Ids, tracked: set<nat>, promotable: set<nat>, blk: Block, k: nat,
      live: set<nat>, ghost out: set<nat>)
    requires ig.Valid() && promotable <= tracked && k <= |blk.body| && live == LiveBefore(ids, tracked, blk, k, out)
    requires EdgesPresent(ig.adjacency, ids, tracked, promotable, blk, out, k + 1)
    modifies ig`adjacency, ig`defCount, ig`movePairs, ig`useCount
    ensures ig.Valid() && Grows(old(ig.adjacency), ig.adjacency, tracked)
    ensures EdgesPresent(ig.adjacency, ids, tracked, promotable, blk, out, k)
    ensures OnlyEdges(old(ig.adjacency), ig.adjacency, ids, tracked, promotable, blk, out, k, k + 1)
    ensures ig.movePairs == old(ig.movePairs) + MoveOf(ids, blk, k)
    ensures Counted(old(ig.useCount), ig.useCount, ItemUses(ids, blk, k) * promotable)
    ensures Counted(old(ig.defCount), ig.defCount, ItemDefs(ids, blk, k) * promotable)
  {
    hide Simple, Grows, Injective, EdgesPresent, LiveBefore, ItemUses, OnlyEdges, Star, Counted;
    NoneCounted(ig.defCount);
    ghost var a := ig.adjacency;
    LiveIsTracked(ids, tracked, blk, k, out);
    if k < |blk.body| && blk.body[k].Move? && blk.body[k].arg.Var? && blk.body[k].arg.name in ids &&
        blk.body[k].result in ids {
      ig.AddMovePair(ids[blk.body[k].arg.name], ids[blk.body[k].result]);
    }
    GrowsRefl(a, tracked);
    NoNewEdges(a, ids, tracked, promotable, blk, out, k);
    if k < |blk.body| && Target(blk.body[k]).Some? && Target(blk.body[k]).value in ids &&
        ids[Target(blk.body[k]).value] in promotable {
      var d := ids[Target(blk.body[k]).value];
      AddEdgesFor(ig, tracked, d, live, MoveSource(ids, blk, k));
      StarEdges(a, ig.adjacency, ids, tracked, promotable, blk, out, k, d);
      assert ItemDefs(ids, blk, k) * promotable == {d};
    } else {
      assert ItemDefs(ids, blk, k) * promotable == {};
    }
    EdgesStay(a, ig.adjacency, ids, tracked, promotable, blk, out, k + 1);
    ItemEdgesPresent(ig.adjacency, ids, tracked, promotable, blk, k, out);
    ghost var b := ig.adjacency;
    AddUses(ig, tracked, ItemUses(ids, blk, k) * promotable);
    EdgesStay(b, ig.adjacency, ids, tracked, promotable, blk, out, k);
    SameEdges(a, b, ig.adjacency, ids, tracked, promotable, blk, out, k);
    GrowsTwice(a, b, ig.adjacency, tracked);
  }

  lemma NoneCounted(counts: map<nat, nat>)
    ensures Counted(counts, counts, {})
  {
  }

  lemma NoNewEdges(a: Adjacency, ids: Ids, tracked: set<nat>, promotable: set<nat>, blk: Block, out: set<nat>, k: nat)
    ensures OnlyEdges(a, a, ids, tracked, promotable, blk, out, k, k + 1)
  {
  }

  lemma StarEdges(a: Adjacency, b: Adjacency, ids: Ids, tracked: set<nat>, promotable: set<nat>, blk: Block,
      out: set<nat>, k: nat, d: nat)
    requires k < |blk.body| && d in ItemDefs(ids, blk, k) && d in promotable
    requires forall x, y :: Adjacent(b, x, y) ==>
        Adjacent(a, x, y) ||
        Star(d, LiveBefore(ids, tracked, blk, k, out), MoveSource(ids, blk, k), x, y)
    ensures OnlyEdges(a, b, ids, tracked, promotable, blk, out, k, k + 1)
  {
    hide LiveBefore, MoveSource, ItemDefs;
    forall x, y | Adjacent(b, x, y) && !Adjacent(a, x, y)
      ensures EdgeBetween(ids, tracked, promotable, blk, out, k, k + 1, x, y)
    {
      assert EdgeAt(ids, tracked, promotable, blk, out, k, x, y);
    }
  }

  lemma SameEdges(a: Adjacency, b: Adjacency, c: Adjacency, ids: Ids, tracked: set<nat>, promotable: set<nat>,
      blk: Block, out: set<nat>, k: nat)
    requires OnlyEdges(a, b, ids, tracked, promotable, blk, out, k, k + 1) && forall x, y :: Adjacent(c, x, y) ==>
        Adjacent(b, x, y)
    ensures OnlyEdges(a, c, ids, tracked, promotable, blk, out, k, k + 1)
  {
    hide EdgeBetween;
  }

  lemma ItemEdgesPresent(a: Adjacency, ids: Ids, tracked: set<nat>, promotable: set<nat>, blk: Block, k: nat,
      out: set<nat>)
    requires EdgesPresent(a, ids, tracked, promotable, blk, out, k + 1)
    requires forall d, v ::
      d in ItemDefs(ids, blk, k) && d in promotable &&
      v in LiveBefore(ids, tracked, blk, k, out) && v != d && v !in MoveSource(ids, blk, k) ==>
      Adjacent(a, d, v)
    ensures EdgesPresent(a, ids, tracked, promotable, blk, out, k)
  {
    hide ItemDefs, LiveBefore, MoveSource;
  }

  method AddUses(ig: InterferenceGraph, ghost tracked: set<nat>, uses: set<nat>)
    requires ig.Valid() && uses <= tracked
    modifies ig`adjacency, ig`useCount
    ensures ig.Valid() && Grows(old(ig.adjacency), ig.adjacency, tracked)
    ensures forall x, y :: Adjacent(ig.adjacency, x, y) ==> Adjacent(old(ig.adjacency), x, y)
    ensures Counted(old(ig.useCount), ig.useCount, uses)
  {
    hide Simple, Injective, CountOf;
    var rest := uses;
    while rest != {}
      invariant forall x :: CountOf(ig.useCount, x) == CountOf(old(ig.useCount), x) + if x in uses - rest then 1 else 0
      invariant ig.Valid() && rest <= uses && Grows(old(ig.adjacency), ig.adjacency, tracked)
      invariant forall x, y :: Adjacent(ig.adjacency, x, y) ==> Adjacent(old(ig.adjacency), x, y)
      decreases |rest|
    {
      var u :| u in rest;
      ghost var a := ig.adjacency;
      NodeGrows(a, u, tracked);
      NodeEdges(a, u);
      ig.AddNode(u);
      GrowsTwice(old(ig.adjacency), a, ig.adjacency, tracked);
      CountUp(ig.useCount, u);
      ig.IncUseCount(u);
      rest := rest - {u};
    }
  }

  lemma CountUp(counts: map<nat, nat>, u: nat)
    ensures forall x :: CountOf(counts[u := CountOf(counts, u) + 1], x) == CountOf(counts, x) + if x == u then 1 else 0
  {
  }

  lemma AfterLastItem(a: Adjacency, ids: Ids, tracked: set<nat>, promotable: set<nat>, blk: Block, out: set<nat>)
    ensures LiveBefore(ids, tracked, blk, |blk.body| + 1, out) == out * tracked
    ensures EdgesPresent(a, ids, tracked, promotable, blk, out, |blk.body| + 1)
    ensures OnlyEdges(a, a, ids, tracked, promotable, blk, out, |blk.body| + 1, |blk.body| + 1)
  {
  }

  lemma LiveOneBefore(ids: Ids, tracked: set<nat>, blk: Block, k: nat, out: set<nat>)
    requires k <= |blk.body|
    ensures LiveBefore(ids, tracked, blk, k, out) == LiveBefore(ids, tracked, blk, k + 1, out) - ItemDefs(ids, blk,
        k) + ItemUses(ids, blk, k) * tracked
  {
    hide ItemDefs, ItemUses;
  }

  /** The variables live across calls at or after item `k`. */
  ghost predicate CrossedFrom(ids: Ids, tracked: set<nat>, blk: Block, out: set<nat>, k: nat, crossing: set<nat>) {
    forall v :: v in crossing <==> exists j: nat :: k <= j && CrossesCall(ids, tracked, blk, out, j, v)
  }

  lemma CrossedMore(ids: Ids, tracked: set<nat>, blk: Block, out: set<nat>, k: nat, crossing: set<nat>)
    requires k <= |blk.body| && CrossedFrom(ids, tracked, blk, out, k + 1, crossing)
    ensures CrossedFrom(ids, tracked, blk, out, k, if k < |blk.body| && IsCall(blk.body[k]) then
        crossing + (LiveBefore(ids, tracked, blk, k + 1, out) - ItemDefs(ids, blk, k)) else crossing)
  {
    hide CrossesCall;
    CrossesHere(ids, tracked, blk, out, k);
    var more := if k < |blk.body| && IsCall(blk.body[k]) then
      crossing + (LiveBefore(ids, tracked, blk, k + 1, out) - ItemDefs(ids, blk, k)) else crossing;
    forall v
      ensures v in more <==> exists j: nat :: k <= j && CrossesCall(ids, tracked, blk, out, j, v)
    {
      assert v in more <==> v in crossing || CrossesCall(ids, tracked, blk, out, k, v);
      if j: nat :| k <= j && CrossesCall(ids, tracked, blk, out, j, v) && j != k {
        assert k + 1 <= j;
      }
    }
  }

  lemma CrossesHere(ids: Ids, tracked: set<nat>, blk: Block, out: set<nat>, k: nat)
    ensures forall v :: CrossesCall(ids, tracked, blk, out, k, v) <==>
      k < |blk.body| && IsCall(blk.body[k]) && v in LiveBefore(ids, tracked, blk, k + 1, out) - ItemDefs(ids, blk, k)
  {
    hide LiveBefore, ItemDefs;
  }

  lemma CrossedAll(ids: Ids, tracked: set<nat>, blk: Block, out: set<nat>, crossing: set<nat>)
    requires CrossedFrom(ids, tracked, blk, out, 0, crossing)
    ensures forall v :: v in crossing <==> AcrossCall(ids, tracked, blk, out, v)
  {
    hide CrossesCall;
  }

  /** The reverse scan of one block; returns the variables that are live across its calls. */
  method ScanBlock(ig: InterferenceGraph, ids: Ids, tracked: set<nat>, promotable: set<nat>, blk: Block, out: set<nat>)
      returns (acrossCalls: set<nat>)
    requires ig.Valid() && promotable <= tracked
    modifies ig`adjacency, ig`defCount, ig`movePairs, ig`useCount
    ensures ig.Valid() && Grows(old(ig.adjacency), ig.adjacency, tracked)
    ensures EdgesPresent(ig.adjacency, ids, tracked, promotable, blk, out, 0)
    ensures OnlyEdges(old(ig.adjacency), ig.adjacency, ids, tracked, promotable, blk, out, 0, |blk.body| + 1)
    ensures forall v :: v in acrossCalls <==> AcrossCall(ids, tracked, blk, out, v)
    ensures ig.movePairs == old(ig.movePairs) + ScannedMoves(ids, blk, 0)
    ensures CountedFrom(ids, promotable, blk, 0, old(ig.useCount), ig.useCount, old(ig.defCount), ig.defCount)
  {
    hide Counted, CountedFrom, Simple, Grows, Injective, EdgesPresent, ItemUses, ItemDefs, LiveBefore, OnlyEdges,
      CrossedFrom, MoveOf, AcrossCall;
    var live := out * tracked;
    AfterLastItem(ig.adjacency, ids, tracked, promotable, blk, out);
    GrowsRefl(ig.adjacency, tracked);
    NothingCrossed(ids, tracked, blk, out);
    NoItemsCounted(ids, promotable, blk, ig.useCount, ig.defCount);
    acrossCalls := {};
    for k := |blk.body| + 1 downto 0
      invariant ig.Valid() && Grows(old(ig.adjacency), ig.adjacency, tracked) &&
          live == LiveBefore(ids, tracked, blk, k, out)
      invariant EdgesPresent(ig.adjacency, ids, tracked, promotable, blk, out, k)
      invariant OnlyEdges(old(ig.adjacency), ig.adjacency, ids, tracked, promotable, blk, out, k, |blk.body| + 1)
      invariant CrossedFrom(ids, tracked, blk, out, k, acrossCalls)
      invariant ig.movePairs == old(ig.movePairs) + ScannedMoves(ids, blk, k)
      invariant CountedFrom(ids, promotable, blk, k, old(ig.useCount), ig.useCount, old(ig.defCount), ig.defCount)
    {
      ghost var a, us, ds := ig.adjacency, ig.useCount, ig.defCount;
      CrossedMore(ids, tracked, blk, out, k, acrossCalls);
      live := live - ItemDefs(ids, blk, k);
      if k < |blk.body| && IsCall(blk.body[k]) {
        acrossCalls := acrossCalls + live;
      }
      live := live + ItemUses(ids, blk, k) * tracked;
      LiveOneBefore(ids, tracked, blk, k, out);
      AddItemEdges(ig, ids, tracked, promotable, blk, k, live, out);
      OneMoreCounted(ids, promotable, blk, k, old(ig.useCount), us, ig.useCount, old(ig.defCount), ds, ig.defCount);
      GrowsTwice(old(ig.adjacency), a, ig.adjacency, tracked);
      OnlyMoreEdges(old(ig.adjacency), a, ig.adjacency, ids, tracked, promotable, blk, out, k, |blk.body| + 1);
    }
    CrossedAll(ids, tracked, blk, out, acrossCalls);
  }

  lemma NothingCrossed(ids: Ids, tracked: set<nat>, blk: Block, out: set<nat>)
    ensures CrossedFrom(ids, tracked, blk, out, |blk.body| + 1, {})
  {
  }

  /** A parameter, with its argument register if it arrives in one. */
  datatype Param = Param(name: Name, reg: Option<nat>)

  /** What the pass relies on: no phis, variables start with '%', parameters are never redefined and arrive in different
      registers among a0 to a7. */
  ghost predicate Acceptable(f: Func, params: seq<Param>) {
    && ValidTargets(f)
    && (forall b :: 0 <= b < |f| ==> f[b].phis == [] && VariableNames(f[b]))
    && (forall i :: 0 <= i < |params| ==>
      IsVariable(params[i].name) &&
      (params[i].reg.Some? ==> 10 <= params[i].reg.value <= 17))
    && (forall i, j :: 0 <= i < j < |params| ==>
      params[i].name != params[j].name &&
      (params[i].reg.Some? ==> params[i].reg != params[j].reg))
    && (forall b, k, i :: 0 <= b < |f| && 0 <= k < |f[b].body| && 0 <= i < |params| ==>
      Target(f[b].body[k]) != Some(params[i].name))
  }

  predicate VariableNames(blk: Block) {
    && (forall k :: 0 <= k < |blk.body| && Target(blk.body[k]).Some? ==> IsVariable(Target(blk.body[k]).value))
    && (forall k, j :: 0 <= k <= |blk.body| && 0 <= j < |ItemOperands(blk, k)| && ItemOperands(blk, k)[j].Var? ==>
      IsVariable(ItemOperands(blk, k)[j].name))
  }

  // ---- Variable numbers ----

  /** Numbers below `|ids|` are taken. */
  ghost predicate Numbered(ids: Ids) {
    InjectiveIds(ids) && forall x :: x in ids ==> ids[x] < |ids|
  }

  /** The number of a name; a new name gets the next number. */
  method Query(ids0: Ids, x: Name) returns (ids: Ids)
    requires Numbered(ids0)
    ensures Numbered(ids) && ids0.Keys + {x} == ids.Keys && forall y :: y in ids0 ==> ids[y] == ids0[y]
  {
    ids := if x in ids0 then ids0 else ids0[x := |ids0|];
  }

  method QueryOperands(ids0: Ids, os: seq<Operand>) returns (ids: Ids)
    requires Numbered(ids0)
    ensures Numbered(ids) && ids0.Keys <= ids.Keys && forall j :: 0 <= j < |os| && os[j].Var? ==> os[j].name in ids
  {
    hide Numbered;
    ids := ids0;
    for j := 0 to |os|
      invariant Numbered(ids) && ids0.Keys <= ids.Keys && forall i :: 0 <= i < j && os[i].Var? ==> os[i].name in ids
    {
      if os[j].Var? {
        ids := Query(ids, os[j].name);
      }
    }
  }

  predicate ItemNamed(ids: Ids, blk: Block, k: nat) {
    && (k < |blk.body| && Target(blk.body[k]).Some? ==> Target(blk.body[k]).value in ids)
    && (forall j :: 0 <= j < |ItemOperands(blk, k)| && ItemOperands(blk, k)[j].Var? ==>
      ItemOperands(blk, k)[j].name in ids)
  }

  method QueryBlock(ids0: Ids, blk: Block) returns (ids: Ids)
    requires Numbered(ids0)
    ensures Numbered(ids) && ids0.Keys <= ids.Keys && forall k :: 0 <= k <= |blk.body| ==> ItemNamed(ids, blk, k)
  {
    hide Numbered, Target, ItemOperands;
    ids := ids0;
    for k := 0 to |blk.body| + 1
      invariant Numbered(ids) && ids0.Keys <= ids.Keys && forall i :: 0 <= i < k ==> ItemNamed(ids, blk, i)
    {
      ghost var before := ids;
      if k < |blk.body| && Target(blk.body[k]).Some? {
        ids := Query(ids, Target(blk.body[k]).value);
      }
      ids := QueryOperands(ids, ItemOperands(blk, k));
      forall i | 0 <= i < k
        ensures ItemNamed(ids, blk, i)
      {
        assert ItemNamed(before, blk, i);
      }
    }
  }

  method Number(f: Func, params: seq<Param>) returns (ids: Ids)
    requires Acceptable(f, params)
    ensures InjectiveIds(ids) && Numbered(ids) && (forall i :: 0 <= i < |params| ==> params[i].name in ids)
    ensures forall b :: 0 <= b < |f| ==> NamesOk(f[b], ids)
  {
    hide Numbered, Acceptable, ItemNamed, NamesOk, InjectiveIds;
    ids := map[];
    NothingNumbered();
    for i := 0 to |params|
      invariant Numbered(ids) && forall j :: 0 <= j < i ==> params[j].name in ids
    {
      ids := Query(ids, params[i].name);
    }
    for b := 0 to |f|
      invariant Numbered(ids) && forall j :: 0 <= j < |params| ==> params[j].name in ids
      invariant forall c :: 0 <= c < b ==> NamesOk(f[c], ids)
    {
      ghost var before := ids;
      ids := QueryBlock(ids, f[b]);
      forall c | 0 <= c <= b
        ensures NamesOk(f[c], ids)
      {
        if c < b {
          NamesStay(f[c], before, ids);
        } else {
          NamedIsOk(f, params, b, ids);
        }
      }
    }
    NumberedInjective(ids);
  }

  lemma NothingNumbered()
    ensures Numbered(map[])
  {
  }

  lemma NumberedInjective(ids: Ids)
    requires Numbered(ids)
    ensures InjectiveIds(ids)
  {
  }

  lemma NamesStay(blk: Block, before: Ids, ids: Ids)
    requires NamesOk(blk, before) && before.Keys <= ids.Keys
    ensures NamesOk(blk, ids)
  {
    forall k | 0 <= k < |blk.body| && Target(blk.body[k]).Some?
      ensures NameOk(ids, Target(blk.body[k]).value)
    {
      assert NameOk(before, Target(blk.body[k]).value);
    }
    forall k, j | 0 <= k <= |blk.body| && 0 <= j < |ItemOperands(blk, k)|
      ensures OperandOk(ids, ItemOperands(blk, k)[j])
    {
      assert OperandOk(before, ItemOperands(blk, k)[j]);
    }
  }

  lemma NamedIsOk(f: Func, params: seq<Param>, b: nat, ids: Ids)
    requires Acceptable(f, params) && b < |f| && forall k :: 0 <= k <= |f[b].body| ==> ItemNamed(ids, f[b], k)
    ensures NamesOk(f[b], ids)
  {
    var blk := f[b];
    assert VariableNames(blk);
    forall k | 0 <= k < |blk.body| && Target(blk.body[k]).Some?
      ensures NameOk(ids, Target(blk.body[k]).value)
    {
      assert ItemNamed(ids, blk, k);
    }
    forall k, j | 0 <= k <= |blk.body| && 0 <= j < |ItemOperands(blk, k)|
      ensures OperandOk(ids, ItemOperands(blk, k)[j])
    {
      assert ItemNamed(ids, blk, k);
    }
  }

  // ---- Promotable variables, parameters, predecessors ----

  method PromotableVars(f: Func, ids: Ids) returns (promotable: set<nat>)
    ensures forall b, k :: 0 <= b < |f| && 0 <= k < |f[b].body| && IsPromotable(f[b].body[k]) ==>
        ItemDefs(ids, f[b], k) <= promotable
    ensures forall v :: v in promotable ==> exists b, k ::
        0 <= b < |f| && 0 <= k < |f[b].body| &&
        IsPromotable(f[b].body[k]) && v in ItemDefs(ids, f[b], k)
  {
    hide ItemDefs, IsPromotable;
    promotable := {};
    for b := 0 to |f|
      invariant forall c, k :: 0 <= c < b && 0 <= k < |f[c].body| && IsPromotable(f[c].body[k]) ==>
          ItemDefs(ids, f[c], k) <= promotable
      invariant forall v :: v in promotable ==> exists c, k ::
          0 <= c < |f| && 0 <= k < |f[c].body| &&
          IsPromotable(f[c].body[k]) && v in ItemDefs(ids, f[c], k)
    {
      for k := 0 to |f[b].body|
        invariant forall c, j ::
          0 <= c < |f| && 0 <= j < |f[c].body| && (c < b || (c == b && j < k)) && IsPromotable(f[c].body[j]) ==>
          ItemDefs(ids, f[c], j) <= promotable
        invariant forall v :: v in promotable ==> exists c, k ::
            0 <= c < |f| && 0 <= k < |f[c].body| &&
            IsPromotable(f[c].body[k]) && v in ItemDefs(ids, f[c], k)
      {
        if IsPromotable(f[b].body[k]) {
          promotable := promotable + ItemDefs(ids, f[b], k);
        }
      }
    }
  }

  method Predecessors(g: Graph) returns (preds: Graph)
    requires WellFormed(g)
    ensures Converses(g, preds)
  {
    preds := seq(|g|, b => []);
    for u := 0 to |g|
      invariant |preds| == |g| && WellFormed(preds)
      invariant forall v: nat, p: nat :: v < |g| ==> (p in preds[v] <==> p < u && v in g[p])
    {
      for k := 0 to |g[u]|
        invariant |preds| == |g| && WellFormed(preds)
        invariant forall v: nat, p: nat :: v < |g| ==>
            (p in preds[v] <==> (p < u && v in g[p]) || (p == u && v in g[u][..k]))
      {
        var v := g[u][k];
        assert g[u][..k + 1] == g[u][..k] + [v];
        assert forall w: nat :: w in g[u][..k + 1] <==> w in g[u][..k] || w == v;
        assert forall p: nat :: p in preds[v] + [u] <==> p in preds[v] || p == u;
        ghost var before := preds;
        preds := preds[v := preds[v] + [u]];
        assert forall w: nat :: w < |g| ==> preds[w] == if w == v then before[v] + [u] else before[w];
      }
      assert g[u][..|g[u]|] == g[u];
    }
  }

  ghost predicate UseDefOf(f: Func, ids: Ids, uses: seq<set<nat>>, defs: seq<set<nat>>, n: nat) {
    |uses| == |defs| == n <= |f| && forall b :: 0 <= b < n ==> BlockUseDefOf(ids, f[b], uses[b], defs[b])
  }

  ghost predicate BlockUseDefOf(ids: Ids, blk: Block, use: set<nat>, def: set<nat>) {
    (forall v :: v in use <==> UsedFrom(ids, blk, 0, v)) &&
      (forall v :: v !in def <==> NotDefined(ids, blk, 0, |blk.body| + 1, v))
  }

  method AllUseDef(f: Func, ids: Ids) returns (uses: seq<set<nat>>, defs: seq<set<nat>>)
    ensures UseDefOf(f, ids, uses, defs, |f|)
  {
    hide UsedFrom, NotDefined;
    uses, defs := [], [];
    for b := 0 to |f|
      invariant UseDefOf(f, ids, uses, defs, b)
    {
      var use, def := BlockUseDef(ids, f[b]);
      assert BlockUseDefOf(ids, f[b], use, def);
      uses, defs := uses + [use], defs + [def];
    }
  }

  /** Parameters that arrive in registers are nodes with fixed colours. */
  ghost predicate ParamsPrecoloured(params: seq<Param>, ids: Ids, pre: map<nat, nat>, n: nat) {
    && n <= |params|
    && (forall i :: 0 <= i < n && params[i].reg.Some? ==>
      params[i].name in ids && ids[params[i].name] in pre &&
      pre[ids[params[i].name]] == params[i].reg.value)
    && (forall v :: v in pre ==> exists i ::
      0 <= i < n && params[i].reg.Some? && params[i].name in ids &&
      ids[params[i].name] == v)
  }

  lemma NoneColoured(params: seq<Param>, ids: Ids)
    ensures ParamsPrecoloured(params, ids, map[], 0)
  {
  }

  lemma SkipParam(params: seq<Param>, ids: Ids, pre: map<nat, nat>, i: nat)
    requires i < |params| && ParamsPrecoloured(params, ids, pre, i) && params[i].reg.None?
    ensures ParamsPrecoloured(params, ids, pre, i + 1)
  {
  }

  /** Each register is given to one parameter only. */
  lemma FreshPrecolour(f: Func, params: seq<Param>, ids: Ids, pre: map<nat, nat>, i: nat)
    requires Acceptable(f, params) && InjectiveIds(ids) && i < |params| && params[i].reg.Some? &&
        params[i].name in ids && ParamsPrecoloured(params, ids, pre, i)
    ensures forall v :: v in pre ==> v != ids[params[i].name] && pre[v] != params[i].reg.value
    ensures ParamsPrecoloured(params, ids, pre[ids[params[i].name] := params[i].reg.value], i + 1)
  {
    forall v | v in pre
      ensures v != ids[params[i].name] && pre[v] != params[i].reg.value
    {
      var j :| 0 <= j < i && params[j].reg.Some? && params[j].name in ids && ids[params[j].name] == v;
      assert params[j].name != params[i].name && params[j].reg != params[i].reg;
    }
  }

  method Precolor(ig: InterferenceGraph, f: Func, params: seq<Param>, ids: Ids)
    requires ig.Valid() && ig.adjacency == map[] && ig.precolored == map[] && ig.coalesced == map[]
    requires Acceptable(f, params) && InjectiveIds(ids) && forall i :: 0 <= i < |params| ==> params[i].name in ids
    modifies ig`precolored, ig`physReg, ig`adjacency
    ensures ig.Valid() && ParamsPrecoloured(params, ids, ig.precolored, |params|) &&
        ig.adjacency.Keys == ig.precolored.Keys
    ensures forall x, y :: !Adjacent(ig.adjacency, x, y)
  {
    hide Simple, ParamsPrecoloured, Acceptable;
    NoneColoured(params, ids);
    for i := 0 to |params|
      invariant ig.Valid() && ParamsPrecoloured(params, ids, ig.precolored, i) &&
          ig.adjacency.Keys == ig.precolored.Keys
      invariant forall x, y :: !Adjacent(ig.adjacency, x, y)
    {
      if params[i].reg.Some? {
        var id := ids[params[i].name];
        NodeEdges(ig.adjacency, id);
        FreshPrecolour(f, params, ids, ig.precolored, i);
        ig.SetPrecolored(id, params[i].reg.value);
      } else {
        SkipParam(params, ids, ig.precolored, i);
      }
    }
  }

  /** Coloured definitions are promotable: parameters are never redefined. */
  lemma ColouredIsPromotable(f: Func, params: seq<Param>, ids: Ids, pre: map<nat, nat>, promotable: set<nat>,
      phys: map<nat, nat>, b: nat, k: nat, d: nat)
    requires Acceptable(f, params) && InjectiveIds(ids) && ParamsPrecoloured(params, ids, pre, |params|) &&
        phys.Keys <= promotable + pre.Keys
    requires b < |f| && k < |f[b].body| && d in ItemDefs(ids, f[b], k) && d in phys
    ensures d in promotable
  {
    forall i | 0 <= i < |params| && params[i].name in ids
      ensures ids[params[i].name] != d
    {
      assert Target(f[b].body[k]) != Some(params[i].name);
    }
  }

  /** Liveness, edges and colours together are what the placed run needs. */
  lemma PlanWorks(f: Func, params: seq<Param>, p: Plan, uses: seq<set<nat>>, defs: seq<set<nat>>, ins: seq<set<nat>>)
    requires Acceptable(f, params) && InjectiveIds(p.ids) && ParamsPrecoloured(params, p.ids, p.pre, |params|)
    requires forall b :: 0 <= b < |f| ==> NamesOk(f[b], p.ids)
    requires p.tracked == p.promotable + p.pre.Keys && p.phys.Keys <= p.tracked
    requires |ins| == |p.outs| == |f| && forall b :: 0 <= b < |f| && Reachable(Flow(f), 0, b) ==>
        Apart(p, f[b], p.outs[b])
    requires UseDefOf(f, p.ids, uses, defs, |f|)
    requires forall b :: 0 <= b < |f| && Reachable(Flow(f), 0, b) ==> Balanced(Flow(f), uses, defs, ins, p.outs, b)
    requires CrossedBlocks(p.ids, p.tracked, f, p.outs, |f|, p.crossing) && forall v ::
        v in p.crossing &&
        v in p.phys ==>
        p.phys[v] != T5
    ensures Allocatable(f, p, ins, p.outs)
  {
    hide NamesOk, Apart, InjectiveIds, ParamsPrecoloured, LiveBefore, Reachable, ItemDefs, UsedFrom, NotDefined,
      AcrossCall;
    forall b: nat | Reachable(Flow(f), 0, b) && b < |f|
      ensures BlockAllocatable(f, p, ins, p.outs, b)
    {
      assert BlockUseDefOf(p.ids, f[b], uses[b], defs[b]);
      LiveAtStart(p.ids, p.tracked, f[b], uses[b], defs[b], p.outs[b]);
      assert Balanced(Flow(f), uses, defs, ins, p.outs, b);
      forall k, d | 0 <= k < |f[b].body| && d in ItemDefs(p.ids, f[b], k) && d in p.phys
        ensures d in p.promotable
      {
        ColouredIsPromotable(f, params, p.ids, p.pre, p.promotable, p.phys, b, k, d);
      }
      forall v | v in Successors(f[b].term) && v < |f|
        ensures ins[v] <= p.outs[b]
      {
        assert v in Flow(f)[b];
      }
    }
  }

  /** With every merged call-crossing variable spared, none of them is in t5. */
  lemma SparedOutOfT5(f: Func, params: seq<Param>, p: Plan, colors: seq<nat>, order: seq<nat>, chosen: set<nat>,
      v: nat)
    requires Acceptable(f, params) && ParamsPrecoloured(params, p.ids, p.pre, |params|)
    requires ColouredBy(p, colors, order, chosen) && CallSafe(p, colors) && v in p.crossing && v in p.phys
    ensures p.phys[v] != T5
  {
    hide Simple, EdgesKept, RegsKept, CoalesceAll, RepAll, SelectAll, LowFirst, LowNodes, ProperRegs, Stacked;
    var k, c := |colors|, Looked(p);
    var m, rep := Merged(p, k), Stand(p, k);
    assert SameColour(rep, p.phys, v);
    var r := rep[v];
    assert r !in m.merged && SameAt(p.phys, SelectAll(m.adj, c, order, chosen, colors), r);
    SelectKeeps(m.adj, c, order, chosen, colors, r);
    if r in p.pre {
      PrecolouredIsArgument(f, params, p.ids, p.pre, r);
    } else if r !in p.crossing {
      SpareNotT5(m.adj, c, order, chosen, colors, r);
    }
  }

  lemma PrecolouredIsArgument(f: Func, params: seq<Param>, ids: Ids, pre: map<nat, nat>, v: nat)
    requires Acceptable(f, params) && ParamsPrecoloured(params, ids, pre, |params|) && v in pre
    ensures 10 <= pre[v] <= 17
  {
    var i :| 0 <= i < |params| && params[i].reg.Some? && params[i].name in ids && ids[params[i].name] == v;
  }

  /** A parameter in a register keeps it; one in memory stays there. */
  lemma ParamHomes(f: Func, params: seq<Param>, ids: Ids, pre: map<nat, nat>, promotable: set<nat>, phys: map<nat,
      nat>, i: nat)
    requires Acceptable(f, params) && InjectiveIds(ids) && ParamsPrecoloured(params, ids, pre, |params|) &&
        phys.Keys <= promotable + pre.Keys
    requires forall v :: v in pre ==> v in phys && phys[v] == pre[v]
    requires forall v :: v in promotable ==> exists b, k ::
        0 <= b < |f| && 0 <= k < |f[b].body| &&
        IsPromotable(f[b].body[k]) && v in ItemDefs(ids, f[b], k)
    requires i < |params| && params[i].name in ids
    ensures Home(ids, phys, params[i].name) == if params[i].reg.Some? then RegName(params[i].reg.value)
        else params[i].name
  {
    var v := ids[params[i].name];
    forall j | 0 <= j < |params| && j != i && params[j].name in ids
      ensures ids[params[j].name] != v
    {
      assert params[j].name != params[i].name;
    }
    forall b, k | 0 <= b < |f| && 0 <= k < |f[b].body|
      ensures v !in ItemDefs(ids, f[b], k)
    {
      assert Target(f[b].body[k]) != Some(params[i].name);
    }
  }

  /** The arguments in their registers and slots are a starting environment for the placed function. */
  lemma ArgumentsInPlace(f: Func, params: seq<Param>, p: Plan, env: Env) returns (env': Env)
    requires Acceptable(f, params) && forall x :: x in env ==> exists i :: 0 <= i < |params| && params[i].name == x
    requires forall i :: 0 <= i < |params| ==> Home(p.ids, p.phys, params[i].name) == if params[i].reg.Some? then
        RegName(params[i].reg.value) else params[i].name
    ensures StartsInPlace(p, env, env')
  {
    hide Home, RegName, Acceptable;
    env' := map[];
    var n: nat := 0;
    while n < |params|
      invariant n <= |params|
      invariant forall i :: 0 <= i < n && params[i].name in env ==> InPlace(p.ids, p.phys, env, env', params[i].name)
    {
      var x := params[n].name;
      if x in env {
        forall i | 0 <= i < n && params[i].name in env
          ensures InPlace(p.ids, p.phys, env, env'[Home(p.ids, p.phys, x) := env[x]], params[i].name)
        {
          assert InPlace(p.ids, p.phys, env, env', params[i].name);
          ParamPlacesDiffer(f, params, i, n);
        }
        env' := env'[Home(p.ids, p.phys, x) := env[x]];
      }
      n := n + 1;
    }
  }

  lemma ParamPlacesDiffer(f: Func, params: seq<Param>, i: nat, j: nat)
    requires Acceptable(f, params) && i < j < |params|
    ensures (if params[i].reg.Some? then RegName(params[i].reg.value) else params[i].name)
         != (if params[j].reg.Some? then RegName(params[j].reg.value) else params[j].name)
  {
    hide Decimal, VariableNames;
    var x, y := params[i], params[j];
    if x.reg.Some? && y.reg.Some? {
      assert RegName(x.reg.value)[1..] == Decimal(x.reg.value) && RegName(y.reg.value)[1..] == Decimal(y.reg.value);
      if Decimal(x.reg.value) == Decimal(y.reg.value) {
        DecimalInjective(x.reg.value, y.reg.value);
      }
    }
  }

  /** Every edge comes from an item of one of the first `n` blocks. */
  ghost predicate EdgesFrom(a: Adjacency, ids: Ids, tracked: set<nat>, promotable: set<nat>, f: Func,
      outs: seq<set<nat>>, n: nat) {
    |outs| == |f| && n <= |f| && forall x, y :: Adjacent(a, x, y) ==>
      EdgeInBlocks(ids, tracked, promotable, f, outs, n, x, y)
  }

  ghost predicate EdgeInBlocks(ids: Ids, tracked: set<nat>, promotable: set<nat>, f: Func, outs: seq<set<nat>>, n: nat,
      x: nat, y: nat)
    requires |outs| == |f| && n <= |f|
  {
    exists b: nat, k: nat :: b < n && EdgeAt(ids, tracked, promotable, f[b], outs[b], k, x, y)
  }

  lemma EdgesFromMore(a: Adjacency, c: Adjacency, ids: Ids, tracked: set<nat>, promotable: set<nat>, f: Func,
      outs: seq<set<nat>>, n: nat)
    requires n < |f| && EdgesFrom(a, ids, tracked, promotable, f, outs, n)
    requires OnlyEdges(a, c, ids, tracked, promotable, f[n], outs[n], 0, |f[n].body| + 1)
    ensures EdgesFrom(c, ids, tracked, promotable, f, outs, n + 1)
  {
    hide EdgeAt;
    forall x, y | Adjacent(c, x, y)
      ensures EdgeInBlocks(ids, tracked, promotable, f, outs, n + 1, x, y)
    {
      if Adjacent(a, x, y) {
        assert EdgeInBlocks(ids, tracked, promotable, f, outs, n, x, y);
      }
    }
  }

  /** The variables live across calls of the first `n` blocks. */
  ghost predicate CrossedBlocks(ids: Ids, tracked: set<nat>, f: Func, outs: seq<set<nat>>, n: nat, crossing: set<nat>) {
    |outs| == |f| && n <= |f| && forall v :: v in crossing <==> exists b: nat ::
      b < n &&
      AcrossCall(ids, tracked, f[b], outs[b], v)
  }

  lemma CrossedBlocksMore(ids: Ids, tracked: set<nat>, f: Func, outs: seq<set<nat>>, n: nat, crossing: set<nat>,
      more: set<nat>)
    requires n < |f| && CrossedBlocks(ids, tracked, f, outs, n, crossing) && forall v :: v in more <==>
        AcrossCall(ids, tracked, f[n], outs[n], v)
    ensures CrossedBlocks(ids, tracked, f, outs, n + 1, crossing + more)
  {
    hide AcrossCall;
  }

  lemma NothingBuilt(a: Adjacency, ids: Ids, tracked: set<nat>, promotable: set<nat>, f: Func, outs: seq<set<nat>>)
    requires |outs| == |f| && forall x, y :: !Adjacent(a, x, y)
    ensures EdgesFrom(a, ids, tracked, promotable, f, outs, 0) && CrossedBlocks(ids, tracked, f, outs, 0, {})
  {
  }

  /** The interference graph of the whole function, and the variables that are live across calls. */
  method BuildGraph(ig: InterferenceGraph, f: Func, ids: Ids, tracked: set<nat>, promotable: set<nat>,
      outs: seq<set<nat>>)
    requires ig.Valid() && ig.adjacency.Keys <= tracked && ig.precolored.Keys <= ig.adjacency.Keys &&
        promotable <= tracked && |outs| == |f|
    requires ig.movePairs == [] && forall x, y :: !Adjacent(ig.adjacency, x, y)
    modifies ig`adjacency, ig`defCount, ig`movePairs, ig`useCount, ig`callCrossing
    ensures ig.Valid() && ig.adjacency.Keys <= tracked && ig.precolored.Keys <= ig.adjacency.Keys
    ensures forall b :: 0 <= b < |f| ==> EdgesPresent(ig.adjacency, ids, tracked, promotable, f[b], outs[b], 0)
    ensures EdgesFrom(ig.adjacency, ids, tracked, promotable, f, outs, |f|)
    ensures CrossedBlocks(ids, tracked, f, outs, |f|, ig.callCrossing) && ig.movePairs == AllMoves(ids, f, |f|)
    // Uses and definitions of every variable that may be given a register are counted item by item.
    ensures CountedBlocks(ids, promotable, f, |f|, old(ig.useCount), ig.useCount, old(ig.defCount), ig.defCount)
  {
    hide CountedBlocks, CountedFrom, Simple, Injective, EdgesPresent, CrossedBlocks, EdgesFrom, OnlyEdges, AcrossCall,
      ScannedMoves;
    var acrossCalls: set<nat> := {};
    NothingBuilt(ig.adjacency, ids, tracked, promotable, f, outs);
    NoBlocksCounted(ids, promotable, f, ig.useCount, ig.defCount);
    for b := 0 to |f|
      invariant ig.Valid() && ig.adjacency.Keys <= tracked && ig.precolored.Keys <= ig.adjacency.Keys
      invariant forall c :: 0 <= c < b ==> EdgesPresent(ig.adjacency, ids, tracked, promotable, f[c], outs[c], 0)
      invariant EdgesFrom(ig.adjacency, ids, tracked, promotable, f, outs, b)
      invariant CrossedBlocks(ids, tracked, f, outs, b, acrossCalls) && ig.movePairs == AllMoves(ids, f, b)
      invariant CountedBlocks(ids, promotable, f, b, old(ig.useCount), ig.useCount, old(ig.defCount), ig.defCount)
    {
      ghost var a, us, ds := ig.adjacency, ig.useCount, ig.defCount;
      var live := ScanBlock(ig, ids, tracked, promotable, f[b], outs[b]);
      CrossedBlocksMore(ids, tracked, f, outs, b, acrossCalls, live);
      OneMoreBlockCounted(ids, promotable, f, b, old(ig.useCount), us, ig.useCount, old(ig.defCount), ds, ig.defCount);
      acrossCalls := acrossCalls + live;
      EdgesFromMore(a, ig.adjacency, ids, tracked, promotable, f, outs, b);
      forall c | 0 <= c < b
        ensures EdgesPresent(ig.adjacency, ids, tracked, promotable, f[c], outs[c], 0)
      {
        EdgesStay(a, ig.adjacency, ids, tracked, promotable, f[c], outs[c], 0);
      }
    }
    ig.callCrossing := acrossCalls;
  }

  // ---- Coalescing and colouring ----

  function Looked(p: Plan): Fixed {
    Fixed(p.pre, p.pre, p.crossing)
  }

  function Merged(p: Plan, k: nat): Merging {
    CoalesceAll(Looked(p), k, Merging(p.graph, map[]), p.moves)
  }

  function Stand(p: Plan, k: nat): map<nat, nat> {
    RepAll(Looked(p), k, p.graph, p.moves)
  }

  /** The registers of the plan are those that colouring its merged graph gives, removing the nodes in the order
   * `order`. */
  ghost predicate ColouredBy(p: Plan, colors: seq<nat>, order: seq<nat>, chosen: set<nat>) {
    var k, c := |colors|, Looked(p);
    var m, rep := Merged(p, k), Stand(p, k);
    && Represents(p.graph, c, m, rep) && Carried(rep, p.phys) && ProperRegs(p.graph, p.phys) &&
      p.phys.Keys <= p.graph.Keys
    && Stacked(m.adj, k, m.adj.Keys - p.pre.Keys, {}, order, chosen) && LowFirst(LowNodes(m.adj, p.pre.Keys, k), order)
    && (forall x :: x !in m.merged ==> SameAt(p.phys, SelectAll(m.adj, c, order, chosen, colors), x))
    && (forall x :: x in m.merged && m.merged[x] in m.adj && m.merged[x] in p.phys ==> x in p.phys)
    && (forall v :: v in p.pre ==> v in p.phys && p.phys[v] == p.pre[v])
  }

  predicate SameAt(a: map<nat, nat>, b: map<nat, nat>, x: nat) {
    (x in a <==> x in b) && (x in a ==> a[x] == b[x])
  }

  /** Coalesce and colour. */
  method AssignRegisters(ig: InterferenceGraph, colors: seq<nat>, ghost p: Plan)
      returns (spilled: set<nat>, ghost order: seq<nat>, ghost chosen: set<nat>)
    requires ig.Valid() && ig.precolored.Keys <= ig.adjacency.Keys && ig.coalesced == map[]
    requires p.graph == ig.adjacency && p.pre == ig.precolored && p.crossing == ig.callCrossing &&
        p.moves == ig.movePairs
    modifies ig`adjacency, ig`coalesced, ig`defCount, ig`useCount, ig`physReg
    ensures ColouredBy(p.(phys := ig.physReg), colors, order, chosen)
  {
    hide Simple, Injective, ProperRegs, Carried, Represents, CoalesceAll, RepAll, Remaining, Unrestricted, Stacked,
      LowFirst, LowNodes, SelectAll;
    ghost var a0, rep := ig.adjacency, map[];
    rep := ig.Coalesce(|colors|);
    ghost var c, m := ig.Looks(), Merging(ig.adjacency, ig.coalesced);
    spilled, order, chosen := ig.Color(|colors|, colors, a0, rep);
    ColouredNodes(a0, c, m, rep, ig.physReg);
    forall v | v in ig.precolored
      ensures v in ig.physReg && ig.physReg[v] == ig.precolored[v]
    {
      PrecolouredStays(a0, c, m, rep, v);
    }
  }

  lemma ColouredNodes(a0: Adjacency, c: Fixed, m: Merging, rep: map<nat, nat>, phys: map<nat, nat>)
    requires Represents(a0, c, m, rep) && Carried(rep, phys)
    ensures phys.Keys <= a0.Keys
  {
    forall x | x in phys
      ensures x in a0
    {
      assert SameColour(rep, phys, x);
    }
  }

  /** With different registers for different parameters, no parameter is merged into another node. */
  lemma PrecolouredStays(a0: Adjacency, c: Fixed, m: Merging, rep: map<nat, nat>, v: nat)
    requires Represents(a0, c, m, rep) && v in c.precolored && v in a0 && c.physReg == c.precolored &&
        Injective(c.precolored)
    ensures v in m.adj
  {
    hide Simple, EdgesKept;
    assert SameReg(c, v, rep[v]);
    assert rep[v] == v;
  }

  lemma UseDefFit(f: Func, ids: Ids, uses: seq<set<nat>>, defs: seq<set<nat>>)
    requires UseDefOf(f, ids, uses, defs, |f|) && Numbered(ids)
    ensures FitBelow(uses, |ids|) && FitBelow(defs, |ids|)
  {
    forall b, x | 0 <= b < |f| && (x in uses[b] || x in defs[b])
      ensures x < |ids|
    {
      assert BlockUseDefOf(ids, f[b], uses[b], defs[b]);
      if x in uses[b] {
        var j :| 0 <= j <= |f[b].body| && x in ItemUses(ids, f[b], j);
        var k :| 0 <= k < |ItemOperands(f[b], j)| && UsesId(ids, ItemOperands(f[b], j)[k], x);
      }
    }
  }

  lemma UseDefSize(f: Func, ids: Ids, uses: seq<set<nat>>, defs: seq<set<nat>>)
    requires UseDefOf(f, ids, uses, defs, |f|)
    ensures |uses| == |defs| == |f|
  {
  }

  // ---- Edges that are taken out again ----

  /** The instruction defines something: its result, or what the pointer of a store points to. */
  predicate HasDef(i: Instr) {
    Target(i).Some? || (i.Effect? && i.effect.Store? && |i.args| == 2 && i.args[1].Var?)
  }

  /** Of the first `n` instructions, `j` is the last that defines something and uses `d`. */
  ghost predicate LastUser(ids: Ids, blk: Block, n: nat, d: nat, j: nat) {
    && j < n <= |blk.body| && HasDef(blk.body[j]) && d in ItemUses(ids, blk, j)
    && forall i: nat :: j < i < n && HasDef(blk.body[i]) ==> d !in ItemUses(ids, blk, i)
  }

  /** The last instruction of the block that defines something and uses `d` has the result `s`. */
  ghost predicate LastUseDefines(ids: Ids, blk: Block, n: nat, d: nat, s: nat) {
    exists j: nat :: LastUser(ids, blk, n, d, j) && s in ItemDefs(ids, blk, j)
  }

  /** Item `m` moves `s` to `d`, and the last instruction that defines something and uses `d` has the result `s`. */
  ghost predicate DroppedAt(ids: Ids, promotable: set<nat>, blk: Block, m: nat, s: nat, d: nat) {
    && m < |blk.body| && s in MoveSource(ids, blk, m) && d in ItemDefs(ids, blk, m) && d in promotable
    && LastUseDefines(ids, blk, |blk.body|, d, s)
  }

  /** One of the first `n` items takes out the edge between `x` and `y`. */
  ghost predicate DroppedBefore(ids: Ids, promotable: set<nat>, blk: Block, n: nat, x: nat, y: nat) {
    exists m: nat :: m < n && (DroppedAt(ids, promotable, blk, m, x, y) || DroppedAt(ids, promotable, blk, m, y, x))
  }

  /** One of the first `n` blocks takes out the edge between `x` and `y`. */
  ghost predicate DroppedUpTo(f: Func, ids: Ids, promotable: set<nat>, n: nat, x: nat, y: nat) {
    exists b: nat :: b < n && b < |f| && DroppedBefore(ids, promotable, f[b], |f[b].body|, x, y)
  }

  ghost predicate EdgesDropped(f: Func, ids: Ids, promotable: set<nat>, full: Adjacency, graph: Adjacency) {
    && graph.Keys == full.Keys
    && forall x, y ::
      Adjacent(graph, x, y) <==> Adjacent(full, x, y) && !DroppedUpTo(f, ids, promotable, |f|, x, y)
  }

  function ResultId(ids: Ids, i: Instr): Option<nat> {
    if Target(i).Some? && Target(i).value in ids then Some(ids[Target(i).value]) else None
  }

  ghost predicate HasUser(ids: Ids, blk: Block, n: nat, d: nat) {
    exists j: nat :: LastUser(ids, blk, n, d, j)
  }

  /** `last` has the result of the last instruction that uses each variable. */
  ghost predicate LastsOf(ids: Ids, promotable: set<nat>, blk: Block, n: nat, last: map<nat, Option<nat>>) {
    && n <= |blk.body|
    && (forall d :: d in last ==> d in promotable && HasUser(ids, blk, n, d))
    && (forall d, j: nat :: d in promotable && LastUser(ids, blk, n, d, j) ==>
         d in last && last[d] == ResultId(ids, blk.body[j]))
  }

  lemma LastUserBefore(ids: Ids, blk: Block, n: nat, d: nat, j: nat)
    requires n < |blk.body|
    ensures LastUser(ids, blk, n + 1, d, j) <==>
        if HasDef(blk.body[n]) && d in ItemUses(ids, blk, n) then j == n else LastUser(ids, blk, n, d, j)
  {
    hide ItemUses, HasDef;
  }

  lemma LastsMore(ids: Ids, promotable: set<nat>, blk: Block, n: nat, last: map<nat, Option<nat>>,
      more: map<nat, Option<nat>>)
    requires n < |blk.body| && LastsOf(ids, promotable, blk, n, last)
    requires more == if !HasDef(blk.body[n]) then last
        else last + map u | u in ItemUses(ids, blk, n) * promotable :: ResultId(ids, blk.body[n])
    ensures LastsOf(ids, promotable, blk, n + 1, more)
  {
    hide ItemUses, HasDef, LastUser, ResultId;
    var m := n + 1;
    forall d, j: nat
      ensures LastUser(ids, blk, m, d, j) <==>
        if HasDef(blk.body[n]) && d in ItemUses(ids, blk, n) then j == n else LastUser(ids, blk, n, d, j)
    {
      LastUserBefore(ids, blk, n, d, j);
    }
    forall d | d in more
      ensures d in promotable && HasUser(ids, blk, m, d)
    {
      if HasDef(blk.body[n]) && d in ItemUses(ids, blk, n) {
        assert LastUser(ids, blk, m, d, n);
      } else {
        var j: nat :| LastUser(ids, blk, n, d, j);
        assert LastUser(ids, blk, m, d, j);
      }
    }
  }

  /** For each promotable variable the result of the last instruction of the block that uses it. */
  method LastUses(ids: Ids, promotable: set<nat>, blk: Block) returns (last: map<nat, Option<nat>>)
    ensures forall d, s: nat :: d in last && last[d] == Some(s) <==>
        d in promotable && LastUseDefines(ids, blk, |blk.body|, d, s)
  {
    hide ItemUses, HasDef, LastUser, LastsOf;
    last := map[];
    NoLasts(ids, promotable, blk);
    for k := 0 to |blk.body|
      invariant LastsOf(ids, promotable, blk, k, last)
    {
      ghost var before := last;
      if HasDef(blk.body[k]) {
        last := last + map u | u in ItemUses(ids, blk, k) * promotable :: ResultId(ids, blk.body[k]);
      }
      LastsMore(ids, promotable, blk, k, before, last);
    }
    forall d, s: nat
      ensures d in last && last[d] == Some(s) <==> d in promotable && LastUseDefines(ids, blk, |blk.body|, d, s)
    {
      LastsTell(ids, promotable, blk, last, d, s);
    }
  }

  lemma NoLasts(ids: Ids, promotable: set<nat>, blk: Block)
    ensures LastsOf(ids, promotable, blk, 0, map[])
  {
  }

  lemma LastsTell(ids: Ids, promotable: set<nat>, blk: Block, last: map<nat, Option<nat>>, d: nat, s: nat)
    requires LastsOf(ids, promotable, blk, |blk.body|, last)
    ensures d in last && last[d] == Some(s) <==> d in promotable && LastUseDefines(ids, blk, |blk.body|, d, s)
  {
    hide ItemUses, HasDef, LastUser;
    forall j: nat | j < |blk.body|
      ensures s in ItemDefs(ids, blk, j) <==> ResultId(ids, blk.body[j]) == Some(s)
    {
    }
    forall j: nat | LastUser(ids, blk, |blk.body|, d, j)
      ensures j < |blk.body|
    {
      LastUserSmall(ids, blk, |blk.body|, d, j);
    }
  }

  lemma LastUserSmall(ids: Ids, blk: Block, n: nat, d: nat, j: nat)
    requires LastUser(ids, blk, n, d, j)
    ensures j < n <= |blk.body|
  {
  }

  /** The variables of the move `m` of a block. */
  lemma MoveEnds(ids: Ids, blk: Block, m: nat, s: nat, d: nat)
    requires m < |blk.body|
    ensures s in MoveSource(ids, blk, m) && d in ItemDefs(ids, blk, m) <==>
        blk.body[m].Move? && blk.body[m].arg.Var? && blk.body[m].arg.name in ids && blk.body[m].result in ids &&
        ids[blk.body[m].arg.name] == s && ids[blk.body[m].result] == d
  {
    if blk.body[m].Move? {
      var os := ItemOperands(blk, m);
      assert os == [blk.body[m].arg];
      if blk.body[m].arg.Var? && blk.body[m].arg.name in ids {
        assert UsesId(ids, os[0], ids[blk.body[m].arg.name]);
      }
      if s in ItemUses(ids, blk, m) {
        var k :| 0 <= k < |os| && UsesId(ids, os[k], s);
      }
    }
  }

  /** Take out the edges between the ends of the moves of one block whose source is the result of the last instruction
   * that uses the target. */
  method DropBlock(ig: InterferenceGraph, ids: Ids, promotable: set<nat>, blk: Block)
    requires ig.Valid()
    modifies ig`adjacency
    ensures ig.Valid() && ig.adjacency.Keys == old(ig.adjacency.Keys)
    ensures forall x, y :: Adjacent(ig.adjacency, x, y) <==>
        Adjacent(old(ig.adjacency), x, y) && !DroppedBefore(ids, promotable, blk, |blk.body|, x, y)
  {
    hide Simple, Injective, ItemUses, ItemDefs, MoveSource, LastUseDefines;
    var last := LastUses(ids, promotable, blk);
    for m := 0 to |blk.body|
      invariant ig.Valid() && ig.adjacency.Keys == old(ig.adjacency.Keys)
      invariant forall x, y :: Adjacent(ig.adjacency, x, y) <==>
          Adjacent(old(ig.adjacency), x, y) && !DroppedBefore(ids, promotable, blk, m, x, y)
    {
      var i := blk.body[m];
      if i.Move? && i.arg.Var? && i.arg.name in ids && i.result in ids {
        var s, d := ids[i.arg.name], ids[i.result];
        if d in last && last[d] == Some(s) {
          ig.RemoveEdge(s, d);
        }
      }
      forall x, y
        ensures Adjacent(ig.adjacency, x, y) <==>
            Adjacent(old(ig.adjacency), x, y) && !DroppedBefore(ids, promotable, blk, m + 1, x, y)
      {
        DroppedMore(ids, promotable, blk, m, x, y);
        MoveEnds(ids, blk, m, x, y);
        MoveEnds(ids, blk, m, y, x);
      }
    }
  }

  lemma DroppedMore(ids: Ids, promotable: set<nat>, blk: Block, n: nat, x: nat, y: nat)
    ensures DroppedBefore(ids, promotable, blk, n + 1, x, y) <==>
        DroppedBefore(ids, promotable, blk, n, x, y) || DroppedAt(ids, promotable, blk, n, x, y) ||
        DroppedAt(ids, promotable, blk, n, y, x)
  {
    hide DroppedAt;
  }

  /** All blocks in turn. */
  method DropEdges(ig: InterferenceGraph, f: Func, ids: Ids, promotable: set<nat>)
    requires ig.Valid()
    modifies ig`adjacency
    ensures ig.Valid() && EdgesDropped(f, ids, promotable, old(ig.adjacency), ig.adjacency)
    ensures ig.adjacency.Keys == old(ig.adjacency.Keys)
  {
    hide Simple, Injective, DroppedBefore;
    for b := 0 to |f|
      invariant ig.Valid() && ig.adjacency.Keys == old(ig.adjacency.Keys)
      invariant forall x, y :: Adjacent(ig.adjacency, x, y) <==>
          Adjacent(old(ig.adjacency), x, y) && !DroppedUpTo(f, ids, promotable, b, x, y)
    {
      DropBlock(ig, ids, promotable, f[b]);
      forall x, y
        ensures DroppedUpTo(f, ids, promotable, b + 1, x, y) <==>
            DroppedUpTo(f, ids, promotable, b, x, y) || DroppedBefore(ids, promotable, f[b], |f[b].body|, x, y)
      {
      }
    }
  }

  /** Somewhere `d` is written while `v` is needed afterwards. */
  ghost predicate Clashes(f: Func, p: Plan, d: nat, v: nat) {
    exists b: nat, k: nat :: ClashesAt(f, p, b, k, d, v)
  }

  ghost predicate ClashesAt(f: Func, p: Plan, b: nat, k: nat, d: nat, v: nat) {
    b < |f| && b < |p.outs| && Reachable(Flow(f), 0, b) &&
    Clash(p.ids, p.tracked, p.promotable, f[b], p.outs[b], k, d, v)
  }

  /** Where an edge is taken out, neither variable is written while the other is needed afterwards. */
  ghost predicate DropsSafe(f: Func, p: Plan) {
    forall x, y :: DroppedUpTo(f, p.ids, p.promotable, |f|, x, y) ==> !Clashes(f, p, x, y)
  }

  lemma ClashAdjacent(f: Func, p: Plan, d: nat, v: nat)
    requires |p.outs| == |f| && Clashes(f, p, d, v) && forall b :: 0 <= b < |f| ==>
        EdgesPresent(p.full, p.ids, p.tracked, p.promotable, f[b], p.outs[b], 0)
    ensures Adjacent(p.full, d, v)
  {
    hide Clash, ItemEdge, Reachable;
    var b: nat, k: nat :| ClashesAt(f, p, b, k, d, v);
    ClashIsEdge(p.ids, p.tracked, p.promotable, f[b], p.outs[b], k, d, v);
  }

  /** The condition is exact: the graph that is coloured keeps apart every variable that is written from those needed
   * afterwards just when the edges taken out are safe. */
  lemma DropsExactly(f: Func, params: seq<Param>, p: Plan)
    requires Planned(f, params, p)
    ensures DropsSafe(f, p) <==> forall d, v :: Clashes(f, p, d, v) ==> Adjacent(p.graph, d, v)
  {
    hide InjectiveIds, NamesOk, ParamsPrecoloured, Simple, EdgesPresent, Reachable, LiveBefore, EdgesFrom,
      CrossedBlocks, AllMoves, LivePoint, PromotableIn, Clashes, DroppedUpTo, Adjacent;
    forall d, v | Clashes(f, p, d, v)
      ensures Adjacent(p.full, d, v)
    {
      ClashAdjacent(f, p, d, v);
    }
  }

  lemma ApartInBlock(f: Func, p: Plan, b: nat)
    requires |p.outs| == |f| && b < |f| && Reachable(Flow(f), 0, b) && DropsSafe(f, p)
    requires forall c :: 0 <= c < |f| ==>
        EdgesPresent(p.full, p.ids, p.tracked, p.promotable, f[c], p.outs[c], 0)
    requires EdgesDropped(f, p.ids, p.promotable, p.full, p.graph) && ProperRegs(p.graph, p.phys)
    ensures Apart(p, f[b], p.outs[b])
  {
    hide Clash, EdgesPresent, Reachable, DroppedUpTo;
    forall k: nat, d, v | Clash(p.ids, p.tracked, p.promotable, f[b], p.outs[b], k, d, v) && d in p.phys && v in p.phys
      ensures p.phys[d] != p.phys[v]
    {
      assert ClashesAt(f, p, b, k, d, v);
      ClashAdjacent(f, p, d, v);
      assert Adjacent(p.graph, d, v);
    }
  }

  /** After the last instruction that defines something and uses `d`, the value of `d` is still needed just when it
   * reaches a later item that defines nothing and uses it, or the end of a block where it is live. */
  lemma NeededAfterUser(ids: Ids, tracked: set<nat>, blk: Block, out: set<nat>, d: nat, j: nat)
    requires LastUser(ids, blk, |blk.body|, d, j) && d in tracked
    ensures d in LiveBefore(ids, tracked, blk, j + 1, out) <==>
        (exists k: nat :: j < k && SilentUse(ids, blk, k, d) && NotDefined(ids, blk, j + 1, k, d)) ||
        (d in out && NotDefined(ids, blk, j + 1, |blk.body| + 1, d))
  {
    hide ItemUses, ItemDefs, HasDef, LiveBefore, NotDefined;
    LiveBeforeExact(ids, tracked, blk, j + 1, out, d);
    if UsedFrom(ids, blk, j + 1, d) {
      var k :| j + 1 <= k <= |blk.body| && d in ItemUses(ids, blk, k) && NotDefined(ids, blk, j + 1, k, d);
      assert SilentUse(ids, blk, k, d);
    }
    if k: nat :| j < k && SilentUse(ids, blk, k, d) && NotDefined(ids, blk, j + 1, k, d) {
      assert UsedFrom(ids, blk, j + 1, d);
    }
  }

  /** An item that defines nothing and uses `d`: a call without a result, a store through a constant, a terminator. */
  predicate SilentUse(ids: Ids, blk: Block, k: nat, d: nat) {
    k <= |blk.body| && d in ItemUses(ids, blk, k) && (k < |blk.body| ==> !HasDef(blk.body[k]))
  }

  /** With the move after that instruction, only silent uses between the two count. */
  lemma NeededBeforeMove(ids: Ids, tracked: set<nat>, blk: Block, out: set<nat>, d: nat, j: nat, m: nat)
    requires LastUser(ids, blk, |blk.body|, d, j) && j < m < |blk.body| && d in ItemDefs(ids, blk, m)
    requires d in tracked && NotDefined(ids, blk, j + 1, m, d) && HasDef(blk.body[m])
    ensures d in LiveBefore(ids, tracked, blk, j + 1, out) <==>
        exists k: nat :: j < k < m && SilentUse(ids, blk, k, d)
  {
    hide ItemUses, ItemDefs, HasDef, LiveBefore;
    NeededAfterUser(ids, tracked, blk, out, d, j);
    assert !NotDefined(ids, blk, j + 1, |blk.body| + 1, d);
    forall k: nat | j < k && SilentUse(ids, blk, k, d)
      ensures NotDefined(ids, blk, j + 1, k, d) <==> k < m
    {
      assert k != m;
    }
  }

  /** Item `k` of block `b` writes `d`, not as a copy of `v`, and from there some path reaches a use of `v` with no
   * definition before it. */
  ghost predicate OverwritesAt(f: Func, ids: Ids, b: nat, k: nat, d: nat, v: nat) {
    && b < |f| && Reachable(Flow(f), 0, b) && k < |f[b].body| && d in ItemDefs(ids, f[b], k)
    && v != d && v !in MoveSource(ids, f[b], k) && LivePoint(f, ids, b, k + 1, v)
  }

  ghost predicate Overwrites(f: Func, ids: Ids, d: nat, v: nat) {
    exists b: nat, k: nat :: OverwritesAt(f, ids, b, k, d, v)
  }

  lemma ClashOnPaths(f: Func, params: seq<Param>, p: Plan, b: nat, k: nat, d: nat, v: nat)
    requires Planned(f, params, p)
    ensures ClashesAt(f, p, b, k, d, v) <==>
        d in p.promotable && v in p.tracked && OverwritesAt(f, p.ids, b, k, d, v)
  {
    hide InjectiveIds, NamesOk, ParamsPrecoloured, Simple, EdgesPresent, Reachable, LiveBefore, EdgesFrom,
      CrossedBlocks, AllMoves, LivePoint, PromotableIn, EdgesDropped, ItemDefs, MoveSource;
  }

  /** The condition on the text of the function: no edge may be taken out between a variable that is written and one
   * from whose old value a use is reached. */
  lemma DropsSafeOnPaths(f: Func, params: seq<Param>, p: Plan)
    requires Planned(f, params, p)
    ensures DropsSafe(f, p) <==> forall x, y ::
      DroppedUpTo(f, p.ids, p.promotable, |f|, x, y) && x in p.promotable && y in p.tracked ==>
      !Overwrites(f, p.ids, x, y)
  {
    hide Planned, DroppedUpTo, ClashesAt, OverwritesAt;
    forall b: nat, k: nat, d, v
      ensures ClashesAt(f, p, b, k, d, v) <==>
          d in p.promotable && v in p.tracked && OverwritesAt(f, p.ids, b, k, d, v)
    {
      ClashOnPaths(f, params, p, b, k, d, v);
    }
    forall d, v
      ensures Clashes(f, p, d, v) <==> d in p.promotable && v in p.tracked && Overwrites(f, p.ids, d, v)
    {
    }
  }

  // ---- Liveness at every instruction ----

  /** The path leads from item `k` of its first block to a use of `v`, and nothing on it defines `v` before. */
  ghost predicate LiveOnPath(f: Func, ids: Ids, b: nat, k: nat, v: nat, path: seq<nat>) {
    && IsPath(Flow(f), path) && path[0] == b && b < |f|
    && if |path| == 1 then UsedFrom(ids, f[b], k, v)
       else
         && NotDefined(ids, f[b], k, |f[b].body| + 1, v) && path[|path| - 1] < |f| &&
           UsedFrom(ids, f[path[|path| - 1]], 0, v)
         && forall i :: 0 < i < |path| - 1 ==> path[i] < |f| && NotDefined(ids, f[path[i]], 0, |f[path[i]].body| + 1, v)
  }

  ghost predicate LivePoint(f: Func, ids: Ids, b: nat, k: nat, v: nat) {
    exists path :: LiveOnPath(f, ids, b, k, v, path)
  }

  /** The block-level liveness of a block as a path. */
  lemma LiveInPath(f: Func, ids: Ids, uses: seq<set<nat>>, defs: seq<set<nat>>, b: nat, k: nat, v: nat, s: nat)
    requires UseDefOf(f, ids, uses, defs, |f|) && WellFormed(Flow(f)) && b < |f| && s in Successors(f[b].term)
    requires NotDefined(ids, f[b], k, |f[b].body| + 1, v) && LiveIn(Flow(f), uses, defs, s, v)
    ensures LivePoint(f, ids, b, k, v)
  {
    hide UsedFrom, NotDefined;
    var q :| LiveAlong(Flow(f), uses, defs, s, v, q);
    var path := [b] + q;
    assert forall i :: 0 < i < |path| ==> path[i] == q[i - 1];
    forall i | 0 <= i < |path| - 1
      ensures Edge(Flow(f), path[i], path[i + 1])
    {
      if i > 0 {
        assert Edge(Flow(f), q[i - 1], q[i]);
      }
    }
    InBounds(Flow(f), q);
    forall i | 0 < i < |path| - 1
      ensures path[i] < |f| && NotDefined(ids, f[path[i]], 0, |f[path[i]].body| + 1, v)
    {
      assert BlockUseDefOf(ids, f[path[i]], uses[path[i]], defs[path[i]]);
    }
    var last := path[|path| - 1];
    assert BlockUseDefOf(ids, f[last], uses[last], defs[last]);
    assert LiveOnPath(f, ids, b, k, v, path);
  }

  lemma InBounds(g: Graph, p: seq<nat>)
    requires WellFormed(g) && IsPath(g, p)
    ensures forall i :: 0 <= i < |p| ==> p[i] < |g|
  {
    forall i | 0 <= i < |p|
      ensures p[i] < |g|
    {
      if i > 0 {
        assert Edge(g, p[i - 1], p[i]);
      }
    }
  }

  lemma PathLiveIn(f: Func, ids: Ids, uses: seq<set<nat>>, defs: seq<set<nat>>, b: nat, k: nat, v: nat, path: seq<nat>)
    requires UseDefOf(f, ids, uses, defs, |f|) && WellFormed(Flow(f)) && LiveOnPath(f, ids, b, k, v, path) && |path| > 1
    ensures path[1] in Successors(f[b].term) && path[1] < |f| && LiveIn(Flow(f), uses, defs, path[1], v)
  {
    hide UsedFrom, NotDefined;
    assert Edge(Flow(f), path[0], path[1]);
    var q := path[1..];
    InBounds(Flow(f), path);
    forall i | 0 <= i < |q| - 1
      ensures Edge(Flow(f), q[i], q[i + 1]) && v !in defs[q[i]]
    {
      assert Edge(Flow(f), path[i + 1], path[i + 2]);
      assert BlockUseDefOf(ids, f[q[i]], uses[q[i]], defs[q[i]]);
    }
    var last := q[|q| - 1];
    assert BlockUseDefOf(ids, f[last], uses[last], defs[last]);
    assert LiveAlong(Flow(f), uses, defs, path[1], v, q);
  }

  /** The scan is exact along paths: a tracked variable is live before an item of a reachable block just when some
   * path from there reaches a use of it with no definition in between. */
  lemma LiveAtPoint(f: Func, ids: Ids, tracked: set<nat>, uses: seq<set<nat>>, defs: seq<set<nat>>, ins: seq<set<nat>>,
      outs: seq<set<nat>>, b: nat, k: nat, v: nat)
    requires UseDefOf(f, ids, uses, defs, |f|) && ValidTargets(f) && b < |f| && k <= |f[b].body| + 1 &&
        Reachable(Flow(f), 0, b)
    requires |ins| == |outs| == |f| && forall c :: 0 <= c < |f| && Reachable(Flow(f), 0, c) ==>
        Balanced(Flow(f), uses, defs, ins, outs, c)
    requires forall c, x :: 0 <= c < |f| && Reachable(Flow(f), 0, c) ==>
        (x in ins[c] <==> LiveIn(Flow(f), uses, defs, c, x))
    ensures v in LiveBefore(ids, tracked, f[b], k, outs[b]) <==> v in tracked && LivePoint(f, ids, b, k, v)
  {
    hide UsedFrom, NotDefined, Reachable, LiveBefore, LiveIn, UseDefOf;
    LiveBeforeExact(ids, tracked, f[b], k, outs[b], v);
    assert Balanced(Flow(f), uses, defs, ins, outs, b);
    forall s | s in Successors(f[b].term)
      ensures s < |f| && Reachable(Flow(f), 0, s)
    {
      NextReachable(f, b, s);
    }
    if UsedFrom(ids, f[b], k, v) {
      assert IsPath(Flow(f), [b]);
      assert LiveOnPath(f, ids, b, k, v, [b]);
    } else if v in outs[b] && NotDefined(ids, f[b], k, |f[b].body| + 1, v) {
      var s :| s in Flow(f)[b] && v in ins[s];
      LiveInPath(f, ids, uses, defs, b, k, v, s);
    }
    if LivePoint(f, ids, b, k, v) && !UsedFrom(ids, f[b], k, v) {
      var path :| LiveOnPath(f, ids, b, k, v, path);
      PathLiveIn(f, ids, uses, defs, b, k, v, path);
      assert path[1] in Flow(f)[b];
    }
  }

  // ---- The whole pass ----

  /** What the pass finds out about the function: exactly the edges, call-crossing variables and moves that its items
   * call for, with liveness along paths, and the graph without the edges that are taken out again. */
  ghost predicate Planned(f: Func, params: seq<Param>, p: Plan) {
    && InjectiveIds(p.ids) && (forall b :: 0 <= b < |f| ==> NamesOk(f[b], p.ids))
    && (forall i :: 0 <= i < |params| ==> params[i].name in p.ids)
    && ParamsPrecoloured(params, p.ids, p.pre, |params|) && p.tracked == p.promotable + p.pre.Keys
    && (forall v :: v in p.promotable <==> PromotableIn(f, p.ids, v))
    && Simple(p.graph) && p.graph.Keys <= p.tracked && p.pre.Keys <= p.graph.Keys
    && |p.outs| == |f| && EdgesFrom(p.full, p.ids, p.tracked, p.promotable, f, p.outs, |f|)
    && (forall b :: 0 <= b < |f| ==> EdgesPresent(p.full, p.ids, p.tracked, p.promotable, f[b], p.outs[b], 0))
    && Simple(p.full) && EdgesDropped(f, p.ids, p.promotable, p.full, p.graph)
    && CrossedBlocks(p.ids, p.tracked, f, p.outs, |f|, p.crossing) && p.moves == AllMoves(p.ids, f, |f|)
    && (forall b: nat, k: nat, v :: b < |f| && Reachable(Flow(f), 0, b) && k <= |f[b].body| + 1 ==>
         (v in LiveBefore(p.ids, p.tracked, f[b], k, p.outs[b]) <==> v in p.tracked && LivePoint(f, p.ids, b, k, v)))
  }

  ghost predicate PromotableIn(f: Func, ids: Ids, v: nat) {
    exists b, k :: 0 <= b < |f| && 0 <= k < |f[b].body| && IsPromotable(f[b].body[k]) && v in ItemDefs(ids, f[b], k)
  }

  lemma ValidIsSimple(ig: InterferenceGraph)
    requires ig.Valid()
    ensures Simple(ig.adjacency)
  {
  }

  /** OUT of every block, from the solver. */
  method SolveLiveness(f: Func, use: seq<set<nat>>, def: seq<set<nat>>, count: nat)
      returns (outs: seq<set<nat>>, ghost ins: seq<set<nat>>)
    requires ValidTargets(f) && |use| == |def| == |f| && FitBelow(use, count) && FitBelow(def, count)
    ensures |outs| == |ins| == |f|
    ensures forall b :: 0 <= b < |f| && Reachable(Flow(f), 0, b) ==> Balanced(Flow(f), use, def, ins, outs, b)
    ensures forall b, x :: 0 <= b < |f| && Reachable(Flow(f), 0, b) ==>
        (x in ins[b] <==> LiveIn(Flow(f), use, def, b, x))
  {
    hide Balanced, Reachable, LiveIn, LivenessSolver.Repr;
    var preds := Predecessors(Flow(f));
    var solver := new LivenessSolver(Flow(f), preds, use, def, count);
    solver.CalcInOut();
    outs := LivenessSolver.Listed(solver.out_);
    ins := solver.In();
  }

  /** Everything up to the graph: numbers, liveness, parameters, promotable variables, edges. */
  method Plans(f: Func, params: seq<Param>)
      returns (ids: Ids, ig: InterferenceGraph, ghost p: Plan, ghost uses: seq<set<nat>>, ghost defs: seq<set<nat>>,
    ghost ins: seq<set<nat>>)
    requires Acceptable(f, params)
    ensures fresh(ig) && ig.Valid() && ig.precolored.Keys <= ig.adjacency.Keys && ig.coalesced == map[]
    ensures p.graph == ig.adjacency && p.pre == ig.precolored && p.crossing == ig.callCrossing &&
        p.moves == ig.movePairs && p.ids == ids
    ensures Planned(f, params, p) && |ins| == |f| && UseDefOf(f, ids, uses, defs, |f|)
    ensures forall b :: 0 <= b < |f| && Reachable(Flow(f), 0, b) ==> Balanced(Flow(f), uses, defs, ins, p.outs, b)
  {
    hide InjectiveIds, NamesOk, UseDefOf, ParamsPrecoloured, Simple, Injective, EdgesPresent, Balanced, Reachable,
      ItemDefs, IsPromotable, LiveBefore, LiveIn, EdgesFrom, CrossedBlocks, AllMoves, LivePoint, EdgesDropped, Numbered;
    ids := Number(f, params);
    var use, def := AllUseDef(f, ids);
    UseDefSize(f, ids, use, def);
    UseDefFit(f, ids, use, def);
    uses, defs := use, def;
    var outs;
    outs, ins := SolveLiveness(f, use, def, |ids|);
    ig := new InterferenceGraph();
    Precolor(ig, f, params, ids);
    var promotable := PromotableVars(f, ids);
    var tracked := promotable + ig.precolored.Keys;
    BuildGraph(ig, f, ids, tracked, promotable, outs);
    ghost var full := ig.adjacency;
    ValidIsSimple(ig);
    DropEdges(ig, f, ids, promotable);
    ValidIsSimple(ig);
    p := Plan(full, ig.adjacency, ids, tracked, promotable, ig.precolored, ig.callCrossing, ig.movePairs, outs, map[]);
    forall b: nat, k: nat, v | b < |f| && Reachable(Flow(f), 0, b) && k <= |f[b].body| + 1
      ensures v in LiveBefore(ids, tracked, f[b], k, outs[b]) <==> v in tracked && LivePoint(f, ids, b, k, v)
    {
      LiveAtPoint(f, ids, tracked, uses, defs, ins, outs, b, k, v);
    }
    forall v
      ensures v in promotable <==> PromotableIn(f, ids, v)
    {
    }
  }

  /** The registers are safe for calls: each variable that is live across a call is represented by one that is, by a
   * parameter, or by one that has fewer neighbours than the pool has registers before t5. */
  ghost predicate CallSafe(p: Plan, colors: seq<nat>) {
    Spared(Looked(p), Merged(p, |colors|).adj, colors, Stand(p, |colors|))
  }

  /** The whole pass: `colors` is the pool of registers. */
  method Visit(f: Func, params: seq<Param>, colors: seq<nat>)
      returns (r: Func, ghost p: Plan, ghost order: seq<nat>, ghost chosen: set<nat>)
    requires Acceptable(f, params)
    ensures Planned(f, params, p) && ColouredBy(p, colors, order, chosen) && Allocated(f, p.ids, p.phys, r)
    ensures forall i :: 0 <= i < |params| ==> Home(p.ids, p.phys, params[i].name) == if params[i].reg.Some? then
        RegName(params[i].reg.value) else params[i].name
    ensures CallSafe(p, colors) && DropsSafe(f, p) ==>
      forall w: World, env: Env, env': Env, n: nat :: StartsInPlace(p, env, env') ==>
          SameOutcome(Runs(w, f, Start(env), n), RunsLosing(w, r, Start(env'), n))
  {
    hide Planned, ColouredBy, UseDefOf, Balanced, Reachable, Runs, RunsLosing, Allocatable, StartsInPlace, Home,
      PlacedBlock, CallSafe, DropsSafe;
    var ids, ig;
    ghost var uses, defs, ins;
    ids, ig, p, uses, defs, ins := Plans(f, params);
    var spilled;
    spilled, order, chosen := AssignRegisters(ig, colors, p);
    var phys := ig.physReg;
    StillPlanned(f, params, p, phys);
    p := p.(phys := phys);
    r := seq(|f|, b requires 0 <= b < |f| => PlacedBlock(f[b], ids, phys));
    forall i | 0 <= i < |params|
      ensures Home(p.ids, p.phys, params[i].name) == if params[i].reg.Some? then RegName(params[i].reg.value)
          else params[i].name
    {
      ParamHome(f, params, p, colors, order, chosen, i);
    }
    if CallSafe(p, colors) && DropsSafe(f, p) {
      SafePlanWorks(f, params, p, colors, order, chosen, uses, defs, ins);
      forall w: World, env: Env, env': Env, n: nat | StartsInPlace(p, env, env')
        ensures SameOutcome(Runs(w, f, Start(env), n), RunsLosing(w, r, Start(env'), n))
      {
        AllocationKeepsRuns(f, p, ins, p.outs, r, w, env, env', n);
      }
    }
  }

  lemma StillPlanned(f: Func, params: seq<Param>, p: Plan, phys: map<nat, nat>)
    requires Planned(f, params, p)
    ensures Planned(f, params, p.(phys := phys))
  {
    hide InjectiveIds, NamesOk, ParamsPrecoloured, Simple, EdgesPresent, Reachable, LiveBefore, EdgesFrom,
      CrossedBlocks, AllMoves, LivePoint, PromotableIn, EdgesDropped;
  }

  lemma ParamHome(f: Func, params: seq<Param>, p: Plan, colors: seq<nat>, order: seq<nat>, chosen: set<nat>, i: nat)
    requires Acceptable(f, params) && Planned(f, params, p) && ColouredBy(p, colors, order, chosen) && i < |params|
    ensures Home(p.ids, p.phys, params[i].name) == if params[i].reg.Some? then RegName(params[i].reg.value)
        else params[i].name
  {
    hide NamesOk, Simple, EdgesPresent, Reachable, LiveBefore, EdgesFrom, CrossedBlocks, AllMoves, LivePoint,
      Represents, Carried, ProperRegs, Stacked, SelectAll, LowFirst, LowNodes, Home;
    hide CoalesceAll, RepAll;
    ParamHomes(f, params, p.ids, p.pre, p.promotable, p.phys, i);
  }

  lemma SafePlanWorks(f: Func, params: seq<Param>, p: Plan, colors: seq<nat>, order: seq<nat>, chosen: set<nat>,
      uses: seq<set<nat>>, defs: seq<set<nat>>, ins: seq<set<nat>>)
    requires Acceptable(f, params) && Planned(f, params, p) && ColouredBy(p, colors, order, chosen) &&
        CallSafe(p, colors) && DropsSafe(f, p)
    requires |ins| == |f| && UseDefOf(f, p.ids, uses, defs, |f|)
    requires forall b :: 0 <= b < |f| && Reachable(Flow(f), 0, b) ==> Balanced(Flow(f), uses, defs, ins, p.outs, b)
    ensures Allocatable(f, p, ins, p.outs)
  {
    hide NamesOk, Simple, EdgesPresent, Reachable, LiveBefore, EdgesFrom, CrossedBlocks, AllMoves, LivePoint,
      Represents, Carried, ProperRegs, Stacked, SelectAll, LowFirst, LowNodes;
    hide CoalesceAll, RepAll, InjectiveIds, ParamsPrecoloured, UseDefOf, Balanced, Spared, Allocatable, Apart,
      DropsSafe, EdgesDropped;
    forall v | v in p.crossing && v in p.phys
      ensures p.phys[v] != T5
    {
      SparedOutOfT5(f, params, p, colors, order, chosen, v);
    }
    forall b | 0 <= b < |f| && Reachable(Flow(f), 0, b)
      ensures Apart(p, f[b], p.outs[b])
    {
      ApartInBlock(f, p, b);
    }
    PlanWorks(f, params, p, uses, defs, ins);
  }
}
