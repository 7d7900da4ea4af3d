/** Phis become moves at the end of the predecessors: the lowering and its simulation proof. */
module PhiElimination {
  import opened Graphs
  import opened IR
  import opened ParallelCopies

  const TEMP: Name := "%phi.temp."

  /** Decimal digits of a number. */
  function Decimal(n: nat): string {
    if n < 10 then ["0123456789"[n]] else Decimal(n / 10) + ["0123456789"[n % 10]]
  }

  lemma {:induction false} DecimalInjective(m: nat, n: nat)
    requires Decimal(m) == Decimal(n)
    ensures m == n
  {
    DigitsDiffer(m % 10, n % 10);
    if m < 10 || n < 10 {
      DecimalLength(m);
      DecimalLength(n);
    } else {
      assert Decimal(m)[..|Decimal(m)| - 1] == Decimal(m / 10) && Decimal(n)[..|Decimal(n)| - 1] == Decimal(n / 10);
      DecimalInjective(m / 10, n / 10);
    }
  }

  lemma DecimalLength(n: nat)
    ensures if n < 10 then |Decimal(n)| == 1 else |Decimal(n)| > 1
    ensures Decimal(n)[|Decimal(n)| - 1] == "0123456789"[n % 10]
  {
    if n >= 10 {
      DecimalLength(n / 10);
    }
  }

  lemma DigitsDiffer(a: nat, b: nat)
    requires a < 10 && b < 10
    ensures "0123456789"[a] == "0123456789"[b] ==> a == b
  {
  }

  /** The name allocator: each raw name carries its own counter. */
  class NameAllocator {
    var repeatCnt: map<Name, nat>

    constructor ()
      ensures repeatCnt == map[]
    {
      repeatCnt := map[];
    }

    ghost function Count(raw: Name): nat
      reads this
    {
      if raw in repeatCnt then repeatCnt[raw] else 0
    }

    method Allocate(raw: Name) returns (name: Name)
      modifies this
      ensures Count(raw) == old(Count(raw)) + 1 && name == raw + "." + Decimal(Count(raw))
      ensures forall other :: other != raw ==> Count(other) == old(Count(other))
    {
      var cnt := (if raw in repeatCnt then repeatCnt[raw] else 0) + 1;
      repeatCnt := repeatCnt[raw := cnt];
      name := raw + "." + Decimal(cnt);
    }
  }

  /** Names that the program itself never uses: the empty one and the cycle temporaries. */
  predicate Reserved(x: Name) {
    x == "" || TEMP <= x
  }

  /** Two environments with the same values for the names in `names`. */
  ghost predicate AgreeOn(names: iset<Name>, a: Env, b: Env) {
    forall x :: x in names ==> Lookup(a, Var(x)) == Lookup(b, Var(x))
  }

  ghost function ProgramNames(): iset<Name> {
    iset x: Name | !Reserved(x)
  }

  // ---- Lowering the steps of the solver to move instructions ----

  /** One step as a move; `cur` is the temporary of the current cycle. */
  function LowerStep(s: Step, cur: Name): Instr {
    match s
    case Plain(from, to) => Move(to, from)
    case Save(from) => Move(cur, from)
    case Restore(to) => Move(to, Var(cur))
  }

  /** The moves `code` do to every state what `steps` do to the machine with the same variables. */
  ghost predicate Lowers(code: seq<Instr>, steps: seq<Step>, cur: Name) {
    Reserved(cur) &&
    forall w: World, s: State, m: Machine ::
      AgreeOn(ProgramNames(), s.env, m.env) && m.temp == Lookup(s.env, Var("")) ==>
        Tracks(w, code, s, Run(m, steps), cur)
  }

  ghost predicate Tracks(w: World, code: seq<Instr>, s: State, m: Machine, cur: Name) {
    var r := ExecAll(w, code, s);
    r.Some? && r.value.history == s.history && AgreeOn(ProgramNames(), r.value.env, m.env) &&
      m.temp == Lookup(r.value.env, Var(cur))
  }

  lemma {:induction false} ExecAppend(w: World, a: seq<Instr>, b: seq<Instr>, s: State)
    ensures ExecAll(w, a + b, s) == (match ExecAll(w, a, s) case None => None case Some(s') => ExecAll(w, b, s'))
  {
    if a == [] {
      assert a + b == b;
    } else {
      assert (a + b)[1..] == a[1..] + b;
      match Exec(w, a[0], s)
      case None =>
      case Some(s') => ExecAppend(w, a[1..], b, s');
    }
  }

  /** Sources and targets of the copies are names of the program. */
  predicate ProgramStep(s: Step) {
    match s
    case Plain(from, to) => (from.Var? ==> !Reserved(from.name)) && !Reserved(to)
    case Save(from) => from.Var? ==> !Reserved(from.name)
    case Restore(to) => !Reserved(to)
  }

  lemma LowersOne(code: seq<Instr>, steps: seq<Step>, cur: Name, s: Step, cur': Name)
    requires Lowers(code, steps, cur) && ProgramStep(s)
    requires if s.Save? then Reserved(cur') else cur' == cur
    ensures Lowers(code + [LowerStep(s, cur')], steps + [s], cur')
  {
    forall w: World, st: State, m: Machine | AgreeOn(ProgramNames(), st.env, m.env) && m.temp == Lookup(st.env, Var(""))
      ensures Tracks(w, code + [LowerStep(s, cur')], st, Run(m, steps + [s]), cur')
    {
      assert Tracks(w, code, st, Run(m, steps), cur);
      ExecAppend(w, code, [LowerStep(s, cur')], st);
      assert (steps + [s])[..|steps|] == steps;
      var mid := ExecAll(w, code, st).value;
      assert Exec(w, LowerStep(s, cur'), mid).Some?;
      assert [LowerStep(s, cur')][1..] == [];
      StepAgrees(w, s, cur', mid, Run(m, steps), cur);
    }
  }

  lemma StepAgrees(w: World, s: Step, cur': Name, st: State, m: Machine, cur: Name)
    requires ProgramStep(s) && Reserved(cur) && (if s.Save? then Reserved(cur') else cur' == cur)
    requires AgreeOn(ProgramNames(), st.env, m.env) && m.temp == Lookup(st.env, Var(cur))
    ensures var st' := Exec(w, LowerStep(s, cur'), st).value;
      st'.history == st.history && AgreeOn(ProgramNames(), st'.env, Do(m, s).env) &&
        Do(m, s).temp == Lookup(st'.env, Var(cur'))
  {
    match s
    case Plain(from, to) =>
      assert from.Var? ==> from.name in ProgramNames();
    case Save(from) =>
      assert from.Var? ==> from.name in ProgramNames();
    case Restore(to) =>
  }

  method LowerMoves(steps: seq<Step>, allocator: NameAllocator) returns (code: seq<Instr>)
    requires forall k :: 0 <= k < |steps| ==> ProgramStep(steps[k])
    modifies allocator
    ensures exists cur :: Lowers(code, steps, cur)
    ensures forall k :: 0 <= k < |code| ==> code[k].Move?
  {
    code := [];
    var cycleTemp := "";
    NothingLowered();
    for k := 0 to |steps|
      invariant Lowers(code, steps[..k], cycleTemp)
      invariant forall k :: 0 <= k < |code| ==> code[k].Move?
    {
      ghost var code0, cur0 := code, cycleTemp;
      match steps[k] {
        case Save(from) =>
          cycleTemp := allocator.Allocate(TEMP);
          code := code + [Move(cycleTemp, from)];
        case Restore(to) =>
          code := code + [Move(to, Var(cycleTemp))];
        case Plain(from, to) =>
          code := code + [Move(to, from)];
      }
      LowersOne(code0, steps[..k], cur0, steps[k], cycleTemp);
      assert steps[..k + 1] == steps[..k] + [steps[k]];
    }
    assert steps[..|steps|] == steps;
  }

  lemma NothingLowered()
    ensures Lowers([], [], "")
  {
  }

  // ---- Replacing the phis of a whole function ----

  /** `code` has the effect of the simultaneous copy on all the names of the program. */
  ghost predicate Realises(code: seq<Instr>, copies: seq<Copy>) {
    forall w: World, s: State :: CopiesDone(w, code, s, copies)
  }

  ghost predicate CopiesDone(w: World, code: seq<Instr>, s: State, copies: seq<Copy>) {
    var r := ExecAll(w, code, s);
    r.Some? && r.value.history == s.history && AgreeOn(ProgramNames(), r.value.env, ParallelCopy(s.env, copies))
  }

  predicate ProgramCopies(copies: seq<Copy>) {
    forall c :: c in copies ==> !Reserved(c.to) && (c.from.Var? ==> !Reserved(c.from.name))
  }

  /** The moves for one edge. */
  method EdgeMoves(copies: seq<Copy>, allocator: NameAllocator) returns (code: seq<Instr>)
    requires DistinctTargets(copies) && ProgramCopies(copies)
    modifies allocator
    ensures Realises(code, copies)
  {
    var topo := new PhiTopo();
    for k := 0 to |copies|
      invariant topo.Valid() && topo.g_ == [] && topo.edges_ == copies[..k] && fresh(topo)
    {
      topo.AddEdge(copies[k].from, copies[k].to);
      assert copies[..k + 1] == copies[..k] + [copies[k]];
    }
    assert copies[..|copies|] == copies;
    var order := topo.Solve();
    forall k | 0 <= k < |order|
      ensures ProgramStep(order[k])
    {
      DrawnIsProgram(order, copies, k);
    }
    code := LowerMoves(order, allocator);
    LoweredRealises(code, order, copies);
  }

  lemma DrawnIsProgram(steps: seq<Step>, copies: seq<Copy>, k: nat)
    requires Drawn(steps, copies) && ProgramCopies(copies) && k < |steps|
    ensures ProgramStep(steps[k])
  {
    match steps[k]
    case Plain(from, to) => assert Copy(from, to) in copies;
    case Save(from) =>
    case Restore(to) =>
  }

  lemma LoweredRealises(code: seq<Instr>, steps: seq<Step>, copies: seq<Copy>)
    requires exists cur :: Lowers(code, steps, cur)
    requires forall m: Machine :: Run(m, steps).env == ParallelCopy(m.env, copies)
    ensures Realises(code, copies)
  {
    var cur :| Lowers(code, steps, cur);
    forall w: World, s: State
      ensures CopiesDone(w, code, s, copies)
    {
      var m := Machine(s.env, Lookup(s.env, Var("")));
      assert Tracks(w, code, s, Run(m, steps), cur);
    }
  }

  /** One operand for each predecessor, from program names, results distinct in each block. */
  ghost predicate PhisOk(f: Func) {
    forall b, v :: 0 <= b < |f| && v in Successors(f[b].term) && v < |f| ==>
      DistinctTargets(EdgeCopies(f[v].phis, b)) && ProgramCopies(EdgeCopies(f[v].phis, b))
  }

  /** Moves for each successor in turn. */
  ghost predicate AppendsMoves(f: Func, b: nat, succs: seq<nat>, code: seq<Instr>)
    decreases |succs|
  {
    if succs == [] then code == []
    else exists k :: 0 <= k <= |code| && succs[|succs| - 1] < |f|
           && AppendsMoves(f, b, succs[..|succs| - 1], code[..k])
           && Realises(code[k..], EdgeCopies(f[succs[|succs| - 1]].phis, b))
  }

  /** `r` is `f` with its phis gone and the moves of every edge at the end of the block it leaves. */
  ghost predicate PhisReplaced(f: Func, r: Func) {
    && |r| == |f|
    && forall b :: 0 <= b < |f| ==> BlockReplaced(f, r[b], b)
  }

  ghost predicate BlockReplaced(f: Func, blk: Block, b: nat)
    requires b < |f|
  {
    && blk.phis == [] && blk.term == f[b].term
    && |f[b].body| <= |blk.body| && blk.body[..|f[b].body|] == f[b].body
    && AppendsMoves(f, b, Successors(f[b].term), blk.body[|f[b].body|..])
  }

  method ReplacePhiWithMoves(f: Func) returns (r: Func)
    requires ValidTargets(f) && PhisOk(f)
    ensures PhisReplaced(f, r)
  {
    var allocator := new NameAllocator();
    r := f;
    for b := 0 to |f|
      invariant |r| == |f|
      invariant forall i :: b <= i < |f| ==> r[i] == f[i]
      invariant forall i :: 0 <= i < b ==> BlockReplaced(f, r[i].(phis := []), i)
    {
      var succs := Successors(f[b].term);
      assert succs == Flow(f)[b];
      var code: seq<Instr> := [];
      for k := 0 to |succs|
        invariant AppendsMoves(f, b, succs[..k], code)
      {
        var v := succs[k];
        assert v in Successors(f[b].term) && v < |f|;
        var more := EdgeMoves(EdgeCopies(f[v].phis, b), allocator);
        assert succs[..k + 1][..k] == succs[..k];
        assert (code + more)[..|code|] == code && (code + more)[|code|..] == more;
        code := code + more;
      }
      assert succs[..|succs|] == succs;
      var body := r[b].body + code;
      assert body[..|f[b].body|] == f[b].body && body[|f[b].body|..] == code;
      r := r[b := r[b].(body := body)];
    }
    for b := 0 to |f|
      invariant |r| == |f|
      invariant forall i :: 0 <= i < b ==> BlockReplaced(f, r[i], i)
      invariant forall i :: b <= i < |f| ==> BlockReplaced(f, r[i].(phis := []), i)
    {
      r := r[b := r[b].(phis := [])];
    }
  }
}
