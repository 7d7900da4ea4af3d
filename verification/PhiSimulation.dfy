/** Replacing phis by moves keeps every run of a function without critical edges. */
module PhiSimulation {
  import opened Graphs
  import opened IR
  import opened ParallelCopies
  import opened PhiElimination

  // ---- What the pass may rely on ----

  /** Some phi of block `v` defines `x`. */
  predicate PhiDefines(f: Func, v: nat, x: Name) {
    v < |f| && exists k :: 0 <= k < |f[v].phis| && f[v].phis[k].result == x
  }

  /** A program name whose defining phis, if any, dominate block `b`. */
  ghost predicate Available(f: Func, b: nat, x: Name) {
    !Reserved(x) && forall v :: PhiDefines(f, v, x) ==> Dominates(Flow(f), 0, v, b)
  }

  ghost predicate OperandAvailable(f: Func, b: nat, o: Operand) {
    o.Var? ==> Available(f, b, o.name)
  }

  /** Every use in `b`, and every phi operand on an edge out of `b`, is dominated by the phi that defines it. */
  ghost predicate UsesAvailable(f: Func, b: nat) {
    b < |f| ==>
      && (forall i, k :: 0 <= i < |f[b].body| && 0 <= k < |Uses(f[b].body[i])| ==>
        OperandAvailable(f, b, Uses(f[b].body[i])[k]))
      && (forall k :: 0 <= k < |TermUses(f[b].term)| ==> OperandAvailable(f, b, TermUses(f[b].term)[k]))
      && (forall v, c :: v in Successors(f[b].term) && v < |f| && c in EdgeCopies(f[v].phis, b) ==>
        OperandAvailable(f, b, c.from))
  }

  ghost predicate StrictPhis(f: Func) {
    forall b :: Reachable(Flow(f), 0, b) ==> UsesAvailable(f, b)
  }

  /** Phi results are unique, and each phi has an operand for every predecessor. */
  ghost predicate SsaPhis(f: Func) {
    && (forall v, w, x :: PhiDefines(f, v, x) && PhiDefines(f, w, x) ==> v == w)
    && (forall b, v, x :: 0 <= b < |f| && v in Successors(f[b].term) && PhiDefines(f, v, x) ==>
      exists c :: c in EdgeCopies(f[v].phis, b) && c.to == x)
  }

  ghost predicate Lowerable(f: Func) {
    && ValidTargets(f) && PhisOk(f) && SsaPhis(f) && StrictPhis(f) && NoCriticalEdges(f) && EntryHasNoPredecessor(f)
  }

  // ---- Dominance along an edge ----

  /** The first part of a path up to the first visit of `b`. */
  lemma {:induction false} FirstVisit(g: Graph, b: nat, p: seq<nat>) returns (q: seq<nat>)
    requires PathFromTo(g, 0, b, p)
    ensures PathFromTo(g, 0, b, q) && forall i :: 0 <= i < |q| - 1 ==> q[i] != b
    decreases |p|
  {
    if i :| 0 <= i < |p| - 1 && p[i] == b {
      SubPath(g, p, 0, i);
      q := FirstVisit(g, b, p[0..i + 1]);
    } else {
      q := p;
    }
  }

  /** A reachable block whose only predecessor is `b` is not `b` and does not dominate it. */
  lemma OnlyChildBelow(g: Graph, b: nat, v: nat)
    requires Reachable(g, 0, b) && v != 0
    requires forall c: nat :: Edge(g, c, v) ==> c == b
    ensures b != v && !Dominates(g, 0, v, b)
  {
    var p :| PathFromTo(g, 0, b, p);
    var q := FirstVisit(g, b, p);
    if |q| >= 2 {
      assert Edge(g, q[|q| - 2], q[|q| - 1]);
    }
    forall i | 0 <= i < |q|
      ensures q[i] != v
    {
      if 0 < i < |q| {
        assert Edge(g, q[i - 1], q[i]);
      }
    }
    assert v !in q;
  }

  /** The targets of a branch dominate neither the branch block nor each other. */
  lemma BranchTargets(f: Func, b: nat, v: nat)
    requires Lowerable(f) && Reachable(Flow(f), 0, b) && b < |f| && f[b].term.Branch? && v in Successors(f[b].term)
    ensures v != b && !Dominates(Flow(f), 0, v, b)
    ensures forall u :: u in Successors(f[b].term) && u != v ==> !Dominates(Flow(f), 0, v, u)
  {
    var g := Flow(f);
    forall c: nat | Edge(g, c, v)
      ensures c == b
    {
      assert v in Successors(f[c].term);
    }
    OnlyChildBelow(g, b, v);
    forall u | u in Successors(f[b].term) && u != v
      ensures !Dominates(g, 0, v, u)
    {
      assert u in g[b];
      if Dominates(g, 0, v, u) {
        DominatesSource(g, b, u, v);
      }
    }
  }

  // ---- Runs related by the values of the available names ----

  ghost function AvailableNames(f: Func, b: nat): iset<Name> {
    iset x: Name | Available(f, b, x)
  }

  /** Same block, same events, same values of every name that may still be read; or the same end. */
  ghost predicate SameRun(f: Func, c: Config, d: Config) {
    match (c, d)
    case (At(b, s), At(b', s')) => b == b' && s.history == s'.history && AgreeOn(AvailableNames(f, b), s.env, s'.env)
    case (Left(v, h), Left(v', h')) => v == v' && h == h'
    case (Stuck, Stuck) => true
    case _ => false
  }

  lemma {:induction false} LookupAllAgrees(names: iset<Name>, a: Env, b: Env, os: seq<Operand>)
    requires AgreeOn(names, a, b)
    requires forall k :: 0 <= k < |os| ==> os[k].Var? ==> os[k].name in names
    ensures LookupAll(a, os) == LookupAll(b, os)
  {
    if os != [] {
      assert os[0].Var? ==> os[0].name in names;
      LookupAllAgrees(names, a, b, os[1..]);
    }
  }

  /** One instruction reads and writes the same values in states that agree on what it uses. */
  lemma ExecAgrees(w: World, i: Instr, names: iset<Name>, s: State, t: State)
    requires AgreeOn(names, s.env, t.env) && s.history == t.history
    requires forall k :: 0 <= k < |Uses(i)| ==> Uses(i)[k].Var? ==> Uses(i)[k].name in names
    ensures var (s', t') := (Exec(w, i, s), Exec(w, i, t));
      s'.Some? == t'.Some? && (s'.Some? ==>
        AgreeOn(names, s'.value.env, t'.value.env) &&
        s'.value.history == t'.value.history)
  {
    LookupAllAgrees(names, s.env, t.env, Uses(i));
    match i
    case Move(x, a) =>
      assert Uses(i)[0] == a;
    case Effect(_, _, _) =>
    case Arith(_, _, _, _, _) =>
    case Neg(_, _, _, _) =>
    case Compare(_, _, _, _) =>
    case Select(_, _) =>
  }

  lemma {:induction false} ExecAllAgrees(w: World, body: seq<Instr>, names: iset<Name>, s: State, t: State)
    requires AgreeOn(names, s.env, t.env) && s.history == t.history
    requires forall j, k :: 0 <= j < |body| && 0 <= k < |Uses(body[j])| ==> Uses(body[j])[k].Var? ==>
        Uses(body[j])[k].name in names
    ensures var (s', t') := (ExecAll(w, body, s), ExecAll(w, body, t));
      s'.Some? == t'.Some? && (s'.Some? ==>
        AgreeOn(names, s'.value.env, t'.value.env) &&
        s'.value.history == t'.value.history)
  {
    if body != [] {
      ExecAgrees(w, body[0], names, s, t);
      if Exec(w, body[0], s).Some? {
        ExecAllAgrees(w, body[1..], names, Exec(w, body[0], s).value, Exec(w, body[0], t).value);
      }
    }
  }

  // ---- The moves of all edges out of a block ----

  /** `env` is `env0` with the copies of every edge from `b` to a block of `done` made on the values of `env0`. */
  ghost predicate EdgesDone(f: Func, b: nat, done: seq<nat>, env0: Env, env: Env) {
    && (forall v, c :: v in done && v < |f| && c in EdgeCopies(f[v].phis, b) ==>
      Lookup(env, Var(c.to)) == Lookup(env0, c.from))
    && (forall x :: !Reserved(x) && (forall v :: v in done ==> !PhiDefines(f, v, x)) ==>
      Lookup(env, Var(x)) == Lookup(env0, Var(x)))
  }

  lemma {:induction false} CopiesDefined(phis: seq<Phi>, b: nat, c: Copy) returns (k: nat)
    requires c in EdgeCopies(phis, b)
    ensures k < |phis| && phis[k].result == c.to
  {
    if c in ArgsFrom(phis[0], phis[0].args, b) {
      k := 0;
    } else {
      k := CopiesDefined(phis[1..], b, c);
      k := k + 1;
    }
  }

  /** What the next edge copies was not written by the edges before it. */
  lemma SourceUnchanged(f: Func, b: nat, k: nat, o: Operand, env0: Env, env: Env)
    requires Lowerable(f) && Reachable(Flow(f), 0, b) && b < |f|
    requires k < |Successors(f[b].term)| || (k == |Successors(f[b].term)| && f[b].term.Branch?)
    requires OperandAvailable(f, b, o) && EdgesDone(f, b, Successors(f[b].term)[..k], env0, env)
    ensures Lookup(env, o) == Lookup(env0, o)
  {
    if o.Var? {
      forall v | v in Successors(f[b].term)[..k]
        ensures !PhiDefines(f, v, o.name)
      {
        BranchTargets(f, b, v);
      }
    }
  }

  /** The moves of one more edge. */
  lemma OneMoreEdge(f: Func, b: nat, k: nat, w: World, code: seq<Instr>, env0: Env, s: State)
    requires Lowerable(f) && Reachable(Flow(f), 0, b) && b < |f| && k < |Successors(f[b].term)|
    requires EdgesDone(f, b, Successors(f[b].term)[..k], env0, s.env)
    requires Successors(f[b].term)[k] < |f| && Realises(code, EdgeCopies(f[Successors(f[b].term)[k]].phis, b))
    ensures var r := ExecAll(w, code, s);
      r.Some? && r.value.history == s.history && EdgesDone(f, b, Successors(f[b].term)[..k + 1], env0, r.value.env)
  {
    var succs := Successors(f[b].term);
    var v := succs[k];
    var copies := EdgeCopies(f[v].phis, b);
    assert CopiesDone(w, code, s, copies);
    var env := ExecAll(w, code, s).value.env;
    assert v in succs;
    assert succs[..k + 1] == succs[..k] + [v];
    forall u, c | u in succs[..k + 1] && u < |f| && c in EdgeCopies(f[u].phis, b)
      ensures Lookup(env, Var(c.to)) == Lookup(env0, c.from)
    {
      assert u in succs;
      assert !Reserved(c.to);
      assert c.to in ProgramNames();
      ParallelCopyAt(s.env, copies, c.to);
      if u == v {
        assert UsesAvailable(f, b);
        SourceUnchanged(f, b, k, c.from, env0, s.env);
      } else {
        var i := CopiesDefined(f[u].phis, b, c);
        assert PhiDefines(f, u, c.to);
        forall d | d in copies
          ensures d.to != c.to
        {
          var j := CopiesDefined(f[v].phis, b, d);
          assert PhiDefines(f, v, d.to);
        }
      }
    }
    forall x | !Reserved(x) && (forall u :: u in succs[..k + 1] ==> !PhiDefines(f, u, x))
      ensures Lookup(env, Var(x)) == Lookup(env0, Var(x))
    {
      assert x in ProgramNames();
      ParallelCopyAt(s.env, copies, x);
      forall d | d in copies
        ensures d.to != x
      {
        var j := CopiesDefined(f[v].phis, b, d);
        assert PhiDefines(f, v, d.to);
      }
    }
  }

  lemma NoEdges(f: Func, b: nat, env: Env)
    ensures EdgesDone(f, b, [], env, env)
  {
  }

  /** The moves of the first `k` edges. */
  lemma {:induction false} EdgesInOrder(f: Func, b: nat, k: nat, w: World, code: seq<Instr>, s: State)
    requires Lowerable(f) && Reachable(Flow(f), 0, b) && b < |f| && k <= |Successors(f[b].term)|
    requires AppendsMoves(f, b, Successors(f[b].term)[..k], code)
    ensures var r := ExecAll(w, code, s);
      r.Some? && r.value.history == s.history && EdgesDone(f, b, Successors(f[b].term)[..k], s.env, r.value.env)
  {
    hide Lowerable, EdgesDone, Realises, EdgeCopies;
    var succs := Successors(f[b].term);
    if k == 0 {
      NoEdges(f, b, s.env);
    } else {
      assert succs[..k][..k - 1] == succs[..k - 1];
      var i :| 0 <= i <= |code| && succs[k - 1] < |f| && AppendsMoves(f, b, succs[..k - 1], code[..i])
            && Realises(code[i..], EdgeCopies(f[succs[k - 1]].phis, b));
      EdgesInOrder(f, b, k - 1, w, code[..i], s);
      ExecAppend(w, code[..i], code[i..], s);
      assert code[..i] + code[i..] == code;
      OneMoreEdge(f, b, k - 1, w, code[i..], s.env, ExecAll(w, code[..i], s).value);
    }
  }

  // ---- One block ----

  /** After the copies of the taken edge, the names available in its target agree. */
  lemma TakeEdge(f: Func, b: nat, v: nat, e: Env, e0: Env, env: Env)
    requires Lowerable(f) && Reachable(Flow(f), 0, b) && b < |f| && v in Successors(f[b].term) && v < |f|
    requires AgreeOn(AvailableNames(f, b), e, e0)
    requires EdgesDone(f, b, Successors(f[b].term), e0, env)
    ensures AgreeOn(AvailableNames(f, v), ParallelCopy(e, EdgeCopies(f[v].phis, b)), env)
  {
    var copies := EdgeCopies(f[v].phis, b);
    forall x | x in AvailableNames(f, v)
      ensures Lookup(ParallelCopy(e, copies), Var(x)) == Lookup(env, Var(x))
    {
      ParallelCopyAt(e, copies, x);
      if c :| c in copies && c.to == x {
        assert UsesAvailable(f, b);
        assert c.from.Var? ==> c.from.name in AvailableNames(f, b);
      } else {
        NotDefinedAt(f, b, v, x);
        assert x in AvailableNames(f, b);
      }
    }
  }

  /** A name available in the target and not written on the way is available in the source, and no other edge writes
   * it. */
  lemma NotDefinedAt(f: Func, b: nat, v: nat, x: Name)
    requires Lowerable(f) && Reachable(Flow(f), 0, b) && b < |f| && v in Successors(f[b].term) && v < |f|
    requires Available(f, v, x) && forall c :: c in EdgeCopies(f[v].phis, b) ==> c.to != x
    ensures Available(f, b, x) && forall u :: u in Successors(f[b].term) ==> !PhiDefines(f, u, x)
  {
    assert !PhiDefines(f, v, x);
    assert Edge(Flow(f), b, v);
    forall u | PhiDefines(f, u, x)
      ensures Dominates(Flow(f), 0, u, b) && u !in Successors(f[b].term)
    {
      DominatesSource(Flow(f), b, v, u);
      if u in Successors(f[b].term) {
        assert f[b].term.Branch?;
        BranchTargets(f, b, u);
      }
    }
  }

  /** The body and the moves: the same body first, then every edge's copies. */
  lemma SameBody(f: Func, b: nat, w: World, code: seq<Instr>, s: State, t: State)
    requires Lowerable(f) && Reachable(Flow(f), 0, b) && b < |f| && AppendsMoves(f, b, Successors(f[b].term), code)
    requires s.history == t.history && AgreeOn(AvailableNames(f, b), s.env, t.env)
    ensures var (s', t') := (ExecAll(w, f[b].body, s), ExecAll(w, f[b].body + code, t));
      && s'.Some? == t'.Some?
      && (s'.Some? ==> t'.value.history == s'.value.history)
      && (s'.Some? ==> exists env0 ::
        AgreeOn(AvailableNames(f, b), s'.value.env, env0) &&
        EdgesDone(f, b, Successors(f[b].term), env0, t'.value.env))
  {
    hide EdgesDone, AppendsMoves, AgreeOn;
    assert forall j, k :: 0 <= j < |f[b].body| && 0 <= k < |Uses(f[b].body[j])| ==> Uses(f[b].body[j])[k].Var? ==>
        Uses(f[b].body[j])[k].name in AvailableNames(f, b) by {
      assert UsesAvailable(f, b);
    }
    hide Lowerable, AvailableNames;
    ExecAllAgrees(w, f[b].body, AvailableNames(f, b), s, t);
    ExecAppend(w, f[b].body, code, t);
    if ExecAll(w, f[b].body, s).Some? {
      var succs := Successors(f[b].term);
      assert succs[..|succs|] == succs;
      EdgesInOrder(f, b, |succs|, w, code, ExecAll(w, f[b].body, t).value);
    }
  }

  lemma SameStep(f: Func, r: Func, w: World, b: nat, s: State, t: State)
    requires Lowerable(f) && PhisReplaced(f, r) && Reachable(Flow(f), 0, b)
    requires SameRun(f, At(b, s), At(b, t))
    ensures SameRun(f, StepBlock(w, f, At(b, s)), StepBlock(w, r, At(b, t)))
  {
    assert ValidTargets(f);
    hide Lowerable, EdgesDone, AvailableNames, AppendsMoves, AgreeOn, Follow;
    if b < |f| {
      assert BlockReplaced(f, r[b], b);
      var code := r[b].body[|f[b].body|..];
      assert r[b].body == f[b].body + code;
      SameBody(f, b, w, code, s, t);
      if ExecAll(w, f[b].body, s).Some? {
        var e, env := ExecAll(w, f[b].body, s).value.env, ExecAll(w, r[b].body, t).value.env;
        var env0 :| AgreeOn(AvailableNames(f, b), e, env0) && EdgesDone(f, b, Successors(f[b].term), env0, env);
        SameFollow(f, b, e, env0, env);
        if Follow(f[b].term, e).Goto? {
          var v := Follow(f[b].term, e).block;
          GoesToSuccessor(f, b, e);
          TakeEdge(f, b, v, e, env0, env);
          assert BlockReplaced(f, r[v], v);
        }
      }
    }
  }

  lemma GoesToSuccessor(f: Func, b: nat, env: Env)
    requires ValidTargets(f) && b < |f| && Follow(f[b].term, env).Goto?
    ensures Follow(f[b].term, env).block in Successors(f[b].term) && Follow(f[b].term, env).block < |f|
  {
    assert Successors(f[b].term) == Flow(f)[b];
  }

  /** The moves before the terminator do not change where it goes. */
  lemma SameFollow(f: Func, b: nat, e: Env, e0: Env, env: Env)
    requires Lowerable(f) && Reachable(Flow(f), 0, b) && b < |f|
    requires AgreeOn(AvailableNames(f, b), e, e0) && EdgesDone(f, b, Successors(f[b].term), e0, env)
    ensures Follow(f[b].term, e) == Follow(f[b].term, env)
  {
    assert UsesAvailable(f, b);
    var succs := Successors(f[b].term);
    assert succs[..|succs|] == succs;
    match f[b].term
    case Branch(c, _, _) =>
      assert TermUses(f[b].term)[0] == c;
      assert c.Var? ==> c.name in AvailableNames(f, b);
      SourceUnchanged(f, b, |succs|, c, e0, env);
    case Return(Some(o)) =>
      assert TermUses(f[b].term)[0] == o;
      assert o.Var? ==> o.name in AvailableNames(f, b);
      assert o.Var? ==> Lookup(env, o) == Lookup(e0, o);
    case _ =>
  }

  /** The main result: block by block, the two functions do the same. */
  lemma {:induction false} ReplacingPhisKeepsRuns(f: Func, r: Func, w: World, params: Env, n: nat)
    requires Lowerable(f) && PhisReplaced(f, r)
    ensures SameRun(f, Runs(w, f, Start(params), n), Runs(w, r, Start(params), n))
  {
    hide PhisReplaced, AvailableNames, StepBlock, StrictPhis, SsaPhis, NoCriticalEdges, PhisOk;
    if n > 0 {
      ReplacingPhisKeepsRuns(f, r, w, params, n - 1);
      VisitedReachable(f, w, params, n - 1);
      var c, d := Runs(w, f, Start(params), n - 1), Runs(w, r, Start(params), n - 1);
      if c.At? {
        SameStep(f, r, w, c.block, c.state, d.state);
      } else {
        Stopped(w, f, c);
        Stopped(w, r, d);
      }
    }
  }
}
