/** Why conditional constant propagation finds no more than it has to: below every solution, in SSA form. */
module SccpPrecision {
  import opened Graphs
  import opened IR
  import opened SccpLattice
  import opened SsaProperties

  // ---- Cells only fall, blocks only become executable ----

  ghost predicate Lower(lat: Lattice, exec: seq<bool>, lat': Lattice, exec': seq<bool>) {
    && |exec'| == |exec|
    && (forall x :: AtOrBelow(GetLattice(lat', Var(x)), GetLattice(lat, Var(x))))
    && (forall b :: 0 <= b < |exec| && exec[b] ==> exec'[b])
  }

  lemma LowerTwice(lat: Lattice, exec: seq<bool>, lat1: Lattice, exec1: seq<bool>, lat2: Lattice, exec2: seq<bool>)
    requires Lower(lat, exec, lat1, exec1) && Lower(lat1, exec1, lat2, exec2)
    ensures Lower(lat, exec, lat2, exec2)
  {
    forall x
      ensures AtOrBelow(GetLattice(lat2, Var(x)), GetLattice(lat, Var(x)))
    {
      assert AtOrBelow(GetLattice(lat1, Var(x)), GetLattice(lat, Var(x)));
    }
  }

  lemma LowerCell(lat: Lattice, exec: seq<bool>, lat': Lattice, exec': seq<bool>, o: Operand)
    requires Lower(lat, exec, lat', exec')
    ensures AtOrBelow(GetLattice(lat', o), GetLattice(lat, o))
  {
  }

  /** Lower operands give a lower result. */
  lemma TransferMonotone(i: Instr, lat: Lattice, lat': Lattice)
    requires forall k :: 0 <= k < |Uses(i)| ==> AtOrBelow(GetLattice(lat', Uses(i)[k]), GetLattice(lat, Uses(i)[k]))
    ensures AtOrBelow(Transfer(i, lat'), Transfer(i, lat))
  {
    hide FoldArithmetic, CmpHolds, GetLattice;
    match i
    case Arith(_, _, _, l, r) => assert Uses(i)[0] == l && Uses(i)[1] == r;
    case Compare(_, _, l, r) => assert Uses(i)[0] == l && Uses(i)[1] == r;
    case Neg(_, _, _, o) => assert Uses(i)[0] == o;
    case Select(_, o) => assert Uses(i)[0] == o;
    case Move(_, o) => assert Uses(i)[0] == o;
    case Effect(_, _, _) =>
  }

  lemma {:induction false} MeetMonotone(lat: Lattice, exec: seq<bool>, lat': Lattice, exec': seq<bool>,
      args: seq<(Operand, nat)>)
    requires Lower(lat, exec, lat', exec')
    ensures AtOrBelow(MeetArgs(lat', exec', args), MeetArgs(lat, exec, args))
    decreases |args|
  {
    if args != [] {
      MeetMonotone(lat, exec, lat', exec', args[..|args| - 1]);
      LowerCell(lat, exec, lat', exec', args[|args| - 1].0);
    }
  }

  lemma SiteMonotone(f: Func, lat: Lattice, exec: seq<bool>, lat': Lattice, exec': seq<bool>, b: nat, s: Site)
    requires Lower(lat, exec, lat', exec') && ValidSite(f, b, s)
    ensures AtOrBelow(SiteValue(f, lat', exec', b, s), SiteValue(f, lat, exec, b, s))
  {
    match s
    case PhiAt(k) => MeetMonotone(lat, exec, lat', exec', f[b].phis[k].args);
    case InsAt(k) =>
      forall j | 0 <= j < |Uses(f[b].body[k])|
        ensures AtOrBelow(GetLattice(lat', Uses(f[b].body[k])[j]), GetLattice(lat, Uses(f[b].body[k])[j]))
      {
        LowerCell(lat, exec, lat', exec', Uses(f[b].body[k])[j]);
      }
      TransferMonotone(f[b].body[k], lat, lat');
    case TermAt =>
  }

  // ---- No more than every solution demands ----

  ghost predicate Optimistic(f: Func, params: set<Name>, lat: Lattice, exec: seq<bool>) {
    forall lat2: Lattice, exec2: seq<bool> :: Solution(f, params, lat2, exec2) ==> Lower(lat, exec, lat2, exec2)
  }

  lemma SolvedAt(f: Func, params: set<Name>, lat: Lattice, exec: seq<bool>, b: nat, s: Site)
    requires Solution(f, params, lat, exec) && Executable(exec, b) && ValidSite(f, b, s)
    ensures Settled(f, lat, exec, b, s)
  {
  }

  lemma LowerFlag(lat: Lattice, exec: seq<bool>, lat': Lattice, exec': seq<bool>, b: nat)
    requires Lower(lat, exec, lat', exec') && Executable(exec, b)
    ensures Executable(exec', b)
  {
  }

  /** Evaluating a place of an executable block. */
  lemma WriteOptimistic(f: Func, params: set<Name>, lat: Lattice, exec: seq<bool>, b: nat, s: Site, x: Name)
    requires Optimistic(f, params, lat, exec) && Executable(exec, b) && ValidSite(f, b, s)
    requires SiteResult(f, b, s) == Some(x)
    ensures Optimistic(f, params, lat[x := SiteValue(f, lat, exec, b, s)], exec)
  {
    hide Solution, SiteValue, Lower;
    var lat' := lat[x := SiteValue(f, lat, exec, b, s)];
    forall lat2: Lattice, exec2: seq<bool> | Solution(f, params, lat2, exec2)
      ensures Lower(lat', exec, lat2, exec2)
    {
      assert Lower(lat, exec, lat2, exec2);
      LowerFlag(lat, exec, lat2, exec2, b);
      SolvedAt(f, params, lat2, exec2, b, s);
      SiteMonotone(f, lat, exec, lat2, exec2, b, s);
      LowerWritten(lat, exec, lat2, exec2, x, SiteValue(f, lat, exec, b, s));
    }
  }

  lemma LowerWritten(lat: Lattice, exec: seq<bool>, lat2: Lattice, exec2: seq<bool>, x: Name, v: Cell)
    requires Lower(lat, exec, lat2, exec2) && AtOrBelow(GetLattice(lat2, Var(x)), v)
    ensures Lower(lat[x := v], exec, lat2, exec2)
  {
  }

  /** The terminator of `c` lets `v` through: the taken target, or either when the condition is unknown; a condition
   * not yet evaluated lets nothing through. */
  ghost predicate LetsThrough(f: Func, lat: Lattice, c: nat, v: nat) {
    c < |f| && match f[c].term
      case Jump(d) => v == d
      case Branch(o, onTrue, onFalse) =>
        (match GetLattice(lat, o)
         case Top => false
         case Constant(k) => v == if k != 0 then onTrue else onFalse
         case Bottom => v == onTrue || v == onFalse)
      case _ => false
  }

  /** Following such a terminator. */
  lemma MarkOptimistic(f: Func, params: set<Name>, lat: Lattice, exec: seq<bool>, c: nat, v: nat)
    requires Optimistic(f, params, lat, exec) && Executable(exec, c) && LetsThrough(f, lat, c, v) && v < |exec|
    ensures Optimistic(f, params, lat, exec[v := true])
  {
    hide Solution;
    forall lat2: Lattice, exec2: seq<bool> | Solution(f, params, lat2, exec2)
      ensures Lower(lat, exec[v := true], lat2, exec2)
    {
      assert Lower(lat, exec, lat2, exec2);
      SolvedAt(f, params, lat2, exec2, c, TermAt);
      assert TakenExecutable(f[c].term, lat2, exec2);
      if f[c].term.Branch? {
        LowerCell(lat, exec, lat2, exec2, f[c].term.cond);
      }
    }
  }

  /** Every executable block but the first is let through by an executable one. */
  ghost predicate Entered(f: Func, lat: Lattice, exec: seq<bool>) {
    forall v: nat :: v != 0 && Executable(exec, v) ==> exists c: nat :: Executable(exec, c) && LetsThrough(f, lat, c, v)
  }

  lemma EnteredLater(f: Func, lat: Lattice, lat': Lattice, exec: seq<bool>)
    requires Entered(f, lat, exec) && Lower(lat, exec, lat', exec)
    ensures Entered(f, lat', exec)
  {
    hide Lower;
    forall v: nat | v != 0 && Executable(exec, v)
      ensures exists c: nat :: Executable(exec, c) && LetsThrough(f, lat', c, v)
    {
      var c: nat :| Executable(exec, c) && LetsThrough(f, lat, c, v);
      if f[c].term.Branch? {
        LowerCell(lat, exec, lat', exec, f[c].term.cond);
      }
      assert LetsThrough(f, lat', c, v);
    }
  }

  lemma MarkEntered(f: Func, lat: Lattice, exec: seq<bool>, c: nat, v: nat)
    requires Entered(f, lat, exec) && Executable(exec, c) && LetsThrough(f, lat, c, v) && v < |exec|
    ensures Entered(f, lat, exec[v := true])
  {
    hide LetsThrough;
    var exec' := exec[v := true];
    forall u: nat | u != 0 && Executable(exec', u)
      ensures exists d: nat :: Executable(exec', d) && LetsThrough(f, lat, d, u)
    {
      if u == v {
        assert Executable(exec', c);
      } else {
        assert Executable(exec, u);
        var d: nat :| Executable(exec, d) && LetsThrough(f, lat, d, u);
        assert Executable(exec', d);
      }
    }
  }

  // ---- What has been evaluated is known ----

  /** SSA form, as promotion leaves it. */
  ghost predicate Strict(f: Func, params: set<Name>) {
    UsesDominated(f, ParamNames(params)) && PhisComplete(f)
  }

  ghost function ParamNames(params: set<Name>): iset<Name> {
    iset x: Name | x in params
  }

  /** The cell has left the top of the lattice. */
  predicate Evaluated(lat: Lattice, o: Operand) {
    !GetLattice(lat, o).Top?
  }

  ghost predicate Processed(exec: seq<bool>, q: seq<nat>, b: nat) {
    Executable(exec, b) && b !in q
  }

  ghost predicate SitesEvaluated(f: Func, lat: Lattice, b: nat) {
    forall s :: ValidSite(f, b, s) && SiteResult(f, b, s).Some? ==> Evaluated(lat, Var(SiteResult(f, b, s).value))
  }

  /** A path leads to executable blocks; what processed blocks define is known, and their dominators are processed. */
  ghost predicate Grounded(f: Func, lat: Lattice, exec: seq<bool>, q: seq<nat>) {
    && |exec| == |f| && (forall b: nat :: Executable(exec, b) ==> Reachable(Flow(f), 0, b))
    && (forall b: nat :: Processed(exec, q, b) ==> SitesEvaluated(f, lat, b))
    && (forall b: nat, d: nat :: Processed(exec, q, b) && d < |f| && Dominates(Flow(f), 0, d, b) ==>
      Processed(exec, q, d))
  }

  lemma EvaluatedLater(lat: Lattice, exec: seq<bool>, lat': Lattice, exec': seq<bool>, o: Operand)
    requires Lower(lat, exec, lat', exec') && Evaluated(lat, o)
    ensures Evaluated(lat', o)
  {
    LowerCell(lat, exec, lat', exec', o);
  }

  lemma SitesEvaluatedLater(f: Func, lat: Lattice, exec: seq<bool>, lat': Lattice, exec': seq<bool>, b: nat)
    requires Lower(lat, exec, lat', exec') && SitesEvaluated(f, lat, b)
    ensures SitesEvaluated(f, lat', b)
  {
    hide Lower, Evaluated;
    forall s | ValidSite(f, b, s) && SiteResult(f, b, s).Some?
      ensures Evaluated(lat', Var(SiteResult(f, b, s).value))
    {
      EvaluatedLater(lat, exec, lat', exec', Var(SiteResult(f, b, s).value));
    }
  }

  lemma GroundedLater(f: Func, lat: Lattice, lat': Lattice, exec: seq<bool>, q: seq<nat>)
    requires Grounded(f, lat, exec, q) && Lower(lat, exec, lat', exec)
    ensures Grounded(f, lat', exec, q)
  {
    hide Lower, SitesEvaluated, Dominates, Reachable;
    forall b: nat | Processed(exec, q, b)
      ensures SitesEvaluated(f, lat', b)
    {
      SitesEvaluatedLater(f, lat, exec, lat', exec, b);
    }
  }

  /** A block that becomes executable is queued, so it does not count as processed. */
  lemma MarkGrounded(f: Func, lat: Lattice, exec: seq<bool>, q: seq<nat>, c: nat, v: nat)
    requires Grounded(f, lat, exec, q) && Executable(exec, c) && Edge(Flow(f), c, v) && v < |exec| && !exec[v]
    ensures Grounded(f, lat, exec[v := true], q + [v])
  {
    hide SitesEvaluated, Dominates;
    SuccessorReachable(Flow(f), c, v);
    forall b: nat
      ensures Processed(exec[v := true], q + [v], b) <==> Processed(exec, q, b)
    {
      assert v in q + [v];
    }
    hide Reachable;
  }

  // ---- Processing a block ----

  /** When a block has been entered from a processed one, its strict dominators are processed. */
  ghost predicate DominatorsProcessed(f: Func, exec: seq<bool>, q: seq<nat>, u: nat) {
    forall d: nat :: d < |f| && d != u && Dominates(Flow(f), 0, d, u) ==> Processed(exec, q, d)
  }

  lemma EntryDominators(f: Func, exec: seq<bool>, q: seq<nat>)
    requires 0 < |f|
    ensures DominatorsProcessed(f, exec, q, 0)
  {
    SinglePath(Flow(f), 0);
  }

  lemma DominatorsDone(f: Func, lat: Lattice, exec: seq<bool>, q: seq<nat>, c: nat, u: nat)
    requires Grounded(f, lat, exec, q) && Processed(exec, q, c) && Edge(Flow(f), c, u) && u < |f|
    ensures DominatorsProcessed(f, exec, q, u)
  {
    hide Dominates, SitesEvaluated;
    forall d: nat | d < |f| && d != u && Dominates(Flow(f), 0, d, u)
      ensures Processed(exec, q, d)
    {
      DominatesSource(Flow(f), c, u, d);
    }
  }

  lemma ResultEvaluated(f: Func, lat: Lattice, b: nat, s: nat, x: Name)
    requires SitesEvaluated(f, lat, b) && b < |f| && ResultAt(f[b], s, x)
    ensures Evaluated(lat, Var(x))
  {
    var site := if s < |f[b].phis| then PhiAt(s) else InsAt(s - |f[b].phis|);
    assert ValidSite(f, b, site) && SiteResult(f, b, site) == Some(x);
  }

  lemma DefinedEvaluated(f: Func, lat: Lattice, b: nat, x: Name, n: nat)
    requires SitesEvaluated(f, lat, b) && b < |f| && DefinedBefore(f[b], x, n)
    ensures Evaluated(lat, Var(x))
  {
    hide ResultAt, SitesEvaluated;
    var s: nat :| s < |f[b].phis| + n && ResultAt(f[b], s, x);
    ResultEvaluated(f, lat, b, s, x);
  }

  ghost predicate ParamsKnown(lat: Lattice, params: set<Name>) {
    forall x :: x in params ==> GetLattice(lat, Var(x)) == Bottom
  }

  /** What is available at the end of a processed block is evaluated. */
  lemma AvailableEvaluated(f: Func, params: set<Name>, lat: Lattice, exec: seq<bool>, q: seq<nat>, o: Operand, b: nat)
    requires Grounded(f, lat, exec, q) && ParamsKnown(lat, params) && Processed(exec, q, b)
    requires b < |f| && Dominated(f, ParamNames(params), o, b, |f[b].body|)
    ensures Evaluated(lat, o)
  {
    hide Dominates, DefinedBefore, SitesEvaluated, Reachable;
    if o.Var? && o.name !in params {
      if DefinedBefore(f[b], o.name, |f[b].body|) {
        DefinedEvaluated(f, lat, b, o.name, |f[b].body|);
      } else {
        var d: nat :| DefinedAbove(f, o.name, d, b);
        assert Processed(exec, q, d);
        DefinedEvaluated(f, lat, d, o.name, |f[d].body|);
      }
    }
  }

  /** Each phi has an operand from an executable block that is evaluated. */
  ghost predicate PhisFed(f: Func, lat: Lattice, exec: seq<bool>, u: nat) {
    u < |f| && forall i: nat :: i < |f[u].phis| ==> PhiFed(lat, exec, f[u].phis[i].args)
  }

  ghost predicate PhiFed(lat: Lattice, exec: seq<bool>, args: seq<(Operand, nat)>) {
    exists j: nat :: j < |args| && Executable(exec, args[j].1) && Evaluated(lat, args[j].0)
  }

  lemma PhisAreFed(f: Func, params: set<Name>, lat: Lattice, exec: seq<bool>, q: seq<nat>, c: nat, u: nat)
    requires Strict(f, params) && Grounded(f, lat, exec, q) && ParamsKnown(lat, params)
    requires Processed(exec, q, c) && Edge(Flow(f), c, u) && u < |f|
    ensures PhisFed(f, lat, exec, u)
  {
    hide Dominated, SitesEvaluated, Dominates, GetLattice;
    SuccessorReachable(Flow(f), c, u);
    forall i: nat | i < |f[u].phis|
      ensures PhiFed(lat, exec, f[u].phis[i].args)
    {
      assert InRun(f, u) && InRun(f, c) && u in Successors(f[c].term);
      assert HasArg(f[u].phis[i], c);
      var j: nat :| j < |f[u].phis[i].args| && f[u].phis[i].args[j].1 == c;
      assert PhiUseDominated(f, ParamNames(params), f[u].phis[i].args[j], u);
      AvailableEvaluated(f, params, lat, exec, q, f[u].phis[i].args[j].0, c);
    }
  }

  lemma {:induction false} MeetFed(lat: Lattice, exec: seq<bool>, args: seq<(Operand, nat)>, j: nat)
    requires j < |args| && Executable(exec, args[j].1) && Evaluated(lat, args[j].0)
    ensures !MeetArgs(lat, exec, args).Top?
    decreases |args|
  {
    hide GetLattice;
    if j < |args| - 1 {
      MeetFed(lat, exec, args[..|args| - 1], j);
    }
  }

  lemma FedLater(f: Func, lat: Lattice, lat': Lattice, exec: seq<bool>, u: nat)
    requires PhisFed(f, lat, exec, u) && Lower(lat, exec, lat', exec)
    ensures PhisFed(f, lat', exec, u)
  {
    hide Lower, Evaluated;
    forall i: nat | i < |f[u].phis|
      ensures PhiFed(lat', exec, f[u].phis[i].args)
    {
      var args := f[u].phis[i].args;
      assert PhiFed(lat, exec, args);
      var j: nat :| j < |args| && Executable(exec, args[j].1) && Evaluated(lat, args[j].0);
      EvaluatedLater(lat, exec, lat', exec, args[j].0);
    }
  }

  ghost predicate PhisEvaluated(f: Func, lat: Lattice, u: nat, n: nat) {
    u < |f| && forall i: nat :: i < n && i < |f[u].phis| ==> Evaluated(lat, Var(f[u].phis[i].result))
  }

  ghost predicate BodyEvaluated(f: Func, lat: Lattice, u: nat, n: nat) {
    u < |f| && forall k: nat :: k < n && k < |f[u].body| && Target(f[u].body[k]).Some? ==>
      Evaluated(lat, Var(Target(f[u].body[k]).value))
  }

  /** The operand is evaluated, or it is defined by one of the first `n` instructions of the block. */
  ghost predicate UseReady(f: Func, lat: Lattice, u: nat, o: Operand, n: nat) {
    u < |f| && (Evaluated(lat, o) ||
      (o.Var? && exists m: nat :: m < n && m < |f[u].body| && Target(f[u].body[m]) == Some(o.name)))
  }

  ghost predicate BlockReady(f: Func, lat: Lattice, u: nat) {
    && u < |f|
    && (forall k: nat, j: nat :: k < |f[u].body| && j < |Uses(f[u].body[k])| ==>
      UseReady(f, lat, u, Uses(f[u].body[k])[j], k))
    && (forall j: nat :: j < |TermUses(f[u].term)| ==> UseReady(f, lat, u, TermUses(f[u].term)[j], |f[u].body|))
  }

  lemma UseIsReady(f: Func, params: set<Name>, lat: Lattice, exec: seq<bool>, q: seq<nat>, u: nat, o: Operand, n: nat)
    requires Grounded(f, lat, exec, q) && ParamsKnown(lat, params) && DominatorsProcessed(f, exec, q, u) && u < |f|
    requires PhisEvaluated(f, lat, u, |f[u].phis|) && n <= |f[u].body| && Dominated(f, ParamNames(params), o, u, n)
    ensures UseReady(f, lat, u, o, n)
  {
    hide Dominates, SitesEvaluated, Reachable;
    if o.Var? && o.name !in params {
      if DefinedBefore(f[u], o.name, n) {
        var s: nat :| s < |f[u].phis| + n && ResultAt(f[u], s, o.name);
        if s >= |f[u].phis| {
          assert Target(f[u].body[s - |f[u].phis|]) == Some(o.name);
        }
      } else {
        var d: nat :| DefinedAbove(f, o.name, d, u);
        assert Processed(exec, q, d);
        DefinedEvaluated(f, lat, d, o.name, |f[d].body|);
      }
    }
  }

  lemma BlockIsReady(f: Func, params: set<Name>, lat: Lattice, exec: seq<bool>, q: seq<nat>, u: nat)
    requires Strict(f, params) && Grounded(f, lat, exec, q) && ParamsKnown(lat, params) && Executable(exec, u)
    requires DominatorsProcessed(f, exec, q, u) && u < |f| && PhisEvaluated(f, lat, u, |f[u].phis|)
    ensures BlockReady(f, lat, u)
  {
    assert InRun(f, u);
    hide UseReady, Dominated, Grounded, DominatorsProcessed, ParamsKnown, PhisEvaluated, Reachable, GetLattice;
    forall k: nat, j: nat | k < |f[u].body| && j < |Uses(f[u].body[k])|
      ensures UseReady(f, lat, u, Uses(f[u].body[k])[j], k)
    {
      UseIsReady(f, params, lat, exec, q, u, Uses(f[u].body[k])[j], k);
    }
    forall j: nat | j < |TermUses(f[u].term)|
      ensures UseReady(f, lat, u, TermUses(f[u].term)[j], |f[u].body|)
    {
      UseIsReady(f, params, lat, exec, q, u, TermUses(f[u].term)[j], |f[u].body|);
    }
  }

  /** Evaluated operands give an evaluated result. */
  lemma TransferEvaluated(i: Instr, lat: Lattice)
    requires forall j :: 0 <= j < |Uses(i)| ==> Evaluated(lat, Uses(i)[j])
    ensures !Transfer(i, lat).Top?
  {
    hide FoldArithmetic, CmpHolds, GetLattice;
    match i
    case Arith(_, _, _, l, r) => assert Uses(i)[0] == l && Uses(i)[1] == r;
    case Compare(_, _, l, r) => assert Uses(i)[0] == l && Uses(i)[1] == r;
    case Neg(_, _, _, o) => assert Uses(i)[0] == o;
    case Select(_, o) => assert Uses(i)[0] == o;
    case Move(_, o) => assert Uses(i)[0] == o;
    case Effect(_, _, _) =>
  }

  /** With the results of the earlier instructions evaluated, a ready operand is. */
  lemma ReadyEvaluated(f: Func, lat: Lattice, exec: seq<bool>, lat': Lattice, exec': seq<bool>, u: nat, o: Operand,
      n: nat)
    requires UseReady(f, lat, u, o, n) && Lower(lat, exec, lat', exec') && BodyEvaluated(f, lat', u, n)
    ensures Evaluated(lat', o)
  {
    hide Lower, GetLattice;
    if Evaluated(lat, o) {
      EvaluatedLater(lat, exec, lat', exec', o);
    }
  }

  lemma ReadyInstr(f: Func, lat: Lattice, exec: seq<bool>, lat': Lattice, exec': seq<bool>, u: nat, k: nat)
    requires BlockReady(f, lat, u) && Lower(lat, exec, lat', exec') && BodyEvaluated(f, lat', u, k) && k < |f[u].body|
    ensures !Transfer(f[u].body[k], lat').Top?
  {
    hide UseReady, Lower, BodyEvaluated, Evaluated;
    forall j | 0 <= j < |Uses(f[u].body[k])|
      ensures Evaluated(lat', Uses(f[u].body[k])[j])
    {
      ReadyEvaluated(f, lat, exec, lat', exec', u, Uses(f[u].body[k])[j], k);
    }
    TransferEvaluated(f[u].body[k], lat');
  }

  ghost predicate CondEvaluated(f: Func, lat: Lattice, b: nat) {
    b < |f| && (f[b].term.Branch? ==> Evaluated(lat, f[b].term.cond))
  }

  lemma ReadyTerm(f: Func, lat: Lattice, exec: seq<bool>, lat': Lattice, exec': seq<bool>, u: nat)
    requires BlockReady(f, lat, u) && Lower(lat, exec, lat', exec') && BodyEvaluated(f, lat', u, |f[u].body|)
    ensures CondEvaluated(f, lat', u)
  {
    hide UseReady, Lower, BodyEvaluated, Evaluated;
    if f[u].term.Branch? {
      assert TermUses(f[u].term)[0] == f[u].term.cond;
      ReadyEvaluated(f, lat, exec, lat', exec', u, f[u].term.cond, |f[u].body|);
    }
  }

  /** All results of a block evaluated. */
  lemma BlockEvaluated(f: Func, lat: Lattice, u: nat)
    requires u < |f| && PhisEvaluated(f, lat, u, |f[u].phis|) && BodyEvaluated(f, lat, u, |f[u].body|)
    ensures SitesEvaluated(f, lat, u)
  {
  }

  lemma PhisEvaluatedLater(f: Func, lat: Lattice, exec: seq<bool>, lat': Lattice, exec': seq<bool>, u: nat, n: nat)
    requires PhisEvaluated(f, lat, u, n) && Lower(lat, exec, lat', exec')
    ensures PhisEvaluated(f, lat', u, n)
  {
    hide Lower, Evaluated;
    forall i: nat | i < n && i < |f[u].phis|
      ensures Evaluated(lat', Var(f[u].phis[i].result))
    {
      EvaluatedLater(lat, exec, lat', exec', Var(f[u].phis[i].result));
    }
  }

  lemma BodyEvaluatedLater(f: Func, lat: Lattice, exec: seq<bool>, lat': Lattice, exec': seq<bool>, u: nat, n: nat)
    requires BodyEvaluated(f, lat, u, n) && Lower(lat, exec, lat', exec')
    ensures BodyEvaluated(f, lat', u, n)
  {
    hide Lower, Evaluated;
    forall k: nat | k < n && k < |f[u].body| && Target(f[u].body[k]).Some?
      ensures Evaluated(lat', Var(Target(f[u].body[k]).value))
    {
      EvaluatedLater(lat, exec, lat', exec', Var(Target(f[u].body[k]).value));
    }
  }

  /** The head of the queue counts as processed when all it defines is evaluated. */
  lemma HeadGrounded(f: Func, lat: Lattice, exec: seq<bool>, u: nat, flow: seq<nat>)
    requires Grounded(f, lat, exec, [u] + flow) && DominatorsProcessed(f, exec, [u] + flow, u)
    requires SitesEvaluated(f, lat, u) && Executable(exec, u)
    ensures Grounded(f, lat, exec, flow)
  {
    hide SitesEvaluated, Dominates, Reachable;
    forall b: nat
      ensures Processed(exec, flow, b) ==> b == u || Processed(exec, [u] + flow, b)
      ensures Processed(exec, [u] + flow, b) ==> Processed(exec, flow, b)
    {
      assert u in [u] + flow;
    }
  }
}
