/** The two-worklist fixpoint of conditional constant propagation. */
module SccpPropagation {
  import opened Graphs
  import opened IR
  import opened SccpLattice
  import opened SccpRewrite
  import opened SccpPrecision

  /** Every cell is still at or above what its one defining place computes: evaluation can only lower it. */
  ghost predicate Descending(f: Func, lat: Lattice, exec: seq<bool>) {
    forall b: nat, s :: ValidSite(f, b, s) && SiteResult(f, b, s).Some? ==>
      AtOrBelow(SiteValue(f, lat, exec, b, s), GetLattice(lat, Var(SiteResult(f, b, s).value)))
  }

  /** Each variable has one defining place, and parameters have none. */
  ghost predicate SingleAssignment(f: Func, params: set<Name>) {
    forall b: nat, s, c: nat, t :: ValidSite(f, b, s) && ValidSite(f, c, t) && SiteResult(f, b, s).Some? ==>
      && SiteResult(f, b, s).value !in params
      && (SiteResult(f, b, s) == SiteResult(f, c, t) ==> b == c && s == t)
  }

  // ---- Termination ----

  ghost function ResultNames(f: Func): (names: set<Name>)
    ensures forall b: nat, s :: ValidSite(f, b, s) && SiteResult(f, b, s).Some? ==> SiteResult(f, b, s).value in names
  {
    var phis := set b: nat, k: nat | b < |f| && k < |f[b].phis| :: f[b].phis[k].result;
    var targets := set b: nat, k: nat | b < |f| && k < |f[b].body| && Target(f[b].body[k]).Some? ::
      Target(f[b].body[k]).value;
    phis + targets
  }

  ghost function NotBottom(names: set<Name>, lat: Lattice): set<Name> {
    set x | x in names && !GetLattice(lat, Var(x)).Bottom?
  }

  ghost function Tops(names: set<Name>, lat: Lattice): set<Name> {
    set x | x in names && GetLattice(lat, Var(x)).Top?
  }

  ghost function Cold(exec: seq<bool>): set<nat> {
    set b: nat | b < |exec| && !exec[b]
  }

  /** The measure of the worklist loops, compared lexicographically. */
  ghost predicate Fell(names: set<Name>, lat: Lattice, exec: seq<bool>, lat': Lattice, exec': seq<bool>) {
    var n, n', t, t', c, c' := NotBottom(names, lat), NotBottom(names, lat'), Tops(names, lat), Tops(names, lat'),
      Cold(exec), Cold(exec');
    n' < n || (n' == n && (t' < t || (t' == t && c' < c)))
  }

  lemma WriteFalls(names: set<Name>, lat: Lattice, exec: seq<bool>, x: Name, v: Cell)
    requires x in names && AtOrBelow(v, GetLattice(lat, Var(x))) && v != GetLattice(lat, Var(x))
    ensures Fell(names, lat, exec, lat[x := v], exec)
  {
    var lat' := lat[x := v];
    assert forall y :: y != x ==> GetLattice(lat', Var(y)) == GetLattice(lat, Var(y));
    if v.Bottom? {
      assert x in NotBottom(names, lat) && x !in NotBottom(names, lat');
    } else {
      assert NotBottom(names, lat') == NotBottom(names, lat);
      assert x in Tops(names, lat) && x !in Tops(names, lat');
    }
  }

  lemma MarkFalls(names: set<Name>, lat: Lattice, exec: seq<bool>, v: nat)
    requires v < |exec| && !exec[v]
    ensures Fell(names, lat, exec, lat, exec[v := true])
  {
    assert v in Cold(exec) && v !in Cold(exec[v := true]);
  }

  // ---- What is settled, and what is still to be evaluated ----

  ghost predicate SettledAt(f: Func, lat: Lattice, exec: seq<bool>, b: nat, s: Site) {
    ValidSite(f, b, s) && Settled(f, lat, exec, b, s)
  }

  /** The place uses a variable whose change has not been propagated. */
  ghost predicate UsesPending(f: Func, b: nat, s: Site, pending: set<Name>) {
    ValidSite(f, b, s) && exists k :: 0 <= k < |SiteOperands(f, b, s)| && InSet(SiteOperands(f, b, s)[k], pending)
  }

  predicate InSet(o: Operand, names: set<Name>) {
    o.Var? && o.name in names
  }

  /** A phi with an operand from an executable block whose terminator is still to be evaluated. */
  ghost predicate HotPhi(f: Func, exec: seq<bool>, hot: set<nat>, b: nat, s: Site) {
    && ValidSite(f, b, s) && s.PhiAt?
    && exists j :: 0 <= j < |f[b].phis[s.phi].args| && FromHot(exec, hot, f[b].phis[s.phi].args[j].1)
  }

  predicate FromHot(exec: seq<bool>, hot: set<nat>, c: nat) {
    c in hot && Executable(exec, c)
  }

  ghost predicate Covered(f: Func, lat: Lattice, exec: seq<bool>, pending: set<Name>, hot: set<nat>, b: nat, s: Site) {
    SettledAt(f, lat, exec, b, s) || UsesPending(f, b, s, pending) || HotPhi(f, exec, hot, b, s)
  }

  /** Everything in an executable block is covered, unless the block itself is still queued. */
  ghost predicate AllCovered(f: Func, lat: Lattice, exec: seq<bool>, pending: set<Name>, hot: set<nat>) {
    forall b: nat, s :: Executable(exec, b) && b !in hot && ValidSite(f, b, s) ==>
        Covered(f, lat, exec, pending, hot, b, s)
  }

  ghost function NewBlocks(exec: seq<bool>, exec': seq<bool>): set<nat> {
    set b: nat | b < |exec'| && Executable(exec', b) && !Executable(exec, b)
  }

  /** An evaluation step leaves settled places settled, or covered by what it queued. */
  ghost predicate Keeps(f: Func, lat: Lattice, exec: seq<bool>, pending: set<Name>, lat': Lattice, exec': seq<bool>,
      pending': set<Name>) {
    && pending <= pending'
    && |exec'| == |exec| && (forall b: nat :: Executable(exec, b) ==> Executable(exec', b))
    && (forall b: nat, s :: SettledAt(f, lat, exec, b, s) ==>
      Covered(f, lat', exec', pending', NewBlocks(exec, exec'), b, s))
  }

  lemma CoveredMore(f: Func, lat: Lattice, exec: seq<bool>, pending: set<Name>, hot: set<nat>, pending': set<Name>,
      hot': set<nat>, b: nat, s: Site)
    requires Covered(f, lat, exec, pending, hot, b, s) && pending <= pending' && hot <= hot'
    ensures Covered(f, lat, exec, pending', hot', b, s)
  {
    hide SettledAt;
    if UsesPending(f, b, s, pending) {
      var k :| 0 <= k < |SiteOperands(f, b, s)| && InSet(SiteOperands(f, b, s)[k], pending);
      assert InSet(SiteOperands(f, b, s)[k], pending');
    } else if HotPhi(f, exec, hot, b, s) {
      var j :| 0 <= j < |f[b].phis[s.phi].args| && FromHot(exec, hot, f[b].phis[s.phi].args[j].1);
      assert FromHot(exec, hot', f[b].phis[s.phi].args[j].1);
    }
  }

  /** What a step keeps covered, for any further pending names and hot blocks. */
  lemma KeepsCovered(f: Func, lat: Lattice, exec: seq<bool>, pending: set<Name>, lat': Lattice, exec': seq<bool>,
      pending': set<Name>, p: set<Name>, p': set<Name>, hot: set<nat>, b: nat, s: Site)
    requires Keeps(f, lat, exec, pending, lat', exec', pending') && Covered(f, lat, exec, p, hot, b, s)
    requires pending' <= p' && p <= p'
    ensures Covered(f, lat', exec', p', hot + NewBlocks(exec, exec'), b, s)
  {
    hide SettledAt, NewBlocks, UsesPending;
    var hot' := hot + NewBlocks(exec, exec');
    if SettledAt(f, lat, exec, b, s) {
      CoveredMore(f, lat', exec', pending', NewBlocks(exec, exec'), p', hot', b, s);
    } else if UsesPending(f, b, s, p) {
      CoveredMore(f, lat', exec', p, hot', p', hot', b, s);
    } else {
      var j :| 0 <= j < |f[b].phis[s.phi].args| && FromHot(exec, hot, f[b].phis[s.phi].args[j].1);
      assert FromHot(exec', hot', f[b].phis[s.phi].args[j].1);
    }
  }

  lemma NothingChanged(f: Func, lat: Lattice, exec: seq<bool>, pending: set<Name>)
    ensures Keeps(f, lat, exec, pending, lat, exec, pending)
  {
  }

  lemma KeepsTwice(f: Func, lat: Lattice, exec: seq<bool>, p: set<Name>, lat1: Lattice, exec1: seq<bool>,
      p1: set<Name>, lat2: Lattice, exec2: seq<bool>, p2: set<Name>)
    requires Keeps(f, lat, exec, p, lat1, exec1, p1) && Keeps(f, lat1, exec1, p1, lat2, exec2, p2)
    ensures Keeps(f, lat, exec, p, lat2, exec2, p2)
  {
    forall b: nat, s | SettledAt(f, lat, exec, b, s)
      ensures Covered(f, lat2, exec2, p2, NewBlocks(exec, exec2), b, s)
    {
      hide SettledAt, UsesPending, HotPhi, Covered;
      KeepsCovered(f, lat1, exec1, p1, lat2, exec2, p2, p1, p2, NewBlocks(exec, exec1), b, s);
      assert NewBlocks(exec, exec1) + NewBlocks(exec1, exec2) <= NewBlocks(exec, exec2);
      CoveredMore(f, lat2, exec2, p2, NewBlocks(exec, exec1) + NewBlocks(exec1, exec2), p2, NewBlocks(exec, exec2), b,
        s);
    }
  }

  // ---- The two elementary steps ----

  lemma {:induction false} MeetSame(lat: Lattice, lat': Lattice, exec: seq<bool>, exec': seq<bool>,
      args: seq<(Operand, nat)>)
    requires forall k :: 0 <= k < |args| ==>
        GetLattice(lat, args[k].0) == GetLattice(lat', args[k].0) &&
        Executable(exec, args[k].1) == Executable(exec', args[k].1)
    ensures MeetArgs(lat, exec, args) == MeetArgs(lat', exec', args)
    decreases |args|
  {
    if args != [] {
      MeetSame(lat, lat', exec, exec', args[..|args| - 1]);
    }
  }

  /** A place that does not use `x` computes the same when only the cell of `x` changes. */
  lemma OtherOperands(f: Func, lat: Lattice, exec: seq<bool>, b: nat, s: Site, x: Name, v: Cell)
    requires ValidSite(f, b, s) && !UsesPending(f, b, s, {x})
    ensures SiteValue(f, lat[x := v], exec, b, s) == SiteValue(f, lat, exec, b, s)
    ensures s.TermAt? ==> TakenExecutable(f[b].term, lat[x := v], exec) == TakenExecutable(f[b].term, lat, exec)
  {
    var os := SiteOperands(f, b, s);
    forall k | 0 <= k < |os|
      ensures GetLattice(lat[x := v], os[k]) == GetLattice(lat, os[k])
    {
      assert !InSet(os[k], {x});
    }
    match s
    case PhiAt(k) =>
      assert forall j :: 0 <= j < |f[b].phis[k].args| ==> f[b].phis[k].args[j].0 == os[j];
      MeetSame(lat, lat[x := v], exec, exec, f[b].phis[k].args);
    case InsAt(k) => TransferSame(f[b].body[k], lat, lat[x := v]);
    case TermAt =>
      if f[b].term.Branch? {
        assert os[0] == f[b].term.cond;
      }
  }

  lemma TransferSame(i: Instr, lat: Lattice, lat': Lattice)
    requires forall k :: 0 <= k < |Uses(i)| ==> GetLattice(lat', Uses(i)[k]) == GetLattice(lat, Uses(i)[k])
    ensures Transfer(i, lat') == Transfer(i, lat)
  {
    hide FoldArithmetic, CmpHolds, GetLattice;
    match i
    case Arith(_, _, _, l, r) => assert Uses(i)[0] == l && Uses(i)[1] == r;
    case Compare(_, _, l, r) => assert Uses(i)[0] == l && Uses(i)[1] == r;
    case Neg(_, _, _, o) => assert Uses(i)[0] == o;
    case Select(_, o) => assert Uses(i)[0] == o;
    case Move(_, o) => assert Uses(i)[0] == o;
    case Effect(_, _, _) =>
  }

  /** Writing the value of a place to the cell of its result. */
  lemma WriteKeeps(f: Func, params: set<Name>, lat: Lattice, exec: seq<bool>, pending: set<Name>, b: nat, s: Site,
      x: Name)
    requires SingleAssignment(f, params) && Descending(f, lat, exec) && ValidSite(f, b, s) &&
        SiteResult(f, b, s) == Some(x)
    ensures var lat' := lat[x := SiteValue(f, lat, exec, b, s)];
      && Lower(lat, exec, lat', exec) && Descending(f, lat', exec)
      && Keeps(f, lat, exec, pending, lat', exec, pending + {x})
      && Covered(f, lat', exec, pending + {x}, {}, b, s)
  {
    hide SiteValue, TakenExecutable, UsesPending, SiteResult;
    var v := SiteValue(f, lat, exec, b, s);
    var lat' := lat[x := v];
    assert Lower(lat, exec, lat', exec);
    forall c: nat, t | ValidSite(f, c, t) && SiteResult(f, c, t).Some?
      ensures AtOrBelow(SiteValue(f, lat', exec, c, t), GetLattice(lat', Var(SiteResult(f, c, t).value)))
    {
      SiteMonotone(f, lat, exec, lat', exec, c, t);
    }
    forall c: nat, t | SettledAt(f, lat, exec, c, t) || (c == b && t == s)
      ensures Covered(f, lat', exec, pending + {x}, {}, c, t)
    {
      if UsesPending(f, c, t, {x}) {
        CoveredMore(f, lat', exec, {x}, {}, pending + {x}, {}, c, t);
      } else {
        OtherOperands(f, lat, exec, c, t, x, v);
        TermHasNoResult(f, b, s);
        assert SettledAt(f, lat', exec, c, t);
      }
    }
    forall c: nat, t | SettledAt(f, lat, exec, c, t)
      ensures Covered(f, lat', exec, pending + {x}, NewBlocks(exec, exec), c, t)
    {
      CoveredMore(f, lat', exec, pending + {x}, {}, pending + {x}, NewBlocks(exec, exec), c, t);
    }
  }

  lemma TermHasNoResult(f: Func, b: nat, s: Site)
    requires ValidSite(f, b, s) && SiteResult(f, b, s).Some?
    ensures !s.TermAt?
  {
  }

  /** Making a block executable. */
  lemma MarkKeeps(f: Func, lat: Lattice, exec: seq<bool>, pending: set<Name>, v: nat)
    requires Descending(f, lat, exec) && v < |exec| && !exec[v]
    ensures Lower(lat, exec, lat, exec[v := true]) && Descending(f, lat, exec[v := true])
    ensures Keeps(f, lat, exec, pending, lat, exec[v := true], pending)
    ensures NewBlocks(exec, exec[v := true]) == {v}
  {
    var exec' := exec[v := true];
    hide Transfer, UsesPending;
    assert Lower(lat, exec, lat, exec');
    forall c: nat, t | ValidSite(f, c, t) && SiteResult(f, c, t).Some?
      ensures AtOrBelow(SiteValue(f, lat, exec', c, t), GetLattice(lat, Var(SiteResult(f, c, t).value)))
    {
      SiteMonotone(f, lat, exec, lat, exec', c, t);
    }
    assert v in NewBlocks(exec, exec');
    forall c: nat, t | SettledAt(f, lat, exec, c, t)
      ensures Covered(f, lat, exec', pending, NewBlocks(exec, exec'), c, t)
    {
      if t.PhiAt? && !HotPhi(f, exec', NewBlocks(exec, exec'), c, t) {
        var args := f[c].phis[t.phi].args;
        forall j | 0 <= j < |args|
          ensures Executable(exec', args[j].1) == Executable(exec, args[j].1)
        {
          assert !FromHot(exec', NewBlocks(exec, exec'), args[j].1);
        }
        MeetSame(lat, lat, exec, exec', args);
      }
    }
  }

  // ---- The order of the flow queue ----

  /** Block `v` was made executable by an executable predecessor that is not in `later`. */
  ghost predicate EnteredFrom(f: Func, exec: seq<bool>, v: nat, later: seq<nat>) {
    v != 0 ==> exists c: nat :: Executable(exec, c) && Edge(Flow(f), c, v) && c !in later
  }

  /** Queued blocks are executable, and each executable block was entered from one that is no longer queued or is
   * queued before it. */
  ghost predicate Queued(f: Func, exec: seq<bool>, q: seq<nat>) {
    && |exec| == |f|
    && (forall j :: 0 <= j < |q| ==> Executable(exec, q[j]) && EnteredFrom(f, exec, q[j], q[j..]))
    && (forall v: nat :: Executable(exec, v) && v !in q ==> EnteredFrom(f, exec, v, q))
  }

  /** A block entered from an executable one is still so when `v` becomes executable and is queued. */
  lemma EnteredMore(f: Func, exec: seq<bool>, u: nat, later: seq<nat>, v: nat)
    requires EnteredFrom(f, exec, u, later) && v < |exec| && !exec[v]
    ensures EnteredFrom(f, exec[v := true], u, later + [v])
  {
    if u != 0 {
      var d: nat :| Executable(exec, d) && Edge(Flow(f), d, u) && d !in later;
      assert Executable(exec[v := true], d) && d != v;
    }
  }

  lemma Enqueue(f: Func, exec: seq<bool>, q: seq<nat>, c: nat, v: nat)
    requires Queued(f, exec, q) && Executable(exec, c) && Edge(Flow(f), c, v) && v < |exec| && !exec[v]
    ensures Queued(f, exec[v := true], q + [v])
  {
    hide EnteredFrom;
    var exec', q' := exec[v := true], q + [v];
    forall j | 0 <= j < |q'|
      ensures Executable(exec', q'[j]) && EnteredFrom(f, exec', q'[j], q'[j..])
    {
      if j < |q| {
        assert q'[j..] == q[j..] + [v];
        EnteredMore(f, exec, q[j], q[j..], v);
      } else {
        assert q'[j..] == [v];
        EnteredNow(f, exec', c, v);
      }
    }
    forall u: nat | Executable(exec', u) && u !in q'
      ensures EnteredFrom(f, exec', u, q')
    {
      assert v in q';
      EnteredMore(f, exec, u, q, v);
    }
  }

  lemma EnteredNow(f: Func, exec: seq<bool>, c: nat, v: nat)
    requires Executable(exec, c) && Edge(Flow(f), c, v) && c != v
    ensures EnteredFrom(f, exec, v, [v])
  {
  }

  lemma DequeueHead(f: Func, exec: seq<bool>, q: seq<nat>)
    requires Queued(f, exec, q) && q != []
    ensures Queued(f, exec, q[1..])
  {
    forall j | 0 <= j < |q| - 1
      ensures Executable(exec, q[1..][j]) && EnteredFrom(f, exec, q[1..][j], q[1..][j..])
    {
      assert q[1..][j..] == q[j + 1..];
      assert q[1..][j] == q[j + 1];
    }
    forall v: nat | Executable(exec, v) && v !in q[1..]
      ensures EnteredFrom(f, exec, v, q[1..])
    {
      if v in q {
        assert q == [q[0]] + q[1..];
        assert v == q[0] && q[0..] == q;
      }
    }
  }

  /** While the head is being processed, a target of its branch that is executable already is still queued behind it. */
  lemma BranchTargetQueued(f: Func, exec: seq<bool>, b: nat, flow: seq<nat>, v: nat)
    requires Queued(f, exec, [b] + flow) && NoCriticalEdges(f) && EntryHasNoPredecessor(f) && b < |f| &&
        f[b].term.Branch?
    requires v in Successors(f[b].term) && Executable(exec, v)
    ensures v in flow
  {
    var q := [b] + flow;
    forall c: nat | Edge(Flow(f), c, v)
      ensures c in q
    {
      assert v in Successors(f[c].term);
      assert b in q;
    }
    assert v != 0;
    assert q[0..] == q;
    assert v !in flow ==> EnteredFrom(f, exec, v, q);
  }

  // ---- The worklist algorithm ----

  ghost function Waiting(ssa: seq<(Name, nat)>): (names: set<Name>) {
    set k | 0 <= k < |ssa| :: ssa[k].0
  }

  lemma PushWaits(ssa: seq<(Name, nat)>, x: Name, b: nat)
    ensures Waiting(ssa + [(x, b)]) == Waiting(ssa) + {x}
  {
    var s := ssa + [(x, b)];
    assert s[|ssa|].0 == x;
    forall y | y in Waiting(ssa)
      ensures y in Waiting(s)
    {
      var k :| 0 <= k < |ssa| && ssa[k].0 == y;
      assert s[k].0 == y;
    }
  }

  lemma PopWaits(ssa: seq<(Name, nat)>)
    requires ssa != []
    ensures Waiting(ssa) == Waiting(ssa[1..]) + {ssa[0].0}
  {
    assert ssa == [ssa[0]] + ssa[1..];
    forall y | y in Waiting(ssa[1..])
      ensures y in Waiting(ssa)
    {
      var k :| 0 <= k < |ssa| - 1 && ssa[1..][k].0 == y;
      assert ssa[k + 1].0 == y;
    }
    forall y | y in Waiting(ssa)
      ensures y in Waiting(ssa[1..]) + {ssa[0].0}
    {
      var k :| 0 <= k < |ssa| && ssa[k].0 == y;
      assert k > 0 ==> ssa[1..][k - 1].0 == y;
    }
  }

  /** What the pass relies on: phi operands from predecessors, single assignment, no critical edges. */
  ghost predicate Analysable(f: Func, params: set<Name>) {
    ValidTargets(f) && PhiSources(f) && SingleAssignment(f, params) && NoCriticalEdges(f) && EntryHasNoPredecessor(f)
  }

  /** The cells, the flags and the two queues. */
  datatype Snapshot = Snapshot(lat: Lattice, exec: seq<bool>, flow: seq<nat>, ssa: seq<(Name, nat)>)

  ghost predicate Steady(f: Func, params: set<Name>, s: Snapshot, cur: seq<nat>) {
    && |s.exec| == |f| && Executable(s.exec, 0)
    && (forall x :: x in params ==> GetLattice(s.lat, Var(x)) == Bottom)
    && Descending(f, s.lat, s.exec)
    && Queued(f, s.exec, cur + s.flow)
    && (Strict(f, params) ==> Precise(f, params, s, cur))
  }

  /** In SSA form: nothing has been found but what every solution has, and what waits or is processed is evaluated. */
  ghost predicate Precise(f: Func, params: set<Name>, s: Snapshot, cur: seq<nat>) {
    && Optimistic(f, params, s.lat, s.exec) && Grounded(f, s.lat, s.exec, cur + s.flow) && Entered(f, s.lat, s.exec)
    && (forall x :: x in Waiting(s.ssa) ==> Evaluated(s.lat, Var(x)))
  }

  lemma WritePrecise(f: Func, params: set<Name>, s: Snapshot, cur: seq<nat>, b: nat, site: Site, x: Name)
    requires Precise(f, params, s, cur) && Executable(s.exec, b) && ValidSite(f, b, site)
    requires SiteResult(f, b, site) == Some(x) && SiteValue(f, s.lat, s.exec, b, site) != GetLattice(s.lat, Var(x))
    requires Lower(s.lat, s.exec, s.lat[x := SiteValue(f, s.lat, s.exec, b, site)], s.exec)
    ensures
      var t := s.(lat := s.lat[x := SiteValue(f, s.lat, s.exec, b, site)], ssa := s.ssa + [(x, b)]);
      Precise(f, params, t, cur)
  {
    hide Entered, Optimistic, Grounded, SiteValue, SiteResult, Lower, Waiting;
    var v := SiteValue(f, s.lat, s.exec, b, site);
    var lat' := s.lat[x := v];
    WriteOptimistic(f, params, s.lat, s.exec, b, site, x);
    GroundedLater(f, s.lat, lat', s.exec, cur + s.flow);
    EnteredLater(f, s.lat, lat', s.exec);
    PushWaits(s.ssa, x, b);
    forall y | y in Waiting(s.ssa + [(x, b)])
      ensures Evaluated(lat', Var(y))
    {
      if y == x {
        LowerCell(s.lat, s.exec, lat', s.exec, Var(x));
      } else {
        EvaluatedLater(s.lat, s.exec, lat', s.exec, Var(y));
      }
    }
  }

  lemma MarkPrecise(f: Func, params: set<Name>, s: Snapshot, cur: seq<nat>, c: nat, v: nat)
    requires Precise(f, params, s, cur) && Executable(s.exec, c) && Edge(Flow(f), c, v) && v < |s.exec| && !s.exec[v]
    requires LetsThrough(f, s.lat, c, v)
    ensures Precise(f, params, s.(exec := s.exec[v := true], flow := s.flow + [v]), cur)
  {
    hide Entered, Optimistic, Grounded, LetsThrough, Waiting;
    MarkEntered(f, s.lat, s.exec, c, v);
    MarkOptimistic(f, params, s.lat, s.exec, c, v);
    MarkGrounded(f, s.lat, s.exec, cur + s.flow, c, v);
    assert cur + (s.flow + [v]) == cur + s.flow + [v];
  }

  lemma SteadySize(f: Func, params: set<Name>, s: Snapshot, cur: seq<nat>)
    requires Steady(f, params, s, cur)
    ensures |s.exec| == |f|
  {
  }

  lemma AnalysableFacts(f: Func, params: set<Name>)
    requires Analysable(f, params)
    ensures ValidTargets(f) && PhiSources(f) && SingleAssignment(f, params) && NoCriticalEdges(f) &&
        EntryHasNoPredecessor(f)
  {
  }

  /** One or more evaluation steps lead from `s` to `t`. */
  ghost predicate Advance(f: Func, s: Snapshot, t: Snapshot) {
    && Keeps(f, s.lat, s.exec, Waiting(s.ssa), t.lat, t.exec, Waiting(t.ssa))
    && (s == t || Fell(ResultNames(f), s.lat, s.exec, t.lat, t.exec))
    && Lower(s.lat, s.exec, t.lat, t.exec)
    && Elems(t.flow) == Elems(s.flow) + NewBlocks(s.exec, t.exec)
  }

  lemma NoAdvance(f: Func, s: Snapshot)
    ensures Advance(f, s, s)
  {
    NothingChanged(f, s.lat, s.exec, Waiting(s.ssa));
  }

  lemma AdvanceTwice(f: Func, s: Snapshot, t: Snapshot, u: Snapshot)
    requires Advance(f, s, t) && Advance(f, t, u)
    ensures Advance(f, s, u)
  {
    hide Covered, SettledAt, Lower;
    KeepsTwice(f, s.lat, s.exec, Waiting(s.ssa), t.lat, t.exec, Waiting(t.ssa), u.lat, u.exec, Waiting(u.ssa));
    LowerTwice(s.lat, s.exec, t.lat, t.exec, u.lat, u.exec);
  }

  lemma AdvanceLowers(f: Func, s: Snapshot, t: Snapshot)
    requires Advance(f, s, t)
    ensures Lower(s.lat, s.exec, t.lat, t.exec)
  {
  }

  /** Evaluating a place with result `x` and finding a new value. */
  lemma WriteAdvances(f: Func, params: set<Name>, s: Snapshot, cur: seq<nat>, b: nat, site: Site, x: Name)
    requires SingleAssignment(f, params) && Steady(f, params, s, cur) && ValidSite(f, b, site) &&
        SiteResult(f, b, site) == Some(x) && Executable(s.exec, b)
    requires SiteValue(f, s.lat, s.exec, b, site) != GetLattice(s.lat, Var(x))
    ensures var t := s.(lat := s.lat[x := SiteValue(f, s.lat, s.exec, b, site)], ssa := s.ssa + [(x, b)]);
      Steady(f, params, t, cur) && Advance(f, s, t) && Covered(f, t.lat, t.exec, Waiting(t.ssa), {}, b, site)
  {
    hide SiteValue, SiteResult, Covered, Keeps, Queued, Strict, Precise, Lower;
    WriteKeeps(f, params, s.lat, s.exec, Waiting(s.ssa), b, site, x);
    PushWaits(s.ssa, x, b);
    var v := SiteValue(f, s.lat, s.exec, b, site);
    assert AtOrBelow(v, GetLattice(s.lat, Var(x)));
    assert x in ResultNames(f);
    WriteFalls(ResultNames(f), s.lat, s.exec, x, v);
    assert x !in params;
    assert NewBlocks(s.exec, s.exec) == {};
    if Strict(f, params) {
      WritePrecise(f, params, s, cur, b, site, x);
    }
  }

  /** Evaluating a place whose result already has the value. */
  lemma SameValue(f: Func, s: Snapshot, b: nat, site: Site)
    requires ValidSite(f, b, site) && !site.TermAt?
    requires SiteResult(f, b, site).Some? ==>
        SiteValue(f, s.lat, s.exec, b, site) == GetLattice(s.lat, Var(SiteResult(f, b, site).value))
    ensures Advance(f, s, s) && Covered(f, s.lat, s.exec, Waiting(s.ssa), {}, b, site)
  {
    NoAdvance(f, s);
  }

  lemma MarkAdvances(f: Func, params: set<Name>, s: Snapshot, cur: seq<nat>, c: nat, v: nat)
    requires Steady(f, params, s, cur) && Executable(s.exec, c) && Edge(Flow(f), c, v) && v < |s.exec| && !s.exec[v]
    requires Strict(f, params) ==> LetsThrough(f, s.lat, c, v)
    ensures var t := s.(exec := s.exec[v := true], flow := s.flow + [v]);
      Steady(f, params, t, cur) && Advance(f, s, t) && v in t.flow
  {
    hide Covered, Keeps, Queued, Strict, Precise, LetsThrough, Lower;
    MarkKeeps(f, s.lat, s.exec, Waiting(s.ssa), v);
    MarkFalls(ResultNames(f), s.lat, s.exec, v);
    Enqueue(f, s.exec, cur + s.flow, c, v);
    assert cur + (s.flow + [v]) == cur + s.flow + [v];
    if Strict(f, params) {
      MarkPrecise(f, params, s, cur, c, v);
    }
  }

  /** The phis of `v` need no further evaluation on behalf of the edge just followed. */
  ghost predicate EdgeCovered(f: Func, s: Snapshot, v: nat) {
    v in s.flow || forall k :: ValidSite(f, v, PhiAt(k)) ==>
      Covered(f, s.lat, s.exec, Waiting(s.ssa), Elems(s.flow), v, PhiAt(k))
  }

  lemma AdvanceKeeps(f: Func, s: Snapshot, t: Snapshot, b: nat, site: Site)
    requires Advance(f, s, t) && Covered(f, s.lat, s.exec, Waiting(s.ssa), Elems(s.flow), b, site)
    ensures Covered(f, t.lat, t.exec, Waiting(t.ssa), Elems(t.flow), b, site)
  {
    hide Covered, SettledAt, Waiting;
    KeepsCovered(f, s.lat, s.exec, Waiting(s.ssa), t.lat, t.exec, Waiting(t.ssa), Waiting(s.ssa), Waiting(t.ssa),
      Elems(s.flow), b, site);
  }

  lemma AdvanceGrows(f: Func, s: Snapshot, t: Snapshot)
    requires Advance(f, s, t)
    ensures |t.exec| == |s.exec| && forall b: nat :: Executable(s.exec, b) ==> Executable(t.exec, b)
  {
  }

  lemma AdvanceKeepsEdge(f: Func, s: Snapshot, t: Snapshot, v: nat)
    requires Advance(f, s, t) && EdgeCovered(f, s, v)
    ensures EdgeCovered(f, t, v)
  {
    if v in s.flow {
      assert v in Elems(s.flow);
    } else {
      forall k | ValidSite(f, v, PhiAt(k))
        ensures Covered(f, t.lat, t.exec, Waiting(t.ssa), Elems(t.flow), v, PhiAt(k))
      {
        AdvanceKeeps(f, s, t, v, PhiAt(k));
      }
    }
  }

  /** During the processing of `u`: everything else is covered, `u` counting as queued. */
  ghost predicate OthersCovered(f: Func, s: Snapshot, u: nat) {
    AllCovered(f, s.lat, s.exec, Waiting(s.ssa), Elems(s.flow) + {u})
  }

  lemma AdvanceKeepsAll(f: Func, s: Snapshot, t: Snapshot, extraNames: set<Name>, extraHot: set<nat>)
    requires Advance(f, s, t) && AllCovered(f, s.lat, s.exec, Waiting(s.ssa) + extraNames, Elems(s.flow) + extraHot)
    ensures AllCovered(f, t.lat, t.exec, Waiting(t.ssa) + extraNames, Elems(t.flow) + extraHot)
  {
    hide Covered, SettledAt, Waiting;
    var hot, hot' := Elems(s.flow) + extraHot, Elems(t.flow) + extraHot;
    forall b: nat, site | Executable(t.exec, b) && b !in hot' && ValidSite(f, b, site)
      ensures Covered(f, t.lat, t.exec, Waiting(t.ssa) + extraNames, hot', b, site)
    {
      assert b !in NewBlocks(s.exec, t.exec);
      assert b < |t.exec|;
      assert b !in hot;
      KeepsCovered(f, s.lat, s.exec, Waiting(s.ssa), t.lat, t.exec, Waiting(t.ssa), Waiting(s.ssa) + extraNames,
        Waiting(t.ssa) + extraNames, hot, b, site);
      assert hot + NewBlocks(s.exec, t.exec) == hot';
    }
  }

  /** When `u` has been evaluated throughout and its edges are covered, it no longer counts as queued. */
  lemma BlockDone(f: Func, params: set<Name>, s: Snapshot, u: nat)
    requires Analysable(f, params) && OthersCovered(f, s, u) && u < |f|
    requires forall site :: ValidSite(f, u, site) ==> Covered(f, s.lat, s.exec, Waiting(s.ssa), Elems(s.flow), u, site)
    requires forall v :: v in Successors(f[u].term) && Executable(s.exec, v) ==> EdgeCovered(f, s, v)
    ensures AllCovered(f, s.lat, s.exec, Waiting(s.ssa), Elems(s.flow))
  {
    hide SettledAt, UsesPending;
    var hot := Elems(s.flow);
    forall b: nat, site | Executable(s.exec, b) && b !in hot && ValidSite(f, b, site)
      ensures Covered(f, s.lat, s.exec, Waiting(s.ssa), hot, b, site)
    {
      if b != u {
        assert Covered(f, s.lat, s.exec, Waiting(s.ssa), hot + {u}, b, site);
        if HotPhi(f, s.exec, hot + {u}, b, site) && !HotPhi(f, s.exec, hot, b, site) {
          var args := f[b].phis[site.phi].args;
          var j :| 0 <= j < |args| && FromHot(s.exec, hot + {u}, args[j].1);
          assert !FromHot(s.exec, hot, args[j].1);
          assert args[j].1 == u;
          assert EdgeCovered(f, s, b) && b !in s.flow;
          assert site == PhiAt(site.phi);
        }
      }
    }
  }

  /** One pass over one function. */
  class SCCPer {
    const f: Func
    ghost const params: set<Name>
    var lattice: Lattice
    var executable: seq<bool>
    var flowWorklist: seq<nat>
    var ssaWorklist: seq<(Name, nat)>

    constructor (f: Func, parameters: seq<Name>, ghost params: set<Name>)
      requires 0 < |f| && params == NamesOf(parameters)
      ensures this.f == f && this.params == params
      ensures lattice.Keys == params && forall x :: x in lattice ==> lattice[x] == Bottom
      ensures executable == seq(|f|, b => b == 0) && flowWorklist == [0] && ssaWorklist == []
    {
      this.f := f;
      this.params := params;
      lattice := ParamCells(parameters);
      executable := seq(|f|, b => b == 0);
      flowWorklist := [0];
      ssaWorklist := [];
    }

    ghost function Now(): Snapshot
      reads this
    {
      Snapshot(lattice, executable, flowWorklist, ssaWorklist)
    }

    method EvalPhi(v: nat, k: nat, ghost cur: seq<nat>)
      requires Analysable(f, params) && Steady(f, params, Now(), cur) && ValidSite(f, v, PhiAt(k)) &&
          Executable(executable, v)
      modifies `lattice, `ssaWorklist
      ensures Steady(f, params, Now(), cur) && Advance(f, old(Now()), Now())
      ensures Covered(f, lattice, executable, Waiting(ssaWorklist), {}, v, PhiAt(k))
      ensures GetLattice(lattice, Var(f[v].phis[k].result)) == MeetArgs(old(lattice), executable, f[v].phis[k].args)
    {
      hide Analysable, Advance, Covered, Waiting, Steady;
      SteadySize(f, params, Now(), cur);
      var phi := f[v].phis[k];
      var result := Top;
      var first := true;
      for j := 0 to |phi.args|
        invariant lattice == old(lattice) && ssaWorklist == old(ssaWorklist)
        invariant result == MeetArgs(lattice, executable, phi.args[..j])
        invariant first ==> result == Top
      {
        assert phi.args[..j + 1][..j] == phi.args[..j];
        PhiArgInRange(f, params, v, k, j);
        if executable[phi.args[j].1] {
          if first {
            result := GetLattice(lattice, phi.args[j].0);
            first := false;
          } else {
            result := MeetCells(result, GetLattice(lattice, phi.args[j].0));
          }
        }
      }
      assert phi.args[..|phi.args|] == phi.args;
      if result != GetLattice(lattice, Var(phi.result)) {
        AnalysableFacts(f, params);
        WriteAdvances(f, params, Now(), cur, v, PhiAt(k), phi.result);
        lattice := lattice[phi.result := result];
        ssaWorklist := ssaWorklist + [(phi.result, v)];
      } else {
        SameValue(f, Now(), v, PhiAt(k));
      }
    }

    /** An instruction of the body; the terminator has its own method. */
    method EvalIns(b: nat, k: nat, ghost cur: seq<nat>)
      requires Analysable(f, params) && Steady(f, params, Now(), cur) && ValidSite(f, b, InsAt(k)) &&
          Executable(executable, b)
      modifies `lattice, `ssaWorklist
      ensures Steady(f, params, Now(), cur) && Advance(f, old(Now()), Now())
      ensures Covered(f, lattice, executable, Waiting(ssaWorklist), {}, b, InsAt(k))
      ensures Target(f[b].body[k]).Some? ==>
          GetLattice(lattice, Var(Target(f[b].body[k]).value)) == Transfer(f[b].body[k], old(lattice))
    {
      hide Analysable, Steady, Advance, Covered, Waiting, Transfer;
      var i := f[b].body[k];
      if Target(i).Some? {
        var x, result := Target(i).value, Transfer(i, lattice);
        if result != GetLattice(lattice, Var(x)) {
          AnalysableFacts(f, params);
          WriteAdvances(f, params, Now(), cur, b, InsAt(k), x);
          lattice := lattice[x := result];
          ssaWorklist := ssaWorklist + [(x, b)];
        } else {
          SameValue(f, Now(), b, InsAt(k));
        }
      } else {
        SameValue(f, Now(), b, InsAt(k));
      }
    }

    /** Make `t` executable, or evaluate its phis again because it has a new executable predecessor. */
    method EnterBlock(b: nat, t: nat, ghost cur: seq<nat>)
      requires Analysable(f, params) && Steady(f, params, Now(), cur) && Executable(executable, b) &&
          Edge(Flow(f), b, t) && t < |f|
      requires Strict(f, params) ==> LetsThrough(f, lattice, b, t)
      modifies `lattice, `ssaWorklist, `executable, `flowWorklist
      ensures Steady(f, params, Now(), cur) && Advance(f, old(Now()), Now())
      ensures Executable(executable, t) && EdgeCovered(f, Now(), t)
    {
      hide Analysable, Advance, Covered, Waiting, Strict, LetsThrough, Precise;
      NoAdvance(f, Now());
      if !executable[t] {
        MarkAdvances(f, params, Now(), cur, b, t);
        executable := executable[t := true];
        flowWorklist := flowWorklist + [t];
      } else {
        EvalPhis(t, cur);
        forall j | ValidSite(f, t, PhiAt(j))
          ensures Covered(f, lattice, executable, Waiting(ssaWorklist), Elems(flowWorklist), t, PhiAt(j))
        {
        }
      }
    }

    /** All phis of a block, in order. */
    method EvalPhis(t: nat, ghost cur: seq<nat>)
      requires Analysable(f, params) && Steady(f, params, Now(), cur) && t < |f| && Executable(executable, t)
      modifies `lattice, `ssaWorklist
      ensures Steady(f, params, Now(), cur) && Advance(f, old(Now()), Now())
      ensures forall j :: ValidSite(f, t, PhiAt(j)) ==>
          Covered(f, lattice, executable, Waiting(ssaWorklist), Elems(flowWorklist), t, PhiAt(j))
      ensures PhisFed(f, old(lattice), executable, t) ==> PhisEvaluated(f, lattice, t, |f[t].phis|)
    {
      hide Analysable, Steady, Advance, Covered, Waiting, PhisFed, PhisEvaluated;
      NoAdvance(f, Now());
      NoPhiEvaluated(f, lattice, t);
      for k := 0 to |f[t].phis|
        invariant Steady(f, params, Now(), cur) && Advance(f, old(Now()), Now())
        invariant PhisFed(f, old(lattice), executable, t) ==> PhisEvaluated(f, lattice, t, k)
        invariant forall j :: 0 <= j < k ==>
            Covered(f, lattice, executable, Waiting(ssaWorklist), Elems(flowWorklist), t, PhiAt(j))
      {
        ghost var before := Now();
        EvalPhi(t, k, cur);
        if PhisFed(f, old(lattice), executable, t) {
          OneMorePhi(f, old(Now()), before, Now(), t, k);
        }
        AdvanceTwice(f, old(Now()), before, Now());
        forall j | 0 <= j <= k
          ensures Covered(f, lattice, executable, Waiting(ssaWorklist), Elems(flowWorklist), t, PhiAt(j))
        {
          if j < k {
            AdvanceKeeps(f, before, Now(), t, PhiAt(j));
          } else {
            CoveredMore(f, lattice, executable, Waiting(ssaWorklist), {}, Waiting(ssaWorklist), Elems(flowWorklist), t,
              PhiAt(k));
          }
        }
      }
    }

    /** A branch whose condition is not a constant enters both of its targets. */
    method EnterBoth(b: nat, onTrue: nat, onFalse: nat, ghost cur: seq<nat>)
      requires Analysable(f, params) && Steady(f, params, Now(), cur) && Executable(executable, b)
      requires Edge(Flow(f), b, onTrue) && onTrue < |f| && Edge(Flow(f), b, onFalse) && onFalse < |f|
      requires b < |f| && f[b].term.Branch? && f[b].term.onTrue == onTrue && f[b].term.onFalse == onFalse
      requires Strict(f, params) ==> GetLattice(lattice, f[b].term.cond).Bottom?
      modifies `lattice, `ssaWorklist, `executable, `flowWorklist
      ensures Steady(f, params, Now(), cur) && Advance(f, old(Now()), Now())
      ensures Executable(executable, onTrue) && EdgeCovered(f, Now(), onTrue) && Executable(executable, onFalse) &&
          EdgeCovered(f, Now(), onFalse)
    {
      hide Steady, Advance, Covered, Waiting, EdgeCovered, Analysable, Strict;
      EnterBlock(b, onTrue, cur);
      ghost var before := Now();
      BottomStays(f, old(Now()), before, f[b].term.cond);
      AdvanceGrows(f, old(Now()), before);
      EnterBlock(b, onFalse, cur);
      AdvanceGrows(f, before, Now());
      AdvanceTwice(f, old(Now()), before, Now());
      AdvanceKeepsEdge(f, before, Now(), onTrue);
    }

    /** A branch whose condition is a constant enters one target; phis of an executable target are left alone. */
    method EnterTaken(b: nat, taken: nat, ghost cur: seq<nat>)
      requires Analysable(f, params) && Steady(f, params, Now(), cur) && Executable(executable, b)
      requires b < |f| && f[b].term.Branch? && Edge(Flow(f), b, taken) && taken < |f|
      requires LetsThrough(f, lattice, b, taken)
      modifies `executable, `flowWorklist
      ensures Steady(f, params, Now(), cur) && Advance(f, old(Now()), Now())
      ensures Executable(executable, taken)
      ensures cur == [b] ==> forall v :: v in Successors(f[b].term) && Executable(executable, v) ==>
          EdgeCovered(f, Now(), v)
    {
      hide Steady, Advance, Covered, Waiting, EdgeCovered, Analysable, Edge, Flow, Successors, Strict, LetsThrough;
      SteadySize(f, params, Now(), cur);
      NoAdvance(f, Now());
      if !executable[taken] {
        MarkAdvances(f, params, Now(), cur, b, taken);
        executable := executable[taken := true];
        flowWorklist := flowWorklist + [taken];
      }
      if cur == [b] {
        BranchEdgesCovered(f, params, Now(), b);
      }
    }

    method EvalTerm(b: nat, ghost cur: seq<nat>)
      requires Analysable(f, params) && Steady(f, params, Now(), cur) && b < |f| && Executable(executable, b)
      requires Strict(f, params) ==> CondEvaluated(f, lattice, b)
      modifies `lattice, `ssaWorklist, `executable, `flowWorklist
      ensures Steady(f, params, Now(), cur) && Advance(f, old(Now()), Now())
      ensures SettledAt(f, lattice, executable, b, TermAt)
      ensures cur == [b] ==> forall v :: v in Successors(f[b].term) && Executable(executable, v) ==>
          EdgeCovered(f, Now(), v)
    {
      hide Steady, Advance, Covered, Waiting, EdgeCovered, Analysable, Edge, Flow, Strict;
      NoAdvance(f, Now());
      TargetsInRange(f, params, b);
      match f[b].term {
        case Branch(c, onTrue, onFalse) =>
          assert onTrue in Successors(f[b].term) && onFalse in Successors(f[b].term);
          var cond := GetLattice(lattice, c);
          if cond.Constant? {
            EnterTaken(b, if cond.value != 0 then onTrue else onFalse, cur);
          } else {
            EnterBoth(b, onTrue, onFalse, cur);
          }
        case Jump(d) =>
          assert d in Successors(f[b].term);
          EnterBlock(b, d, cur);
        case _ =>
      }
    }

    method Evaluate(b: nat, site: Site, ghost cur: seq<nat>)
      requires Analysable(f, params) && Steady(f, params, Now(), cur) && ValidSite(f, b, site) &&
          Executable(executable, b)
      requires Strict(f, params) && site.TermAt? ==> CondEvaluated(f, lattice, b)
      modifies `lattice, `ssaWorklist, `executable, `flowWorklist
      ensures Steady(f, params, Now(), cur) && Advance(f, old(Now()), Now())
      ensures Covered(f, lattice, executable, Waiting(ssaWorklist), Elems(flowWorklist), b, site)
    {
      hide Steady, Advance, SettledAt, UsesPending, HotPhi, Waiting, Analysable, Strict, CondEvaluated;
      match site {
        case PhiAt(k) =>
          EvalPhi(b, k, cur);
          CoveredMore(f, lattice, executable, Waiting(ssaWorklist), {}, Waiting(ssaWorklist), Elems(flowWorklist), b,
            site);
        case InsAt(k) =>
          EvalIns(b, k, cur);
          CoveredMore(f, lattice, executable, Waiting(ssaWorklist), {}, Waiting(ssaWorklist), Elems(flowWorklist), b,
            site);
        case TermAt =>
          EvalTerm(b, cur);
      }
    }

    /** A block from the flow queue: phis, instructions, terminator. */
    method ProcessBlock(u: nat)
      requires Analysable(f, params) && Steady(f, params, Now(), [u]) && u < |f| && Executable(executable, u) &&
          OthersCovered(f, Now(), u)
      modifies `lattice, `ssaWorklist, `executable, `flowWorklist
      ensures Steady(f, params, Now(), []) && Advance(f, old(Now()), Now())
      ensures AllCovered(f, lattice, executable, Waiting(ssaWorklist), Elems(flowWorklist))
    {
      hide Steady, Advance, Covered, Waiting, Analysable, AllCovered, EdgeCovered, Strict, PhisFed, PhisEvaluated,
        BlockReady, BodyEvaluated, CondEvaluated, DominatorsProcessed, SitesEvaluated, HeadReady;
      ghost var s0 := Now();
      HeadEntered(f, params, s0, u);
      EvalPhis(u, [u]);
      ghost var s1 := Now();
      AfterPhis(f, params, s0, s1, u);
      EvalBody(u);
      ghost var s2 := Now();
      AfterBody(f, params, s1, s2, u);
      AdvanceGrows(f, s0, s1);
      AdvanceGrows(f, s1, s2);
      EvalTerm(u, [u]);
      AdvanceTwice(f, s0, s1, s2);
      AdvanceTwice(f, s0, s2, Now());
      forall site | ValidSite(f, u, site)
        ensures Covered(f, lattice, executable, Waiting(ssaWorklist), Elems(flowWorklist), u, site)
      {
        match site
        case PhiAt(k) =>
          assert ValidSite(f, u, PhiAt(k));
          AdvanceKeeps(f, s1, s2, u, site);
          AdvanceKeeps(f, s2, Now(), u, site);
        case InsAt(k) =>
          AdvanceKeeps(f, s2, Now(), u, site);
        case TermAt =>
          SettledIsCovered(f, Now(), u, site);
      }
      assert OthersCovered(f, Now(), u) by {
        NoExtraNames(f, s0, u);
        AdvanceKeepsAll(f, s0, Now(), {}, {u});
        NoExtraNames(f, Now(), u);
      }
      BlockDone(f, params, Now(), u);
      AfterTerm(f, params, s0, s1, s2, Now(), u);
      AdvanceGrows(f, s0, Now());
      HeadDone(f, params, Now(), u);
    }

    method EvalBody(u: nat)
      requires Analysable(f, params) && Steady(f, params, Now(), [u]) && u < |f| && Executable(executable, u)
      modifies `lattice, `ssaWorklist
      ensures Steady(f, params, Now(), [u]) && Advance(f, old(Now()), Now())
      ensures forall j :: ValidSite(f, u, InsAt(j)) ==>
          Covered(f, lattice, executable, Waiting(ssaWorklist), Elems(flowWorklist), u, InsAt(j))
      ensures BlockReady(f, old(lattice), u) ==> BodyEvaluated(f, lattice, u, |f[u].body|)
    {
      hide Steady, Advance, Covered, Waiting, Analysable, BlockReady, BodyEvaluated;
      NoAdvance(f, Now());
      NoneEvaluated(f, lattice, u);
      for k := 0 to |f[u].body|
        invariant Steady(f, params, Now(), [u]) && Advance(f, old(Now()), Now())
        invariant BlockReady(f, old(lattice), u) ==> BodyEvaluated(f, lattice, u, k)
        invariant forall j :: 0 <= j < k ==>
            Covered(f, lattice, executable, Waiting(ssaWorklist), Elems(flowWorklist), u, InsAt(j))
      {
        ghost var before := Now();
        EvalIns(u, k, [u]);
        if BlockReady(f, old(lattice), u) {
          OneMoreInstr(f, old(Now()), before, Now(), u, k);
        }
        AdvanceTwice(f, old(Now()), before, Now());
        forall j | 0 <= j <= k
          ensures Covered(f, lattice, executable, Waiting(ssaWorklist), Elems(flowWorklist), u, InsAt(j))
        {
          if j < k {
            AdvanceKeeps(f, before, Now(), u, InsAt(j));
          } else {
            CoveredMore(f, lattice, executable, Waiting(ssaWorklist), {}, Waiting(ssaWorklist), Elems(flowWorklist), u,
              InsAt(k));
          }
        }
      }
    }

    /** Every use of a variable whose cell has changed. */
    method PropagateVariable(x: Name, uses: seq<(nat, Site)>)
      requires Analysable(f, params) && Steady(f, params, Now(), []) && UsesOf(f, x, uses)
      requires AllCovered(f, lattice, executable, Waiting(ssaWorklist) + {x}, Elems(flowWorklist))
      requires Strict(f, params) ==> Evaluated(lattice, Var(x))
      modifies `lattice, `ssaWorklist, `executable, `flowWorklist
      ensures Steady(f, params, Now(), []) && Advance(f, old(Now()), Now())
      ensures AllCovered(f, lattice, executable, Waiting(ssaWorklist), Elems(flowWorklist))
    {
      hide Steady, Advance, Covered, Waiting, Analysable, AllCovered, SiteOperands, UsesOf, Strict, CondEvaluated;
      NoAdvance(f, Now());
      for i := 0 to |uses|
        invariant Steady(f, params, Now(), []) && Advance(f, old(Now()), Now())
        invariant AllCovered(f, lattice, executable, Waiting(ssaWorklist) + {x}, Elems(flowWorklist))
        invariant UsesCovered(f, Now(), uses, i)
      {
        UseIsValid(f, x, uses, i);
        var b, site := uses[i].0, uses[i].1;
        SteadySize(f, params, Now(), []);
        ghost var before := Now();
        if executable[b] {
          StillEvaluated(f, old(Now()), before, x);
          TermUseEvaluated(f, before.lat, x, uses, i);
          Evaluate(b, site, []);
          AdvanceTwice(f, old(Now()), before, Now());
          assert Elems(before.flow) + {} == Elems(before.flow) && Elems(flowWorklist) + {} == Elems(flowWorklist);
          AdvanceKeepsAll(f, before, Now(), {x}, {});
          OneMoreUse(f, before, Now(), uses, i);
        } else {
          assert UsesCovered(f, Now(), uses, i + 1);
        }
      }
      VariableDone(f, Now(), x, uses);
    }

    /** The fixpoint loop. */
    method Fixpoint(useMap: map<Name, seq<(nat, Site)>>)
      requires Analysable(f, params) && Steady(f, params, Now(), []) && UseMapComplete(f, useMap)
      requires AllCovered(f, lattice, executable, Waiting(ssaWorklist), Elems(flowWorklist))
      modifies `lattice, `ssaWorklist, `executable, `flowWorklist
      ensures Solution(f, params, lattice, executable)
      ensures Strict(f, params) ==> Optimistic(f, params, lattice, executable) && Entered(f, lattice, executable)
    {
      hide Strict, Optimistic, Entered, Steady, Advance, Covered, Waiting, Analysable, AllCovered, UseMapComplete,
        UsesOf, NotBottom, Tops, Cold, ResultNames, Solution;
      ghost var names := ResultNames(f);
      while flowWorklist != [] || ssaWorklist != []
        invariant Steady(f, params, Now(), []) &&
            AllCovered(f, lattice, executable, Waiting(ssaWorklist), Elems(flowWorklist))
        decreases NotBottom(names, lattice), Tops(names, lattice), Cold(executable), |flowWorklist|, |ssaWorklist|
      {
        ghost var start := Now();
        DrainFlow(names);
        ghost var mid := Now();
        DrainNames(useMap, names);
      }
      FixpointSolves(f, params, Now());
      SteadyOptimistic(f, params, Now());
    }

    method DrainFlow(ghost names: set<Name>)
      requires Analysable(f, params) && Steady(f, params, Now(), []) && names == ResultNames(f)
      requires AllCovered(f, lattice, executable, Waiting(ssaWorklist), Elems(flowWorklist))
      modifies `lattice, `ssaWorklist, `executable, `flowWorklist
      ensures Steady(f, params, Now(), []) &&
          AllCovered(f, lattice, executable, Waiting(ssaWorklist), Elems(flowWorklist))
      ensures Fell(names, old(lattice), old(executable), lattice, executable)
           || (lattice == old(lattice) && executable == old(executable) && ssaWorklist == old(ssaWorklist))
      ensures flowWorklist == []
    {
      hide Steady, Advance, Covered, Waiting, Analysable, AllCovered, NotBottom, Tops, Cold, ResultNames;
      while flowWorklist != []
        invariant Steady(f, params, Now(), []) &&
            AllCovered(f, lattice, executable, Waiting(ssaWorklist), Elems(flowWorklist))
        invariant Fell(names, old(lattice), old(executable), lattice, executable)
               || (lattice == old(lattice) && executable == old(executable) && ssaWorklist == old(ssaWorklist))
        decreases NotBottom(names, lattice), Tops(names, lattice), Cold(executable), |flowWorklist|
      {
        var u := flowWorklist[0];
        PopFlow(f, params, Now());
        flowWorklist := flowWorklist[1..];
        ghost var popped := Now();
        ProcessBlock(u);
        AdvanceMeasure(f, popped, Now());
      }
    }

    method DrainNames(useMap: map<Name, seq<(nat, Site)>>, ghost names: set<Name>)
      requires Analysable(f, params) && Steady(f, params, Now(), []) && names == ResultNames(f) &&
          UseMapComplete(f, useMap)
      requires AllCovered(f, lattice, executable, Waiting(ssaWorklist), Elems(flowWorklist))
      modifies `lattice, `ssaWorklist, `executable, `flowWorklist
      ensures Steady(f, params, Now(), []) &&
          AllCovered(f, lattice, executable, Waiting(ssaWorklist), Elems(flowWorklist))
      ensures Fell(names, old(lattice), old(executable), lattice, executable)
           || (lattice == old(lattice) && executable == old(executable) && flowWorklist == old(flowWorklist))
      ensures ssaWorklist == []
    {
      hide Steady, Advance, Covered, Waiting, Analysable, AllCovered, UseMapComplete, UsesOf, NotBottom, Tops, Cold,
        ResultNames, Strict, Evaluated;
      while ssaWorklist != []
        invariant Steady(f, params, Now(), []) &&
            AllCovered(f, lattice, executable, Waiting(ssaWorklist), Elems(flowWorklist))
        invariant Fell(names, old(lattice), old(executable), lattice, executable)
               || (lattice == old(lattice) && executable == old(executable) && flowWorklist == old(flowWorklist))
        decreases NotBottom(names, lattice), Tops(names, lattice), Cold(executable), |ssaWorklist|
      {
        var x := ssaWorklist[0].0;
        PopWaits(ssaWorklist);
        PopName(f, params, Now());
        WaitingEvaluated(f, params, Now());
        ssaWorklist := ssaWorklist[1..];
        ghost var popped := Now();
        UsesFound(f, useMap, x);
        PropagateVariable(x, UsesIn(useMap, x));
        AdvanceMeasure(f, popped, Now());
      }
    }
  }

  lemma SettledIsCovered(f: Func, s: Snapshot, b: nat, site: Site)
    requires SettledAt(f, s.lat, s.exec, b, site)
    ensures Covered(f, s.lat, s.exec, Waiting(s.ssa), Elems(s.flow), b, site)
  {
  }

  lemma NoExtraNames(f: Func, s: Snapshot, u: nat)
    ensures OthersCovered(f, s, u) <==> AllCovered(f, s.lat, s.exec, Waiting(s.ssa) + {}, Elems(s.flow) + {u})
  {
    assert Waiting(s.ssa) + {} == Waiting(s.ssa);
  }

  /** In SSA form, all that the head of the queue defines is evaluated, and its strict dominators are processed. */
  ghost predicate HeadReady(f: Func, params: set<Name>, s: Snapshot, u: nat) {
    Strict(f, params) ==> SitesEvaluated(f, s.lat, u) && DominatorsProcessed(f, s.exec, [u] + s.flow, u)
  }

  lemma HeadDone(f: Func, params: set<Name>, s: Snapshot, u: nat)
    requires Steady(f, params, s, [u]) && HeadReady(f, params, s, u) && Executable(s.exec, u)
    ensures Steady(f, params, s, [])
  {
    hide Strict, Queued, Optimistic, Entered, Grounded, SitesEvaluated, DominatorsProcessed, Waiting, Descending,
      Evaluated;
    DequeueHead(f, s.exec, [u] + s.flow);
    assert ([u] + s.flow)[1..] == [] + s.flow == s.flow;
    if Strict(f, params) {
      HeadGrounded(f, s.lat, s.exec, u, s.flow);
    }
  }

  /** The head of the queue was entered from a processed block. */
  lemma HeadEntered(f: Func, params: set<Name>, s: Snapshot, u: nat)
    requires Analysable(f, params) && Steady(f, params, s, [u]) && u < |f|
    ensures Strict(f, params) ==>
        DominatorsProcessed(f, s.exec, [u] + s.flow, u) && PhisFed(f, s.lat, s.exec, u)
  {
    if Strict(f, params) {
      var q := [u] + s.flow;
      assert q[0] == u && q[0..] == q;
      assert EnteredFrom(f, s.exec, u, q);
      if u == 0 {
        EntryDominators(f, s.exec, q);
        assert PhisFed(f, s.lat, s.exec, 0);
      } else {
        var c: nat :| Executable(s.exec, c) && Edge(Flow(f), c, u) && c !in q;
        hide Analysable, Queued, Optimistic, Entered, Grounded, Strict, DominatorsProcessed, PhisFed, Edge;
        DominatorsDone(f, s.lat, s.exec, q, c, u);
        PhisAreFed(f, params, s.lat, s.exec, q, c, u);
      }
    }
  }

  lemma PreciseParts(f: Func, params: set<Name>, s: Snapshot, cur: seq<nat>)
    requires Steady(f, params, s, cur) && Strict(f, params)
    ensures Grounded(f, s.lat, s.exec, cur + s.flow) && ParamsKnown(s.lat, params) && |s.exec| == |f|
  {
  }

  lemma ProcessedStays(f: Func, s: Snapshot, t: Snapshot, u: nat)
    requires Advance(f, s, t) && DominatorsProcessed(f, s.exec, [u] + s.flow, u)
    ensures DominatorsProcessed(f, t.exec, [u] + t.flow, u)
  {
    hide Keeps, Lower, Fell, Dominates;
    AdvanceGrows(f, s, t);
    forall d: nat | Processed(s.exec, [u] + s.flow, d)
      ensures Processed(t.exec, [u] + t.flow, d)
    {
      assert d !in NewBlocks(s.exec, t.exec);
      assert d in t.flow ==> d in Elems(t.flow);
      assert d in Elems(s.flow) ==> d in s.flow;
    }
  }

  /** With the phis evaluated, the instructions find evaluated operands. */
  lemma AfterPhis(f: Func, params: set<Name>, s0: Snapshot, s1: Snapshot, u: nat)
    requires Steady(f, params, s1, [u]) && Advance(f, s0, s1) && u < |f| && Executable(s0.exec, u)
    requires Strict(f, params) ==> DominatorsProcessed(f, s0.exec, [u] + s0.flow, u)
    requires Strict(f, params) ==> PhisEvaluated(f, s1.lat, u, |f[u].phis|)
    ensures Strict(f, params) ==> BlockReady(f, s1.lat, u)
  {
    hide Steady, Advance, Strict, DominatorsProcessed, PhisEvaluated, BlockReady;
    if Strict(f, params) {
      AdvanceGrows(f, s0, s1);
      ProcessedStays(f, s0, s1, u);
      PreciseParts(f, params, s1, [u]);
      BlockIsReady(f, params, s1.lat, s1.exec, [u] + s1.flow, u);
    }
  }

  lemma AfterBody(f: Func, params: set<Name>, s1: Snapshot, s2: Snapshot, u: nat)
    requires Advance(f, s1, s2) && u < |f| && (Strict(f, params) ==> BlockReady(f, s1.lat, u))
    requires BlockReady(f, s1.lat, u) ==> BodyEvaluated(f, s2.lat, u, |f[u].body|)
    ensures Strict(f, params) ==> BodyEvaluated(f, s2.lat, u, |f[u].body|) && CondEvaluated(f, s2.lat, u)
  {
    hide Advance, Strict, BlockReady, BodyEvaluated, CondEvaluated, Lower;
    AdvanceLowers(f, s1, s2);
    if Strict(f, params) {
      ReadyTerm(f, s1.lat, s1.exec, s2.lat, s2.exec, u);
    }
  }

  lemma AfterTerm(f: Func, params: set<Name>, s0: Snapshot, s1: Snapshot, s2: Snapshot, s3: Snapshot, u: nat)
    requires Advance(f, s0, s3) && Advance(f, s1, s2) && Advance(f, s2, s3) && u < |f|
    requires Strict(f, params) ==> DominatorsProcessed(f, s0.exec, [u] + s0.flow, u)
    requires Strict(f, params) ==>
        PhisEvaluated(f, s1.lat, u, |f[u].phis|) && BodyEvaluated(f, s2.lat, u, |f[u].body|)
    ensures HeadReady(f, params, s3, u)
  {
    hide Advance, Strict, DominatorsProcessed, PhisEvaluated, BodyEvaluated, Lower, SitesEvaluated;
    AdvanceLowers(f, s1, s2);
    AdvanceLowers(f, s2, s3);
    if Strict(f, params) {
      ProcessedStays(f, s0, s3, u);
      PhisEvaluatedLater(f, s1.lat, s1.exec, s2.lat, s2.exec, u, |f[u].phis|);
      PhisEvaluatedLater(f, s2.lat, s2.exec, s3.lat, s3.exec, u, |f[u].phis|);
      BodyEvaluatedLater(f, s2.lat, s2.exec, s3.lat, s3.exec, u, |f[u].body|);
      BlockEvaluated(f, s3.lat, u);
    }
  }

  lemma NoPhiEvaluated(f: Func, lat: Lattice, u: nat)
    requires u < |f|
    ensures PhisEvaluated(f, lat, u, 0)
  {
  }

  lemma NoneEvaluated(f: Func, lat: Lattice, u: nat)
    requires u < |f|
    ensures BodyEvaluated(f, lat, u, 0)
  {
  }

  lemma OneMorePhi(f: Func, s0: Snapshot, s: Snapshot, t: Snapshot, u: nat, k: nat)
    requires Advance(f, s0, s) && Advance(f, s, t) && s.exec == s0.exec == t.exec && PhisFed(f, s0.lat, s0.exec, u)
    requires u < |f| && k < |f[u].phis| && PhisEvaluated(f, s.lat, u, k)
    requires GetLattice(t.lat, Var(f[u].phis[k].result)) == MeetArgs(s.lat, s.exec, f[u].phis[k].args)
    ensures PhisEvaluated(f, t.lat, u, k + 1)
  {
    hide Advance, Lower, GetLattice;
    AdvanceLowers(f, s0, s);
    AdvanceLowers(f, s, t);
    FedLater(f, s0.lat, s.lat, s.exec, u);
    assert PhiFed(s.lat, s.exec, f[u].phis[k].args);
    var j: nat :| j < |f[u].phis[k].args| && Executable(s.exec, f[u].phis[k].args[j].1) &&
      Evaluated(s.lat, f[u].phis[k].args[j].0);
    MeetFed(s.lat, s.exec, f[u].phis[k].args, j);
    PhisEvaluatedLater(f, s.lat, s.exec, t.lat, t.exec, u, k);
  }

  lemma OneMoreInstr(f: Func, s0: Snapshot, s: Snapshot, t: Snapshot, u: nat, k: nat)
    requires Advance(f, s0, s) && Advance(f, s, t) && BlockReady(f, s0.lat, u)
    requires u < |f| && k < |f[u].body| && BodyEvaluated(f, s.lat, u, k)
    requires Target(f[u].body[k]).Some? ==>
        GetLattice(t.lat, Var(Target(f[u].body[k]).value)) == Transfer(f[u].body[k], s.lat)
    ensures BodyEvaluated(f, t.lat, u, k + 1)
  {
    hide Advance, Lower, GetLattice, BlockReady, Transfer;
    AdvanceLowers(f, s0, s);
    AdvanceLowers(f, s, t);
    ReadyInstr(f, s0.lat, s0.exec, s.lat, s.exec, u, k);
    BodyEvaluatedLater(f, s.lat, s.exec, t.lat, t.exec, u, k);
  }

  lemma BottomStays(f: Func, s: Snapshot, t: Snapshot, o: Operand)
    requires Advance(f, s, t)
    ensures GetLattice(s.lat, o).Bottom? ==> GetLattice(t.lat, o).Bottom?
  {
    hide Keeps, Fell;
    LowerCell(s.lat, s.exec, t.lat, t.exec, o);
  }

  lemma StillEvaluated(f: Func, s: Snapshot, t: Snapshot, x: Name)
    requires Advance(f, s, t)
    ensures Evaluated(s.lat, Var(x)) ==> Evaluated(t.lat, Var(x))
  {
    hide Keeps, Fell;
    LowerCell(s.lat, s.exec, t.lat, t.exec, Var(x));
  }

  /** A branch is looked at again only because its condition has been evaluated. */
  lemma TermUseEvaluated(f: Func, lat: Lattice, x: Name, uses: seq<(nat, Site)>, i: nat)
    requires UsesOf(f, x, uses) && i < |uses|
    ensures uses[i].1.TermAt? && Evaluated(lat, Var(x)) ==> CondEvaluated(f, lat, uses[i].0)
  {
    hide GetLattice;
    assert UsesName(f, uses[i].0, uses[i].1, x);
  }

  lemma WaitingEvaluated(f: Func, params: set<Name>, s: Snapshot)
    requires Steady(f, params, s, []) && s.ssa != []
    ensures Strict(f, params) ==> Evaluated(s.lat, Var(s.ssa[0].0))
  {
    hide Strict, Optimistic, Entered, Grounded, Queued, Descending;
    assert s.ssa[0].0 in Waiting(s.ssa);
  }

  lemma SteadyOptimistic(f: Func, params: set<Name>, s: Snapshot)
    requires Steady(f, params, s, [])
    ensures Strict(f, params) ==> Optimistic(f, params, s.lat, s.exec) && Entered(f, s.lat, s.exec)
  {
  }

  /** Taking the head off the flow queue. */
  lemma PopFlow(f: Func, params: set<Name>, s: Snapshot)
    requires Steady(f, params, s, []) && s.flow != []
    requires AllCovered(f, s.lat, s.exec, Waiting(s.ssa), Elems(s.flow))
    ensures Steady(f, params, s.(flow := s.flow[1..]), [s.flow[0]]) && s.flow[0] < |f| && Executable(s.exec, s.flow[0])
    ensures OthersCovered(f, s.(flow := s.flow[1..]), s.flow[0])
  {
    hide Covered, Descending, Queued, Elems, Waiting, Strict, Optimistic, Entered, Grounded, Evaluated;
    HeadQueued(f, s.exec, s.flow);
    assert [] + s.flow == s.flow && [s.flow[0]] + s.flow[1..] == s.flow;
  }

  lemma HeadQueued(f: Func, exec: seq<bool>, q: seq<nat>)
    requires q != []
    ensures Elems(q) == Elems(q[1..]) + {q[0]}
    ensures Queued(f, exec, q) ==> q[0] < |f| && Executable(exec, q[0])
  {
    assert q == [q[0]] + q[1..];
  }

  lemma PopName(f: Func, params: set<Name>, s: Snapshot)
    requires Steady(f, params, s, []) && s.ssa != []
    ensures Steady(f, params, s.(ssa := s.ssa[1..]), [])
  {
    hide Strict, Optimistic, Entered, Grounded, Queued, Descending, Evaluated, Waiting;
    PopWaits(s.ssa);
  }

  lemma AdvanceMeasure(f: Func, s: Snapshot, t: Snapshot)
    requires Advance(f, s, t)
    ensures s == t || Fell(ResultNames(f), s.lat, s.exec, t.lat, t.exec)
  {
  }

  // ---- The use map ----

  /** `uses` lists exactly the places that use `x`. */
  ghost predicate UsesOf(f: Func, x: Name, uses: seq<(nat, Site)>) {
    && (forall i :: 0 <= i < |uses| ==> UsesName(f, uses[i].0, uses[i].1, x))
    && (forall b: nat, s :: UsesName(f, b, s, x) ==> exists i :: 0 <= i < |uses| && uses[i] == (b, s))
  }

  predicate UsesName(f: Func, b: nat, s: Site, x: Name) {
    ValidSite(f, b, s) && Var(x) in SiteOperands(f, b, s)
  }

  function UsesIn(useMap: map<Name, seq<(nat, Site)>>, x: Name): seq<(nat, Site)> {
    if x in useMap then useMap[x] else []
  }

  ghost predicate UseMapComplete(f: Func, useMap: map<Name, seq<(nat, Site)>>) {
    forall x :: UsesOf(f, x, UsesIn(useMap, x))
  }

  lemma UseIsValid(f: Func, x: Name, uses: seq<(nat, Site)>, i: nat)
    requires UsesOf(f, x, uses) && i < |uses|
    ensures ValidSite(f, uses[i].0, uses[i].1)
  {
  }

  lemma UsesFound(f: Func, useMap: map<Name, seq<(nat, Site)>>, x: Name)
    requires UseMapComplete(f, useMap)
    ensures UsesOf(f, x, UsesIn(useMap, x))
  {
  }

  /** The first `n` uses are covered without counting the variable as pending. */
  ghost predicate UsesCovered(f: Func, s: Snapshot, uses: seq<(nat, Site)>, n: nat) {
    forall i :: 0 <= i < n && i < |uses| && Executable(s.exec, uses[i].0) && uses[i].0 !in Elems(s.flow) ==>
      Covered(f, s.lat, s.exec, Waiting(s.ssa), Elems(s.flow), uses[i].0, uses[i].1)
  }

  lemma OneMoreUse(f: Func, s: Snapshot, t: Snapshot, uses: seq<(nat, Site)>, n: nat)
    requires Advance(f, s, t) && UsesCovered(f, s, uses, n) && n < |uses|
    requires Covered(f, t.lat, t.exec, Waiting(t.ssa), Elems(t.flow), uses[n].0, uses[n].1)
    ensures UsesCovered(f, t, uses, n + 1)
  {
    hide Covered, Waiting, Fell, Keeps;
    forall i | 0 <= i < n && Executable(t.exec, uses[i].0) && uses[i].0 !in Elems(t.flow)
      ensures Covered(f, t.lat, t.exec, Waiting(t.ssa), Elems(t.flow), uses[i].0, uses[i].1)
    {
      assert uses[i].0 !in NewBlocks(s.exec, t.exec);
      AdvanceKeeps(f, s, t, uses[i].0, uses[i].1);
    }
  }

  lemma VariableDone(f: Func, s: Snapshot, x: Name, uses: seq<(nat, Site)>)
    requires AllCovered(f, s.lat, s.exec, Waiting(s.ssa) + {x}, Elems(s.flow)) && UsesOf(f, x, uses) &&
        UsesCovered(f, s, uses, |uses|)
    ensures AllCovered(f, s.lat, s.exec, Waiting(s.ssa), Elems(s.flow))
  {
    hide SettledAt, HotPhi, SiteOperands, Waiting;
    var names, hot := Waiting(s.ssa), Elems(s.flow);
    forall b: nat, site | Executable(s.exec, b) && b !in hot && ValidSite(f, b, site)
      ensures Covered(f, s.lat, s.exec, names, hot, b, site)
    {
      assert Covered(f, s.lat, s.exec, names + {x}, hot, b, site);
      if UsesName(f, b, site, x) {
        var i :| 0 <= i < |uses| && uses[i] == (b, site);
      } else if UsesPending(f, b, site, names + {x}) {
        var k :| 0 <= k < |SiteOperands(f, b, site)| && InSet(SiteOperands(f, b, site)[k], names + {x});
        assert SiteOperands(f, b, site)[k] in SiteOperands(f, b, site);
        assert InSet(SiteOperands(f, b, site)[k], names);
      }
    }
  }

  lemma FixpointSolves(f: Func, params: set<Name>, s: Snapshot)
    requires Steady(f, params, s, []) && s.flow == [] && s.ssa == []
    requires AllCovered(f, s.lat, s.exec, Waiting(s.ssa), Elems(s.flow))
    ensures Solution(f, params, s.lat, s.exec)
  {
    hide Settled, SiteOperands;
    forall b: nat, site | Executable(s.exec, b) && ValidSite(f, b, site)
      ensures Settled(f, s.lat, s.exec, b, site)
    {
      assert Covered(f, s.lat, s.exec, Waiting(s.ssa), Elems(s.flow), b, site);
    }
  }

  lemma PhiArgInRange(f: Func, params: set<Name>, v: nat, k: nat, j: nat)
    requires Analysable(f, params) && ValidSite(f, v, PhiAt(k)) && j < |f[v].phis[k].args|
    ensures f[v].phis[k].args[j].1 < |f|
  {
  }

  lemma TargetsInRange(f: Func, params: set<Name>, b: nat)
    requires Analysable(f, params) && b < |f|
    ensures forall v :: v in Successors(f[b].term) ==> v < |f| && Edge(Flow(f), b, v)
  {
    forall v | v in Successors(f[b].term)
      ensures v < |f| && Edge(Flow(f), b, v)
    {
      assert v in Flow(f)[b];
    }
  }

  /** The targets of the branch at the head of the queue are still queued. */
  lemma BranchEdgesCovered(f: Func, params: set<Name>, s: Snapshot, b: nat)
    requires Analysable(f, params) && Steady(f, params, s, [b]) && b < |f| && f[b].term.Branch?
    ensures forall v :: v in Successors(f[b].term) && Executable(s.exec, v) ==> EdgeCovered(f, s, v)
  {
    forall v | v in Successors(f[b].term) && Executable(s.exec, v)
      ensures v in s.flow
    {
      BranchTargetQueued(f, s.exec, b, s.flow, v);
    }
  }

  /** The use map lists, for each variable, exactly the places of `done` that use it. */
  ghost predicate Lists(f: Func, useMap: map<Name, seq<(nat, Site)>>, done: set<(nat, Site)>) {
    forall x, p :: p in UsesIn(useMap, x) <==> p in done && UsesName(f, p.0, p.1, x)
  }

  method AddUses(f: Func, useMap0: map<Name, seq<(nat, Site)>>, b: nat, s: Site, ghost done: set<(nat, Site)>)
      returns (useMap: map<Name, seq<(nat, Site)>>)
    requires ValidSite(f, b, s) && Lists(f, useMap0, done)
    ensures Lists(f, useMap, done + {(b, s)})
  {
    hide SiteOperands, Lists;
    useMap := useMap0;
    var operands := SiteOperands(f, b, s);
    for k := 0 to |operands|
      invariant forall x, p :: p in UsesIn(useMap, x) <==>
          p in UsesIn(useMap0, x) ||
          (p == (b, s) && Var(x) in operands[..k])
    {
      assert operands[..k + 1] == operands[..k] + [operands[k]];
      if operands[k].Var? {
        var x := operands[k].name;
        ghost var before := useMap;
        useMap := useMap[x := UsesIn(useMap, x) + [(b, s)]];
        assert forall y :: y != x ==> UsesIn(useMap, y) == UsesIn(before, y);
      }
    }
    assert operands[..|operands|] == operands;
    ListedOneMore(f, useMap0, useMap, b, s, done);
  }

  lemma NothingListed(f: Func)
    ensures Lists(f, map[], {})
  {
  }

  lemma ListedOneMore(f: Func, useMap0: map<Name, seq<(nat, Site)>>, useMap: map<Name, seq<(nat, Site)>>, b: nat,
      s: Site, done: set<(nat, Site)>)
    requires ValidSite(f, b, s) && Lists(f, useMap0, done)
    requires forall x, p :: p in UsesIn(useMap, x) <==>
        p in UsesIn(useMap0, x) ||
        (p == (b, s) && Var(x) in SiteOperands(f, b, s))
    ensures Lists(f, useMap, done + {(b, s)})
  {
    hide SiteOperands;
  }

  /** Every operand of every instruction and phi. */
  method BuildUseMap(f: Func) returns (useMap: map<Name, seq<(nat, Site)>>)
    ensures UseMapComplete(f, useMap)
  {
    hide UsesName, Lists, SiteOperands;
    useMap := map[];
    ghost var done: set<(nat, Site)> := {};
    NothingListed(f);
    for b := 0 to |f|
      invariant Lists(f, useMap, done)
      invariant forall c: nat, s :: c < b && ValidSite(f, c, s) ==> (c, s) in done
    {
      for k := 0 to |f[b].body|
        invariant Lists(f, useMap, done)
        invariant forall c: nat, s :: c < b && ValidSite(f, c, s) ==> (c, s) in done
        invariant forall j :: 0 <= j < k ==> (b, InsAt(j)) in done
      {
        useMap := AddUses(f, useMap, b, InsAt(k), done);
        done := done + {(b, InsAt(k))};
      }
      useMap := AddUses(f, useMap, b, TermAt, done);
      done := done + {(b, TermAt)};
      for k := 0 to |f[b].phis|
        invariant Lists(f, useMap, done)
        invariant forall c: nat, s :: c < b && ValidSite(f, c, s) ==> (c, s) in done
        invariant forall j :: 0 <= j < |f[b].body| ==> (b, InsAt(j)) in done
        invariant (b, TermAt) in done
        invariant forall j :: 0 <= j < k ==> (b, PhiAt(j)) in done
      {
        useMap := AddUses(f, useMap, b, PhiAt(k), done);
        done := done + {(b, PhiAt(k))};
      }
      forall s | ValidSite(f, b, s)
        ensures (b, s) in done
      {
        match s
        case PhiAt(j) =>
        case InsAt(j) =>
        case TermAt =>
      }
    }
    ListsAll(f, useMap, done);
  }

  lemma ListsAll(f: Func, useMap: map<Name, seq<(nat, Site)>>, done: set<(nat, Site)>)
    requires Lists(f, useMap, done) && forall c: nat, s :: ValidSite(f, c, s) ==> (c, s) in done
    ensures UseMapComplete(f, useMap)
  {
    hide SiteOperands;
    forall x
      ensures UsesOf(f, x, UsesIn(useMap, x))
    {
      var uses := UsesIn(useMap, x);
      forall i | 0 <= i < |uses|
        ensures UsesName(f, uses[i].0, uses[i].1, x)
      {
        assert uses[i] in uses;
      }
      forall b: nat, s | UsesName(f, b, s, x)
        ensures exists i :: 0 <= i < |uses| && uses[i] == (b, s)
      {
        assert (b, s) in uses;
      }
    }
  }

  // ---- The whole pass ----

  ghost function NamesOf(params: seq<Name>): set<Name> {
    set x | x in params
  }

  function ParamCells(params: seq<Name>): (lat: Lattice)
    ensures lat.Keys == NamesOf(params)
    ensures forall x :: x in lat ==> lat[x] == Bottom
  {
    if params == [] then map[] else ParamCells(params[1..])[params[0] := Bottom]
  }

  lemma StartIsPrecise(f: Func, params: set<Name>, lat: Lattice, s: Snapshot)
    requires 0 < |f| && lat.Keys == params && forall x :: x in lat ==> lat[x] == Bottom
    requires s == Snapshot(lat, seq(|f|, b => b == 0), [0], [])
    ensures Precise(f, params, s, [])
  {
    hide SitesEvaluated, Dominates;
    SinglePath(Flow(f), 0);
    forall lat2: Lattice, exec2: seq<bool> | Solution(f, params, lat2, exec2)
      ensures Lower(lat, s.exec, lat2, exec2)
    {
    }
    assert [] + s.flow == [0];
  }

  lemma StartIsSteady(f: Func, params: set<Name>, lat: Lattice, s: Snapshot)
    requires Analysable(f, params) && lat.Keys == params && forall x :: x in lat ==> lat[x] == Bottom
    requires s == Snapshot(lat, seq(|f|, b => b == 0), [0], [])
    ensures Steady(f, params, s, []) && AllCovered(f, s.lat, s.exec, Waiting(s.ssa), Elems(s.flow))
  {
    hide Covered, SiteValue, Strict;
    StartIsPrecise(f, params, lat, s);
    forall b: nat, site | ValidSite(f, b, site) && SiteResult(f, b, site).Some?
      ensures GetLattice(lat, Var(SiteResult(f, b, site).value)) == Top
    {
      assert SiteResult(f, b, site).value !in params;
    }
    assert [] + s.flow == [0];
  }

  /** The pass on one function, with the cells and flags at the fixpoint. */
  method RunOnFunction(f: Func, parameters: seq<Name>) returns (r: Func, ghost lat: Lattice, ghost exec: seq<bool>)
    requires Analysable(f, NamesOf(parameters))
    ensures Solution(f, NamesOf(parameters), lat, exec) && Rewritten(f, lat, exec, r)
    // Nothing that the solution knows is left in the result.
    ensures forall b: nat :: b < |f| && Executable(exec, b) ==> NothingToFold(lat, exec, r[b])
    ensures forall b: nat :: b < |f| && !Executable(exec, b) ==> r[b] == Block([], [], Missing)
    // In SSA form no other solution finds more: each makes at least these blocks executable and has no higher cells;
    // and every executable block but the first is one that an executable block lets through.
    ensures Strict(f, NamesOf(parameters)) ==>
      forall lat2: Lattice, exec2: seq<bool> :: Solution(f, NamesOf(parameters), lat2, exec2) ==>
          Lower(lat, exec, lat2, exec2)
    ensures Strict(f, NamesOf(parameters)) ==> Entered(f, lat, exec)
    ensures NoFoldedNots(f, lat, exec) ==>
      forall w: World, env: Env, n: nat :: env.Keys <= NamesOf(parameters) ==>
          SameOutcome(Runs(w, f, Start(env), n), Runs(w, r, Start(env), n))
  {
    hide Solution, Rewritten, SingleAssignment, Steady, AllCovered, UseMapComplete, Runs, NoFoldedNots, Strict, Lower,
      Entered, NothingToFold;
    ghost var params := NamesOf(parameters);
    var pass := new SCCPer(f, parameters, params);
    var useMap := BuildUseMap(f);
    StartIsSteady(f, params, pass.lattice, pass.Now());
    pass.Fixpoint(useMap);
    r := Rewrite(f, params, pass.lattice, pass.executable);
    lat, exec := pass.lattice, pass.executable;
    NothingLeftToFold(f, lat, exec, r);
    if NoFoldedNots(f, lat, exec) {
      forall w: World, env: Env, n: nat | env.Keys <= params
        ensures SameOutcome(Runs(w, f, Start(env), n), Runs(w, r, Start(env), n))
      {
        RewriteKeepsRuns(f, r, params, w, lat, exec, env, n);
      }
    }
  }

  // ---- A folded `not` on i1 ----

  const C: Name := "%c"
  const D: Name := "%d"

  /** `c := 0 == 0; d := not c;` and a branch on `d`. */
  function NotExample(): Func {
    [Block([], [Compare(C, Eq, Const(0), Const(0)), Neg(D, false, true, Var(C))], Branch(Var(D), 1, 2)),
     Block([], [], Return(Some(Const(1)))),
     Block([], [], Return(Some(Const(0))))]
  }

  lemma NotExampleAnalysable()
    ensures Analysable(NotExample(), {})
  {
    var f := NotExample();
    assert Flow(f)[0] == [1, 2] && Flow(f)[1] == [] && Flow(f)[2] == [];
    NotExampleSites();
    hide SingleAssignment;
  }

  lemma NotExampleSites()
    ensures SingleAssignment(NotExample(), {})
  {
    forall b: nat, s | ValidSite(NotExample(), b, s) && SiteResult(NotExample(), b, s).Some?
      ensures b == 0 && s == if SiteResult(NotExample(), b, s) == Some(C) then InsAt(0) else InsAt(1)
    {
    }
    hide SiteResult, ValidSite;
  }

  lemma TwoLookups(env: Env, a: Operand, b: Operand)
    requires Lookup(env, a).Some? && Lookup(env, b).Some?
    ensures LookupAll(env, [a, b]) == Some([Lookup(env, a).value, Lookup(env, b).value])
  {
    OneLookup(env, b);
    assert [a, b][1..] == [b];
    assert [Lookup(env, a).value] + [Lookup(env, b).value] == [Lookup(env, a).value, Lookup(env, b).value];
  }

  /** The function takes the false branch. */
  lemma NotExampleRuns(w: World)
    ensures Runs(w, NotExample(), Start(map[]), 2) == Left(Some(0), [])
  {
    var f := NotExample();
    var s: State := State(map[], []);
    var body := f[0].body;
    OneLookup(map[C := 1], Var(C));
    TwoLookups(map[], Const(0), Const(0));
    assert Exec(w, body[0], s) == Some(State(map[C := 1], []));
    assert Exec(w, body[1], State(map[C := 1], [])) == Some(State(map[C := 1, D := 0], []));
    assert body == [body[0]] + ([body[1]] + []);
    ExecAllCons(w, body[0], [body[1]] + [], s);
    ExecAllCons(w, body[1], [], State(map[C := 1], []));
    assert ExecAll(w, body, s) == Some(State(map[C := 1, D := 0], []));
    assert EdgeCopies(f[2].phis, 0) == [];
    assert Runs(w, f, Start(map[]), 0) == At(0, s);
    assert Runs(w, f, Start(map[]), 1) == At(2, State(map[C := 1, D := 0], []));
  }

  /** At the fixpoint `c` is known to be 1, `d` is taken for -2, and the target of a true condition is executable. */
  lemma NotExampleCells(lat: Lattice, exec: seq<bool>)
    requires Solution(NotExample(), {}, lat, exec)
    ensures GetLattice(lat, Var(C)) == Constant(1) && GetLattice(lat, Var(D)) == Constant(-2) && Executable(exec, 0) &&
        Executable(exec, 1)
    ensures !NoFoldedNots(NotExample(), lat, exec)
  {
    var f := NotExample();
    assert ValidSite(f, 0, InsAt(0)) && ValidSite(f, 0, InsAt(1)) && ValidSite(f, 0, TermAt);
    assert Settled(f, lat, exec, 0, InsAt(0)) && Settled(f, lat, exec, 0, InsAt(1)) && Settled(f, lat, exec, 0, TermAt);
    hide Solution;
    assert GetLattice(lat, Var(C)) == Constant(1);
    assert GetLattice(lat, Var(D)) == Constant(-2);
    assert FoldedNot(f[0].body[1], lat);
  }

  /** So the rewritten function jumps to the true branch. */
  lemma NotExampleRewritten(w: World, lat: Lattice, exec: seq<bool>, r: Func)
    requires Solution(NotExample(), {}, lat, exec) && Rewritten(NotExample(), lat, exec, r)
    ensures Runs(w, r, Start(map[]), 2) == Left(Some(1), [])
  {
    hide Solution, RewrittenBlock, Kept;
    var f := NotExample();
    NotExampleCells(lat, exec);
    RewrittenParts(f[0], lat, exec);
    RewrittenParts(f[1], lat, exec);
    KeptNothing(f[0].body, lat);
    KeptNone(lat);
    assert r[0].term == Jump(1) && r[0].body == [] && r[1].term == Return(Some(Const(1))) && r[1].phis == [] &&
        r[1].body == [];
    var s: State := State(map[], []);
    assert Runs(w, r, Start(map[]), 0) == At(0, s);
    assert Runs(w, r, Start(map[]), 1) == At(1, s);
  }

  lemma KeptNothing(body: seq<Instr>, lat: Lattice)
    requires |body| == 2 && AllConstant(MapUses(body[0], Known(lat))) && AllConstant(MapUses(body[1], Known(lat)))
    ensures Kept(body, lat) == []
  {
    assert body == [body[0]] + ([body[1]] + []);
    KeptCons(body[0], [body[1]] + [], lat);
    KeptCons(body[1], [], lat);
    KeptNone(lat);
  }

  /** The pass changes what this function returns: the guard on folded `not`s is needed. */
  method FoldNotExample() returns (r: Func)
    ensures forall w: World :: !SameOutcome(Runs(w, NotExample(), Start(map[]), 2), Runs(w, r, Start(map[]), 2))
  {
    hide Solution, Rewritten, Analysable, Runs, NoFoldedNots, NotExample;
    NotExampleAnalysable();
    ghost var lat, exec;
    assert NamesOf([]) == {};
    r, lat, exec := RunOnFunction(NotExample(), []);
    forall w: World
      ensures !SameOutcome(Runs(w, NotExample(), Start(map[]), 2), Runs(w, r, Start(map[]), 2))
    {
      NotExampleRuns(w);
      NotExampleRewritten(w, lat, exec, r);
    }
  }
}
