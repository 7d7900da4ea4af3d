/** Promoting stack slots to SSA values: which value a load reads, and why phi placement makes it unique. */
module SsaForms {
  import opened Graphs
  import opened IR
  import opened DominanceFrontiers

  // ---- Accesses to promoted slots ----

  datatype Access = LoadOf(result: Name, slot: Name) | StoreTo(slot: Name,
    value: Operand) | AllocaOf(slot: Name) | Other

  function AccessOf(i: Instr, promoted: set<Name>): Access {
    match i
    case Effect(Some(x), Load, args) => if |args| == 1 && args[0].Var? && args[0].name in promoted then
      LoadOf(x, args[0].name) else Other
    case Effect(None, Store, args) => if |args| == 2 && args[1].Var? && args[1].name in promoted then
      StoreTo(args[1].name, args[0]) else Other
    case Effect(Some(x), Alloca, _) => if x in promoted then AllocaOf(x) else Other
    case _ => Other
  }

  /** The meaning of an access: a promoted slot is a private cell with the name of its alloca. */
  function SlotInstr(i: Instr, promoted: set<Name>): Instr {
    match AccessOf(i, promoted)
    case LoadOf(x, p) => Move(x, Var(p))
    case StoreTo(p, v) => Move(p, v)
    case AllocaOf(p) => Move(p, Var(p))
    case Other => i
  }

  function WithSlots(f: Func, promoted: set<Name>): (r: Func)
    ensures |r| == |f|
    ensures forall b :: 0 <= b < |f| ==> r[b].phis == f[b].phis && r[b].term == f[b].term && |r[b].body| == |f[b].body|
    ensures forall b, k :: 0 <= b < |f| && 0 <= k < |f[b].body| ==> r[b].body[k] == SlotInstr(f[b].body[k], promoted)
  {
    seq(|f|, b requires 0 <= b < |f| => f[b].(body :=
      seq(|f[b].body|, k requires 0 <= k < |f[b].body| => SlotInstr(f[b].body[k], promoted))))
  }

  /** The definition of a variable: position 0 of a block is its phis, position `k + 1` its instruction `k`;
   * parameters stand at the start of block 0. */
  type Site = (nat, nat)

  /** The function, its promoted slots, the definitions of all variables, the dominator tree, the names of the phis
   * and where slots are live. */
  datatype Form = Form(f: Func, promoted: set<Name>, sites: map<Name, Site>, dom: seq<int>, phis: map<(Name, nat),
    Name>, live: map<Name, set<nat>>)

  ghost function G(c: Form): (g: Graph)
    ensures |g| == |c.f|
  {
    Flow(c.f)
  }

  predicate InBody(c: Form, b: nat, k: nat) {
    b < |c.f| && k < |c.f[b].body|
  }

  function AccessAt(c: Form, b: nat, k: nat): Access
    requires InBody(c, b, k)
  {
    AccessOf(c.f[b].body[k], c.promoted)
  }

  predicate Stores(c: Form, p: Name, b: nat, k: nat) {
    InBody(c, b, k) && AccessAt(c, b, k).StoreTo? && AccessAt(c, b, k).slot == p
  }

  lemma NotStoredHere(c: Form, p: Name, b: nat, k: nat)
    requires InBody(c, b, k) && !(AccessAt(c, b, k).StoreTo? && AccessAt(c, b, k).slot == p)
    ensures !Stores(c, p, b, k)
  {
  }

  predicate Loads(c: Form, p: Name, b: nat, k: nat) {
    InBody(c, b, k) && AccessAt(c, b, k).LoadOf? && AccessAt(c, b, k).slot == p
  }

  /** The blocks that store to `p`. */
  ghost function DefBlocks(c: Form, p: Name): set<nat> {
    set b: nat | b < |c.f| && StoresIn(c, p, b)
  }

  ghost predicate StoresIn(c: Form, p: Name, b: nat) {
    exists k :: Stores(c, p, b, k)
  }

  // ---- Liveness of slots ----

  ghost predicate LoadedFrom(c: Form, p: Name, b: nat, k: nat) {
    exists j :: k <= j && Loads(c, p, b, j) && NotStored(c, p, b, k, j)
  }

  ghost predicate NotStored(c: Form, p: Name, b: nat, k: nat, j: nat) {
    forall i: nat :: k <= i < j ==> !Stores(c, p, b, i)
  }

  /** A load before any store follows in the block, or nothing is stored and a successor has the slot live. */
  ghost predicate LiveAt(c: Form, p: Name, b: nat, k: nat) {
    b < |c.f| && p in c.live &&
    (LoadedFrom(c, p, b, k) || (NotStored(c, p, b, k, |c.f[b].body|) && exists v ::
      v in Successors(c.f[b].term) &&
      v in c.live[p]))
  }

  /** The recorded live-in sets cover every block where the slot is live, and no slot is live on entry. */
  ghost predicate LiveOk(c: Form) {
    && c.live.Keys == c.promoted
    && (forall p, b: nat :: p in c.promoted && Reachable(G(c), 0, b) && LiveAt(c, p, b, 0) ==> b in c.live[p])
    && (forall p :: p in c.promoted ==> 0 !in c.live[p])
  }

  lemma LiveBefore(c: Form, p: Name, b: nat, k: nat)
    requires LiveAt(c, p, b, k + 1) && !Stores(c, p, b, k) && k < |c.f[b].body|
    ensures LiveAt(c, p, b, k)
  {
    if LoadedFrom(c, p, b, k + 1) {
      var j :| k + 1 <= j && Loads(c, p, b, j) && NotStored(c, p, b, k + 1, j);
      assert NotStored(c, p, b, k, j);
    } else {
      assert NotStored(c, p, b, k, |c.f[b].body|);
    }
  }

  lemma LiveAtLoad(c: Form, p: Name, b: nat, k: nat)
    requires Loads(c, p, b, k) && p in c.live
    ensures LiveAt(c, p, b, k)
  {
    assert NotStored(c, p, b, k, k);
  }

  lemma SlotsLiveBackwards(c: Form, p: Name)
    requires LiveOk(c) && ValidTargets(c.f) && p in c.promoted
    ensures LiveBackwards(G(c), DefBlocks(c, p), c.live[p])
  {
    forall u: nat, v: nat | Reachable(G(c), 0, u) && Edge(G(c), u, v) && v in c.live[p] && u !in DefBlocks(c, p)
      ensures u in c.live[p]
    {
      assert !StoresIn(c, p, u);
      assert NotStored(c, p, u, 0, |c.f[u].body|);
      assert LiveAt(c, p, u, 0);
    }
  }

  // ---- The value on top of the stack of a slot ----

  /** The value of the last store to `p` before instruction `k`. */
  ghost function LastStore(c: Form, p: Name, b: nat, k: nat): Option<Operand> {
    if k == 0 || b >= |c.f| || k > |c.f[b].body| then None
    else if Stores(c, p, b, k - 1) then Some(AccessAt(c, b, k - 1).value)
    else LastStore(c, p, b, k - 1)
  }

  /** What a slot holds on entry to `b`: its phi, or what its immediate dominator leaves. */
  ghost function TopIn(c: Form, p: Name, b: nat): Option<Operand>
    decreases Dominators(G(c), b), 0
  {
    if (p, b) in c.phis then Some(Var(c.phis[(p, b)]))
    else if b == 0 || b >= |c.dom| || c.dom[b] < 0 || !(Dominators(G(c), c.dom[b]) < Dominators(G(c), b)) then None
    else TopOut(c, p, c.dom[b])
  }

  ghost function TopOut(c: Form, p: Name, b: nat): Option<Operand>
    decreases Dominators(G(c), b), 1
  {
    if b >= |c.f| then None
    else match LastStore(c, p, b, |c.f[b].body|)
      case Some(v) => Some(v)
      case None => TopIn(c, p, b)
  }

  ghost function TopAt(c: Form, p: Name, b: nat, k: nat): Option<Operand> {
    match LastStore(c, p, b, k)
    case Some(v) => Some(v)
    case None => TopIn(c, p, b)
  }

  // ---- Availability of values ----

  /** A definition at `s` reaches position `k` of `b` on every path. */
  ghost predicate SiteReaches(c: Form, s: Site, b: nat, k: nat) {
    if s.0 == b then s.1 <= k else Dominates(G(c), 0, s.0, b)
  }

  ghost predicate Avail(c: Form, o: Operand, b: nat, k: nat) {
    o.Var? ==> o.name in c.sites && SiteReaches(c, c.sites[o.name], b, k)
  }

  /** The SSA facts about the ordinary variables, and the freshness of the phi names. */
  ghost predicate SsaOk(c: Form) {
    && ValidTargets(c.f) && EntryHasNoPredecessor(c.f) && IsDomTree(G(c), c.dom)
    && (forall b :: 0 <= b < |c.f| ==> c.f[b].phis == [])
    && (forall b: nat, k: nat :: InBody(c, b, k) ==> TargetOk(c, b, k))
    && (forall b: nat, k: nat :: Reachable(G(c), 0, b) && InBody(c, b, k) ==> UsesOk(c, b, k))
    && (forall b: nat, j: nat :: Reachable(G(c), 0, b) && b < |c.f| && j < |TermUses(c.f[b].term)| ==>
         Avail(c, TermUses(c.f[b].term)[j], b, |c.f[b].body|))
    && (forall p, b: nat :: (p, b) in c.phis ==> PhiOk(c, p, b))
    && (forall p, b: nat, q, d: nat :: (p, b) in c.phis && (q, d) in c.phis && c.phis[(p, b)] == c.phis[(q, d)] ==>
      p == q && b == d)
    && (forall x :: x in c.sites ==> x !in c.promoted && Genuine(c, x))
  }

  /** A variable with a site is a parameter, a phi result, or the target of the instruction there. */
  ghost predicate Genuine(c: Form, x: Name) {
    x in c.sites &&
    var s := c.sites[x];
    if s.1 == 0 then s.0 == 0 || (exists p :: (p, s.0) in c.phis && c.phis[(p, s.0)] == x)
    else InBody(c, s.0, s.1 - 1) && Target(c.f[s.0].body[s.1 - 1]) == Some(x)
  }

  /** Every target but a slot is defined at its own place only. */
  ghost predicate TargetOk(c: Form, b: nat, k: nat)
    requires InBody(c, b, k)
  {
    var t := Target(c.f[b].body[k]);
    t.Some? ==> if t.value in c.promoted then AccessAt(c, b, k).AllocaOf? else
      t.value in c.sites &&
      c.sites[t.value] == (b, k + 1)
  }

  /** A slot is used by its loads and stores only; every other use is dominated by its definition. */
  ghost predicate UsesOk(c: Form, b: nat, k: nat)
    requires InBody(c, b, k)
  {
    match AccessAt(c, b, k)
    case LoadOf(_, _) => true
    case AllocaOf(_) => true
    case StoreTo(_, v) => Avail(c, v, b, k)
    case Other => forall j :: 0 <= j < |Uses(c.f[b].body[k])| ==> Avail(c, Uses(c.f[b].body[k])[j], b, k)
  }

  ghost predicate PhiOk(c: Form, p: Name, b: nat) {
    (p, b) in c.phis && p in c.promoted && 0 < b < |c.f| && c.phis[(p, b)] in c.sites &&
      c.sites[c.phis[(p, b)]] == (b, 0)
  }

  /** The phis of each slot are closed under live frontiers. */
  ghost predicate PlacementOk(c: Form, frontier: seq<set<nat>>) {
    && LiveOk(c) && IsFrontier(G(c), frontier)
    && forall p :: p in c.promoted ==> PhiClosed(frontier, DefBlocks(c, p), c.live[p], PhiBlocks(c, p))
  }

  ghost function PhiBlocks(c: Form, p: Name): set<nat> {
    set b: nat | b < |c.f| && (p, b) in c.phis
  }

  // ---- Values on the stack are available ----

  lemma AvailLater(c: Form, o: Operand, b: nat, k: nat, n: nat)
    requires Avail(c, o, b, k) && k <= n
    ensures Avail(c, o, b, n)
  {
  }

  /** What is available at the end of the immediate dominator is available at the start of a block. */
  lemma AvailBelow(c: Form, o: Operand, b: nat, k: nat)
    requires IsDomTree(G(c), c.dom) && 0 < b < |c.f| && Reachable(G(c), 0, b) && c.dom[b] >= 0 &&
        Avail(c, o, c.dom[b], k)
    ensures Avail(c, o, b, 0)
  {
    if o.Var? {
      var s, z := c.sites[o.name], c.dom[b];
      assert Dominates(G(c), 0, z, b);
      if s.0 != z {
        DominatesTrans(G(c), s.0, z, b);
        if s.0 == b {
          IdomHasFewer(G(c), z, b);
          DominatesAntisymmetric(G(c), b, z);
        }
      } else {
        StrictNotBelow(G(c), z, b);
      }
    }
  }

  lemma StoredAvail(c: Form, p: Name, b: nat, k: nat)
    requires SsaOk(c) && Reachable(G(c), 0, b) && LastStore(c, p, b, k).Some?
    ensures Avail(c, LastStore(c, p, b, k).value, b, k)
  {
    if Stores(c, p, b, k - 1) {
      assert UsesOk(c, b, k - 1);
    } else {
      StoredAvail(c, p, b, k - 1);
    }
  }

  lemma {:induction false} TopInAvail(c: Form, p: Name, b: nat)
    requires SsaOk(c) && Reachable(G(c), 0, b) && b < |c.f| && TopIn(c, p, b).Some?
    ensures Avail(c, TopIn(c, p, b).value, b, 0)
    decreases Dominators(G(c), b)
  {
    if (p, b) in c.phis {
      assert PhiOk(c, p, b);
    } else {
      hide Avail;
      var z: nat := c.dom[b];
      IdomHasFewer(G(c), z, b);
      var n := |c.f[z].body|;
      if LastStore(c, p, z, n).Some? {
        StoredAvail(c, p, z, n);
        AvailBelow(c, TopIn(c, p, b).value, b, n);
      } else {
        TopInAvail(c, p, z);
        AvailBelow(c, TopIn(c, p, b).value, b, 0);
      }
    }
  }

  lemma TopAvail(c: Form, p: Name, b: nat, k: nat)
    requires SsaOk(c) && Reachable(G(c), 0, b) && b < |c.f| && TopAt(c, p, b, k).Some?
    ensures Avail(c, TopAt(c, p, b, k).value, b, k)
  {
    if LastStore(c, p, b, k).Some? {
      StoredAvail(c, p, b, k);
    } else {
      TopInAvail(c, p, b);
      AvailLater(c, TopAt(c, p, b, k).value, b, 0, k);
    }
  }

  // ---- Resolution of replaced loads ----

  /** The place of the load that defines `o`, if it is one. */
  ghost predicate IsLoad(c: Form, o: Operand) {
    o.Var? && o.name in c.sites && c.sites[o.name].1 > 0 &&
    var b, k := c.sites[o.name].0, c.sites[o.name].1 - 1;
    InBody(c, b, k) && AccessAt(c, b, k).LoadOf? && AccessAt(c, b, k).result == o.name
  }

  ghost function ReplacementOf(c: Form, o: Operand): Option<Operand>
    requires IsLoad(c, o)
  {
    var b, k := c.sites[o.name].0, c.sites[o.name].1 - 1;
    TopAt(c, AccessAt(c, b, k).slot, b, k)
  }

  ghost function SiteOf(c: Form, o: Operand): Site {
    if o.Var? && o.name in c.sites then c.sites[o.name] else (0, 0)
  }

  /** The definition of `o` lies before that of `x`. */
  ghost predicate Earlier(c: Form, o: Operand, x: Operand) {
    var s, t := SiteOf(c, o), SiteOf(c, x);
    Dominators(G(c), s.0) < Dominators(G(c), t.0) || (s.0 == t.0 && s.1 < t.1)
  }

  /** The end of the chain of replacements. */
  ghost function Final(c: Form, o: Operand): Operand
    decreases Dominators(G(c), SiteOf(c, o).0), SiteOf(c, o).1
  {
    if !IsLoad(c, o) then o
    else match ReplacementOf(c, o)
      case None => o
      case Some(t) => if Earlier(c, t, o) then Final(c, t) else o
  }

  /** The replacement of a load is defined earlier, so chains of replacements end. */
  lemma ReplacementEarlier(c: Form, o: Operand)
    requires SsaOk(c) && IsLoad(c, o) && Reachable(G(c), 0, SiteOf(c, o).0) && ReplacementOf(c, o).Some?
    ensures Earlier(c, ReplacementOf(c, o).value, o)
    ensures Avail(c, ReplacementOf(c, o).value, SiteOf(c, o).0, SiteOf(c, o).1 - 1)
  {
    var b, k := c.sites[o.name].0, c.sites[o.name].1 - 1;
    var t := ReplacementOf(c, o).value;
    TopAvail(c, AccessAt(c, b, k).slot, b, k);
    if SiteOf(c, t).0 != b {
      if !t.Var? || t.name !in c.sites {
        RootDominates(G(c), b);
      }
      FewerDominators(c, SiteOf(c, t).0, b);
    }
  }

  lemma FewerDominators(c: Form, d: nat, b: nat)
    requires IsDomTree(G(c), c.dom) && Reachable(G(c), 0, b) && b < |c.f| && d != b && Dominates(G(c), 0, d, b)
    ensures Dominators(G(c), d) < Dominators(G(c), b)
  {
    var g := G(c);
    forall x | x in Dominators(g, d)
      ensures x in Dominators(g, b)
    {
      DominatesTrans(g, x, d, b);
    }
    DominatesItself(g, b);
    if Dominates(g, 0, b, d) {
      DominatesAntisymmetric(g, b, d);
    }
    assert b in Dominators(g, b) && b !in Dominators(g, d);
  }

  /** Being available carries over from a definition to everything it is available at. */
  lemma AvailThrough(c: Form, t: Operand, o: Operand, b: nat, k: nat)
    requires SsaOk(c) && Reachable(G(c), 0, b) && b < |c.f|
    requires o.Var? && Avail(c, o, b, k) && SiteOf(c, o).1 > 0 && Avail(c, t, SiteOf(c, o).0, SiteOf(c, o).1 - 1)
    ensures Avail(c, t, b, k) && Reachable(G(c), 0, SiteOf(c, o).0) && SiteOf(c, o).0 < |c.f|
  {
    var s := SiteOf(c, o);
    var g := G(c);
    if s.0 != b {
      DominatorReachable(g, s.0, b);
      if t.Var? {
        var u := SiteOf(c, t);
        if u.0 == b {
          DominatesAntisymmetric(g, b, s.0);
        } else if u.0 != s.0 {
          DominatesTrans(g, u.0, s.0, b);
        }
      }
    }
  }

  /** The final value of an available operand is available, and it is no replaced load. */
  lemma {:induction false} FinalAvail(c: Form, o: Operand, b: nat, k: nat)
    requires SsaOk(c) && Reachable(G(c), 0, b) && b < |c.f| && Avail(c, o, b, k)
    ensures Avail(c, Final(c, o), b, k)
    ensures IsLoad(c, Final(c, o)) ==> ReplacementOf(c, Final(c, o)).None?
    decreases Dominators(G(c), SiteOf(c, o).0), SiteOf(c, o).1
  {
    hide SsaOk, Avail, TopAt;
    if IsLoad(c, o) && ReplacementOf(c, o).Some? {
      SiteReachable(c, o, b, k);
      ReplacementEarlier(c, o);
      AvailThrough(c, ReplacementOf(c, o).value, o, b, k);
      FinalAvail(c, ReplacementOf(c, o).value, b, k);
    }
  }

  lemma SiteReachable(c: Form, o: Operand, b: nat, k: nat)
    requires Reachable(G(c), 0, b) && b < |c.f| && o.Var? && Avail(c, o, b, k)
    ensures Reachable(G(c), 0, SiteOf(c, o).0) && SiteOf(c, o).0 < |c.f|
  {
    if SiteOf(c, o).0 != b {
      DominatorReachable(G(c), SiteOf(c, o).0, b);
    }
  }

  // ---- Each live slot has one value ----

  /** From the last visit of `z` on. */
  lemma {:induction false} AfterLast(g: Graph, p: seq<nat>, z: nat) returns (q: seq<nat>)
    requires IsPath(g, p) && z in p && p[|p| - 1] != z
    ensures IsPath(g, q) && q[|q| - 1] == p[|p| - 1] && z !in q && Edge(g, z, q[0])
    decreases |p|
  {
    var rest := p[1..];
    SubPath(g, p, 1, |p| - 1);
    assert p[1..|p| - 1 + 1] == rest;
    if z in rest {
      q := AfterLast(g, rest, z);
    } else {
      q := rest;
      assert p[0] == z;
      assert Edge(g, p[0], p[1]);
    }
  }

  /** What `NoDefinitionBetween` needs for one slot at one block. */
  ghost predicate Watched(c: Form, frontier: seq<set<nat>>, p: Name, b: nat) {
    && SsaOk(c) && PlacementOk(c, frontier) && p in c.promoted
    && 0 < b < |c.f| && Reachable(G(c), 0, b) && b in c.live[p] && (p, b) !in c.phis
  }

  lemma NothingStoredBetween(c: Form, frontier: seq<set<nat>>, p: Name, b: nat, q: seq<nat>)
    requires Watched(c, frontier, p, b) && c.dom[b] >= 0
    requires IsPath(G(c), q) && q[|q| - 1] == b && c.dom[b] !in q && Reachable(G(c), 0, q[0])
    ensures forall i :: 0 <= i < |q| - 1 ==> q[i] !in DefBlocks(c, p) && (p, q[i]) !in c.phis
    ensures forall i :: 1 <= i < |q| ==> q[i] in c.live[p]
  {
    SlotsLiveBackwards(c, p);
    assert RootHasNoPredecessor(G(c)) by {
      forall u: nat
        ensures !Edge(G(c), u, 0)
      {
        assert u < |c.f| ==> 0 !in Successors(c.f[u].term);
      }
    }
    NoDefinitionBetween(G(c), frontier, DefBlocks(c, p), c.live[p], PhiBlocks(c, p), c.dom[b], b, q);
    forall i | 0 <= i < |q| - 1
      ensures (p, q[i]) !in c.phis
    {
      assert q[i] !in PhiBlocks(c, p);
    }
  }

  lemma {:induction false} NoStoreNoTop(c: Form, p: Name, b: nat, k: nat)
    requires b < |c.f| && b !in DefBlocks(c, p) && k <= |c.f[b].body|
    ensures LastStore(c, p, b, k).None?
  {
    if k > 0 {
      assert !StoresIn(c, p, b);
      NoStoreNoTop(c, p, b, k - 1);
    }
  }

  /** A slot that is live somewhere holds a value there: it was stored on every path. */
  lemma {:induction false} LiveHasTop(c: Form, frontier: seq<set<nat>>, p: Name, b: nat)
    requires SsaOk(c) && PlacementOk(c, frontier) && p in c.promoted && b < |c.f| && Reachable(G(c), 0, b) &&
        b in c.live[p]
    ensures TopIn(c, p, b).Some?
    decreases Dominators(G(c), b)
  {
    if (p, b) !in c.phis {
      assert b != 0;
      var z: nat := c.dom[b];
      IdomHasFewer(G(c), z, b);
      var n := |c.f[z].body|;
      if LastStore(c, p, z, n).None? {
        var path: seq<nat> :| PathFromTo(G(c), 0, b, path);
        assert StrictlyDominates(G(c), 0, z, b);
        var q := AfterLast(G(c), path, z);
        SuccessorReachable(G(c), z, q[0]);
        NothingStoredBetween(c, frontier, p, b, q);
        SlotsLiveBackwards(c, p);
        assert q[0] in c.live[p] by {
          if |q| > 1 {
            assert Edge(G(c), q[0], q[1]);
          }
        }
        StoreGivesTop(c, p, z, n);
        LiveHasTop(c, frontier, p, z);
      }
    }
  }

  lemma {:induction false} StoreGivesTop(c: Form, p: Name, b: nat, k: nat)
    requires b < |c.f| && k <= |c.f[b].body| && LastStore(c, p, b, k).None?
    ensures forall j :: 0 <= j < k ==> !Stores(c, p, b, j)
    ensures k == |c.f[b].body| ==> b !in DefBlocks(c, p)
  {
    if k > 0 {
      StoreGivesTop(c, p, b, k - 1);
    }
  }

  /** A path into `w` that avoids a dominator `y` of `w` meets nothing strictly above `y`. */
  lemma AvoidsAbove(g: Graph, z: nat, y: nat, w: nat, r: seq<nat>)
    requires Dominates(g, 0, y, w) && StrictlyDominates(g, 0, z, y) && Reachable(g, 0, z)
    requires IsPath(g, r) && r[|r| - 1] == w && y !in r
    ensures z !in r
  {
    if z in r {
      var i :| 0 <= i < |r| && r[i] == z;
      if Dominates(g, 0, y, z) {
        DominatesAntisymmetric(g, z, y);
      }
      var s: seq<nat> :| PathFromTo(g, 0, z, s) && y !in s;
      SubPath(g, r, i, |r| - 1);
      var t: seq<nat> := r[i..|r| - 1 + 1];
      assert y !in s + t[1..];
      JoinPaths(g, 0, z, w, s, t);
    }
  }

  /** A path from the immediate dominator of `w` to `w` that avoids everything strictly above it. */
  lemma PathDown(g: Graph, z: nat, y: nat, w: nat) returns (q: seq<nat>)
    requires IsIdom(g, 0, y, w) && Reachable(g, 0, w) && StrictlyDominates(g, 0, z, y)
    ensures IsPath(g, q) && q[0] == y && q[|q| - 1] == w && z !in q && |q| > 1
  {
    var p: seq<nat> :| PathFromTo(g, 0, w, p);
    assert StrictlyDominates(g, 0, y, w);
    var r := AfterLast(g, p, y);
    DominatorReachable(g, y, w);
    DominatorReachable(g, z, y);
    AvoidsAbove(g, z, y, w, r);
    q := [y] + r;
    forall i | 0 <= i < |q| - 1
      ensures Edge(g, q[i], q[i + 1])
    {
      assert i > 0 ==> Edge(g, r[i - 1], r[i]);
    }
  }

  /** Below the immediate dominator of `b`, on the way to `b`, the slot keeps the value that the dominator left. */
  lemma {:induction false} SameTopOnTheWay(c: Form, frontier: seq<set<nat>>, p: Name, b: nat, q: seq<nat>)
    requires Watched(c, frontier, p, b)
    requires IsPath(G(c), q) && |q| > 1 && q[|q| - 1] == b && c.dom[b] !in q && Reachable(G(c), 0, q[0])
    ensures TopOut(c, p, q[0]) == TopOut(c, p, c.dom[b])
    decreases Dominators(G(c), q[0])
  {
    var g, z, w := G(c), c.dom[b], q[0];
    NothingStoredBetween(c, frontier, p, b, q);
    BelowIdom(g, z, b, q);
    NoStoreNoTop(c, p, w, |c.f[w].body|);
    OnlyRootDominatesRoot(g, z);
    var y: nat := c.dom[w];
    IdomHasFewer(g, y, w);
    assert TopOut(c, p, w) == TopOut(c, p, y);
    if y != z {
      assert StrictlyDominates(g, 0, z, y);
      var r := PathDown(g, z, y, w);
      var s: seq<nat> := r + q[1..];
      JoinPaths(g, y, w, b, r, q);
      assert z !in s;
      SameTopOnTheWay(c, frontier, p, b, s);
    }
  }

  /** On every edge into a block without a phi, a live slot has the same value as at the immediate dominator. */
  lemma EdgeTop(c: Form, frontier: seq<set<nat>>, p: Name, u: nat, b: nat)
    requires Watched(c, frontier, p, b) && Edge(G(c), u, b) && Reachable(G(c), 0, u)
    ensures c.dom[b] >= 0 && TopIn(c, p, b) == TopOut(c, p, c.dom[b]) == TopOut(c, p, u)
  {
    var z: nat := c.dom[b];
    IdomHasFewer(G(c), z, b);
    if u != z {
      assert IsPath(G(c), [u, b]);
      SameTopOnTheWay(c, frontier, p, b, [u, b]);
    }
  }
}
