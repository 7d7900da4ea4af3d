/** What promotion leaves: SSA form without the promoted slots, and phis exactly where definitions of a slot meet. */
module PromotedForms {
  import opened Graphs
  import opened IR
  import opened DominanceFrontiers
  import opened SsaForms
  import opened PromotionRuns
  import opened SlotLivenessAnalysis
  import opened SsaProperties

  // ---- The control flow and the slots ----

  predicate SameEdges(f: Func, r: Func) {
    |r| == |f| && forall b: nat :: b < |f| ==> Successors(r[b].term) == Successors(f[b].term)
  }

  lemma SameFlow(f: Func, r: Func)
    requires SameEdges(f, r)
    ensures Flow(r) == Flow(f)
  {
  }

  /** None of the names is left as a result or an operand. */
  ghost predicate NoneLeftOf(r: Func, slots: set<Name>) {
    && (forall b: nat, s: nat, x :: InRun(r, b) && ResultAt(r[b], s, x) ==> x !in slots)
    && (forall b: nat, k: nat, j: nat :: InRun(r, b) && k < |r[b].body| && j < |Uses(r[b].body[k])| ==>
      NoSlot(Uses(r[b].body[k])[j], slots))
    && (forall b: nat, j: nat :: InRun(r, b) && j < |TermUses(r[b].term)| ==> NoSlot(TermUses(r[b].term)[j], slots))
    && (forall b: nat, i: nat, j: nat :: InRun(r, b) && i < |r[b].phis| && j < |r[b].phis[i].args| ==>
      NoSlot(r[b].phis[i].args[j].0, slots))
  }

  predicate NoSlot(o: Operand, slots: set<Name>) {
    o.Var? ==> o.name !in slots
  }

  // ---- The instructions that stay ----

  /** How many of the first `k` instructions of `b` are no accesses to promoted slots. */
  ghost function Rank(c: Form, b: nat, k: nat): nat
    requires b < |c.f| && k <= |c.f[b].body|
  {
    if k == 0 then 0 else Rank(c, b, k - 1) + if AccessAt(c, b, k - 1).Other? then 1 else 0
  }

  lemma {:induction false} RankGrows(c: Form, b: nat, k: nat, n: nat)
    requires b < |c.f| && k < n <= |c.f[b].body|
    ensures Rank(c, b, k) <= Rank(c, b, n)
    ensures AccessAt(c, b, k).Other? ==> Rank(c, b, k) < Rank(c, b, n)
    decreases n
  {
    hide AccessAt;
    if k < n - 1 {
      RankGrows(c, b, k, n - 1);
    }
  }

  /** Where instruction `m` is found among those kept from `k` on. */
  lemma {:induction false} KeptPlace(c: Form, b: nat, k: nat, m: nat)
    requires b < |c.f| && k <= m < |c.f[b].body| && AccessAt(c, b, m).Other?
    ensures Rank(c, b, k) <= Rank(c, b, m) && Rank(c, b, m) - Rank(c, b, k) < |KeptFrom(c, b, k)|
    ensures KeptFrom(c, b, k)[Rank(c, b, m) - Rank(c, b, k)] == MapUses(c.f[b].body[m], Resolve(c))
    decreases m - k
  {
    hide AccessAt, MapUses, KeptFrom, Rank;
    KeptUnfold(c, b, k);
    if k < m {
      RankGrows(c, b, k, m);
      KeptPlace(c, b, k + 1, m);
    }
  }

  lemma KeptUnfold(c: Form, b: nat, k: nat)
    requires b < |c.f| && k < |c.f[b].body|
    ensures Rank(c, b, k + 1) == Rank(c, b, k) + if AccessAt(c, b, k).Other? then 1 else 0
    ensures AccessAt(c, b, k).Other? ==>
        KeptFrom(c, b, k) == [MapUses(c.f[b].body[k], Resolve(c))] + KeptFrom(c, b, k + 1)
    ensures !AccessAt(c, b, k).Other? ==> KeptFrom(c, b, k) == KeptFrom(c, b, k + 1)
  {
    hide AccessAt, MapUses;
  }

  /** What the `j`-th of the kept instructions was. */
  lemma {:induction false} KeptOrigin(c: Form, b: nat, k: nat, j: nat) returns (m: nat)
    requires b < |c.f| && k <= |c.f[b].body| && j < |KeptFrom(c, b, k)|
    ensures k <= m < |c.f[b].body| && AccessAt(c, b, m).Other? && Rank(c, b, m) == Rank(c, b, k) + j
    ensures KeptFrom(c, b, k)[j] == MapUses(c.f[b].body[m], Resolve(c))
    decreases |c.f[b].body| - k
  {
    hide AccessAt, MapUses;
    assert Rank(c, b, k + 1) == Rank(c, b, k) + if AccessAt(c, b, k).Other? then 1 else 0;
    if AccessAt(c, b, k).Other? && j == 0 {
      m := k;
    } else {
      m := KeptOrigin(c, b, k + 1, if AccessAt(c, b, k).Other? then j - 1 else j);
    }
  }

  lemma {:induction false} KeptCount(c: Form, b: nat, k: nat)
    requires b < |c.f| && k <= |c.f[b].body|
    ensures Rank(c, b, |c.f[b].body|) == Rank(c, b, k) + |KeptFrom(c, b, k)|
    decreases |c.f[b].body| - k
  {
    hide AccessAt, MapUses;
    if k < |c.f[b].body| {
      KeptCount(c, b, k + 1);
      assert Rank(c, b, k + 1) == Rank(c, b, k) + if AccessAt(c, b, k).Other? then 1 else 0;
    }
  }

  /** A kept instruction in the result. */
  lemma KeptAt(c: Form, r: Func, b: nat, j: nat) returns (m: nat)
    requires Promoted(c, r) && b < |c.f| && Reachable(G(c), 0, b) && j < |r[b].body|
    ensures InBody(c, b, m) && AccessAt(c, b, m).Other? && Rank(c, b, m) == j
    ensures r[b].body[j] == MapUses(c.f[b].body[m], Resolve(c))
  {
    assert BlockPromoted(c, r[b], b);
    m := KeptOrigin(c, b, 0, j);
  }

  /** Mapping operands leaves the target and maps each use. */
  lemma MappedInstr(i: Instr, h: Operand -> Operand)
    ensures Target(MapUses(i, h)) == Target(i)
    ensures |Uses(MapUses(i, h))| == |Uses(i)| &&
        forall j :: 0 <= j < |Uses(i)| ==> Uses(MapUses(i, h))[j] == h(Uses(i)[j])
  {
  }

  // ---- Where a result comes from ----

  /** The definition of a result: its phi, or the instruction that was kept. */
  ghost predicate ComesFrom(c: Form, blk: Block, b: nat, s: nat, x: Name) {
    && b < |c.f| && x in c.sites && c.sites[x].0 == b && x !in c.promoted
    && (s < |blk.phis| ==> c.sites[x].1 == 0 && b > 0)
    && (s >= |blk.phis| ==>
      0 < c.sites[x].1 <= |c.f[b].body| && Rank(c, b, c.sites[x].1 - 1) == s - |blk.phis| &&
      AccessAt(c, b, c.sites[x].1 - 1).Other?)
  }

  lemma PhiOrigin(c: Form, r: Func, b: nat, s: nat)
    requires SsaOk(c) && Promoted(c, r) && b < |c.f| && Reachable(G(c), 0, b) && s < |r[b].phis|
    ensures ComesFrom(c, r[b], b, s, r[b].phis[s].result)
  {
    assert BlockPromoted(c, r[b], b);
    assert IsPhiRight(c, r[b].phis[s], b);
    hide Promoted, Reachable;
    var p :| PhiRight(c, r[b].phis[s], p, b);
    assert PhiOk(c, p, b);
  }

  lemma ResultOrigin(c: Form, r: Func, b: nat, s: nat, x: Name)
    requires SsaOk(c) && Promoted(c, r) && b < |c.f| && Reachable(G(c), 0, b) && ResultAt(r[b], s, x)
    ensures ComesFrom(c, r[b], b, s, x)
  {
    if s < |r[b].phis| {
      PhiOrigin(c, r, b, s);
    } else {
      hide Promoted, Reachable, KeptFrom, PhisRight, Final;
      var m := KeptAt(c, r, b, s - |r[b].phis|);
      MappedInstr(c.f[b].body[m], Resolve(c));
      assert TargetOk(c, b, m);
      SiteNoSlot(c, x);
    }
  }

  /** The first main result: names in the blocks that a path leads to are defined once. */
  lemma ResultsUnique(c: Form, r: Func, params: iset<Name>)
    requires SsaOk(c) && Promoted(c, r) && SameEdges(c.f, r)
    requires forall x :: x in params ==> x in c.sites ==> c.sites[x] == (0, 0)
    ensures UniqueResults(r, params)
  {
    hide SsaOk, Promoted, Reachable, ResultAt, ComesFrom;
    SameFlow(c.f, r);
    forall b: nat, d: nat, s: nat, t: nat, x |
      InRun(r, b) && InRun(r, d) && ResultAt(r[b], s, x) && ResultAt(r[d], t, x)
      ensures b == d && s == t
    {
      ResultOrigin(c, r, b, s, x);
      ResultOrigin(c, r, d, t, x);
      OneOrigin(c, r, b, d, s, t, x);
    }
    forall b: nat, s: nat, x | InRun(r, b) && ResultAt(r[b], s, x)
      ensures x !in params
    {
      ResultOrigin(c, r, b, s, x);
      OriginNoParam(c, r[b], b, s, x);
    }
  }

  lemma OriginNoParam(c: Form, blk: Block, b: nat, s: nat, x: Name)
    requires ComesFrom(c, blk, b, s, x)
    ensures x in c.sites && c.sites[x] != (0, 0)
  {
  }

  lemma OneOrigin(c: Form, r: Func, b: nat, d: nat, s: nat, t: nat, x: Name)
    requires Promoted(c, r) && b < |c.f| && d < |c.f| && Reachable(G(c), 0, b)
    requires ComesFrom(c, r[b], b, s, x) && ComesFrom(c, r[d], d, t, x)
    requires ResultAt(r[b], s, x) && ResultAt(r[d], t, x)
    ensures b == d && s == t
  {
    assert BlockPromoted(c, r[b], b);
  }

  /** The definition of an available value that is no load stands in the result. */
  lemma DefinitionKept(c: Form, r: Func, x: Name, n: nat)
    requires SsaOk(c) && Promoted(c, r) && x in c.sites && !IsLoad(c, Var(x))
    requires c.sites[x].0 < |c.f| && Reachable(G(c), 0, c.sites[x].0) && c.sites[x].1 <= n <= |c.f[c.sites[x].0].body|
    ensures c.sites[x] == (0, 0) || DefinedBefore(r[c.sites[x].0], x, Rank(c, c.sites[x].0, n))
  {
    var b, k := c.sites[x].0, c.sites[x].1;
    assert Genuine(c, x);
    SiteNoSlot(c, x);
    hide SsaOk, Promoted, Reachable;
    if k > 0 {
      assert AccessAt(c, b, k - 1).Other?;
      KeptAsResult(c, r, b, k - 1);
      RankGrows(c, b, k - 1, n);
    } else if b > 0 {
      var p :| (p, b) in c.phis && c.phis[(p, b)] == x;
      PhiIsThere(c, r, p, b);
      var i: nat :| i < |r[b].phis| && r[b].phis[i].result == x;
      assert ResultAt(r[b], i, x);
    }
  }

  lemma SiteNoSlot(c: Form, x: Name)
    requires SsaOk(c) && x in c.sites
    ensures x !in c.promoted
  {
  }

  /** The target of a kept instruction is a result. */
  lemma KeptAsResult(c: Form, r: Func, b: nat, m: nat)
    requires Promoted(c, r) && b < |c.f| && Reachable(G(c), 0, b) && InBody(c, b, m) && AccessAt(c, b, m).Other?
    requires Target(c.f[b].body[m]).Some?
    ensures b < |r| && ResultAt(r[b], |r[b].phis| + Rank(c, b, m), Target(c.f[b].body[m]).value)
  {
    assert BlockPromoted(c, r[b], b);
    KeptPlace(c, b, 0, m);
    MappedInstr(c.f[b].body[m], Resolve(c));
  }

  lemma PhiIsThere(c: Form, r: Func, p: Name, b: nat)
    requires Promoted(c, r) && b < |c.f| && Reachable(G(c), 0, b) && (p, b) in c.phis
    ensures b < |r| && HasPhi(r[b], c.phis[(p, b)])
  {
    assert BlockPromoted(c, r[b], b);
  }

  predicate HasPhi(blk: Block, x: Name) {
    exists i: nat :: i < |blk.phis| && blk.phis[i].result == x
  }

  /** The resolution of an available operand is available in the result, and it is no slot. */
  lemma ResolvedDominated(c: Form, frontier: seq<set<nat>>, r: Func, params: iset<Name>, o: Operand, b: nat, k: nat)
    requires SsaOk(c) && PlacementOk(c, frontier) && Promoted(c, r) && SameEdges(c.f, r)
    requires forall x :: x in c.sites && c.sites[x] == (0, 0) ==> x in params
    requires b < |c.f| && Reachable(G(c), 0, b) && k <= |c.f[b].body| && Avail(c, o, b, k)
    ensures Dominated(r, params, Final(c, o), b, Rank(c, b, k)) && NoSlot(Final(c, o), c.promoted)
  {
    hide SsaOk, PlacementOk, Promoted, Final, Reachable, Genuine;
    SameFlow(c.f, r);
    FinalAvail(c, o, b, k);
    var t := Final(c, o);
    FinalNoLoad(c, frontier, o, b, k);
    if t.Var? {
      SiteNoSlot(c, t.name);
      SiteReachable(c, t, b, k);
      var d := c.sites[t.name].0;
      assert Reachable(G(c), 0, d) && d < |c.f|;
      if d == b {
        DefinitionKept(c, r, t.name, k);
      } else {
        SiteInBlock(c, t.name);
        DefinitionKept(c, r, t.name, |c.f[d].body|);
        KeptAll(c, r, d);
        assert c.sites[t.name] != (0, 0) ==> DefinedAbove(r, t.name, d, b);
      }
    }
  }

  lemma KeptAll(c: Form, r: Func, d: nat)
    requires Promoted(c, r) && d < |c.f| && Reachable(G(c), 0, d)
    ensures d < |r| && |r[d].body| == Rank(c, d, |c.f[d].body|)
  {
    assert BlockPromoted(c, r[d], d);
    KeptCount(c, d, 0);
  }

  lemma SiteInBlock(c: Form, x: Name)
    requires SsaOk(c) && x in c.sites && c.sites[x].0 < |c.f|
    ensures c.sites[x].1 <= |c.f[c.sites[x].0].body|
  {
    assert Genuine(c, x);
  }

  lemma {:induction false} LiveBackTo(c: Form, p: Name, b: nat, k: nat)
    requires b < |c.f| && k <= |c.f[b].body| && LiveAt(c, p, b, k) && LastStore(c, p, b, k).None?
    ensures LiveAt(c, p, b, 0)
  {
    if k > 0 {
      LiveBefore(c, p, b, k - 1);
      LiveBackTo(c, p, b, k - 1);
    }
  }

  /** Every load of a reachable block finds a value. */
  lemma LoadHasTop(c: Form, frontier: seq<set<nat>>, p: Name, b: nat, k: nat)
    requires SsaOk(c) && PlacementOk(c, frontier) && p in c.promoted && Loads(c, p, b, k) && Reachable(G(c), 0, b)
    ensures TopAt(c, p, b, k).Some?
  {
    if LastStore(c, p, b, k).None? {
      LiveAtLoad(c, p, b, k);
      LiveBackTo(c, p, b, k);
      LiveHasTop(c, frontier, p, b);
    }
  }

  lemma FinalNoLoad(c: Form, frontier: seq<set<nat>>, o: Operand, b: nat, k: nat)
    requires SsaOk(c) && PlacementOk(c, frontier) && b < |c.f| && Reachable(G(c), 0, b) && Avail(c, o, b, k)
    ensures !IsLoad(c, Final(c, o))
  {
    hide SsaOk, PlacementOk, Final, Reachable;
    FinalAvail(c, o, b, k);
    var t := Final(c, o);
    if IsLoad(c, t) {
      SiteReachable(c, t, b, k);
      var d, j := c.sites[t.name].0, c.sites[t.name].1 - 1;
      LoadHasTop(c, frontier, AccessAt(c, d, j).slot, d, j);
    }
  }

  /** What the proofs about the result start from. */
  ghost predicate Resulting(c: Form, frontier: seq<set<nat>>, r: Func, params: iset<Name>) {
    && SsaOk(c) && PlacementOk(c, frontier) && Promoted(c, r) && SameEdges(c.f, r)
    && forall x :: x in c.sites ==> (c.sites[x] == (0, 0) <==> x in params)
  }

  lemma BodyUse(c: Form, frontier: seq<set<nat>>, r: Func, params: iset<Name>, b: nat, k: nat, j: nat)
    requires Resulting(c, frontier, r, params) && InRun(r, b) && k < |r[b].body| && j < |Uses(r[b].body[k])|
    ensures Dominated(r, params, Uses(r[b].body[k])[j], b, k) && NoSlot(Uses(r[b].body[k])[j], c.promoted)
  {
    hide PlacementOk, Promoted, Final, Reachable, Dominated, Avail;
    SameFlow(c.f, r);
    var m := KeptAt(c, r, b, k);
    MappedInstr(c.f[b].body[m], Resolve(c));
    assert UsesOk(c, b, m);
    hide SsaOk, UsesOk, AccessAt;
    ResolvedDominated(c, frontier, r, params, Uses(c.f[b].body[m])[j], b, m);
  }

  lemma TermUse(c: Form, frontier: seq<set<nat>>, r: Func, params: iset<Name>, b: nat, j: nat)
    requires Resulting(c, frontier, r, params) && InRun(r, b) && j < |TermUses(r[b].term)|
    ensures Dominated(r, params, TermUses(r[b].term)[j], b, |r[b].body|) && NoSlot(TermUses(r[b].term)[j], c.promoted)
  {
    SameFlow(c.f, r);
    assert BlockPromoted(c, r[b], b);
    KeptAll(c, r, b);
    hide PlacementOk, Promoted, Final, Reachable, Dominated, Avail, KeptFrom, PhisRight;
    assert Avail(c, TermUses(c.f[b].term)[j], b, |c.f[b].body|);
    hide SsaOk;
    ResolvedDominated(c, frontier, r, params, TermUses(c.f[b].term)[j], b, |c.f[b].body|);
  }

  lemma PhiUse(c: Form, frontier: seq<set<nat>>, r: Func, params: iset<Name>, b: nat, i: nat, j: nat)
    requires Resulting(c, frontier, r, params) && InRun(r, b) && i < |r[b].phis| && j < |r[b].phis[i].args|
    ensures PhiUseDominated(r, params, r[b].phis[i].args[j], b) && NoSlot(r[b].phis[i].args[j].0, c.promoted)
  {
    SameFlow(c.f, r);
    assert BlockPromoted(c, r[b], b);
    assert IsPhiRight(c, r[b].phis[i], b);
    var p :| PhiRight(c, r[b].phis[i], p, b);
    var u := r[b].phis[i].args[j].1;
    assert ArgRight(c, p, r[b].phis[i].args[j]);
    KeptAll(c, r, u);
    hide PlacementOk, Promoted, Final, Reachable, Dominated, Avail, KeptFrom, PhisRight, SsaOk, TopOut, TopIn;
    var n := |c.f[u].body|;
    TopOutAt(c, p, u);
    TopAvail(c, p, u, n);
    ResolvedDominated(c, frontier, r, params, TopOut(c, p, u).value, u, n);
  }

  lemma TopOutAt(c: Form, p: Name, u: nat)
    requires u < |c.f|
    ensures TopOut(c, p, u) == TopAt(c, p, u, |c.f[u].body|)
  {
  }

  /** The second main result: in the result every use is dominated by its definition, and the slots are gone. */
  lemma UsesAreDominated(c: Form, frontier: seq<set<nat>>, r: Func, params: iset<Name>)
    requires Resulting(c, frontier, r, params)
    ensures UsesDominated(r, params) && NoneLeftOf(r, c.promoted)
  {
    hide Resulting, Dominated, PhiUseDominated, NoSlot, Reachable;
    forall b: nat, k: nat, j: nat | InRun(r, b) && k < |r[b].body| && j < |Uses(r[b].body[k])|
      ensures Dominated(r, params, Uses(r[b].body[k])[j], b, k) && NoSlot(Uses(r[b].body[k])[j], c.promoted)
    {
      BodyUse(c, frontier, r, params, b, k, j);
    }
    forall b: nat, j: nat | InRun(r, b) && j < |TermUses(r[b].term)|
      ensures Dominated(r, params, TermUses(r[b].term)[j], b, |r[b].body|)
      ensures NoSlot(TermUses(r[b].term)[j], c.promoted)
    {
      TermUse(c, frontier, r, params, b, j);
    }
    forall b: nat, i: nat, j: nat | InRun(r, b) && i < |r[b].phis| && j < |r[b].phis[i].args|
      ensures PhiUseDominated(r, params, r[b].phis[i].args[j], b) && NoSlot(r[b].phis[i].args[j].0, c.promoted)
    {
      PhiUse(c, frontier, r, params, b, i, j);
    }
    forall b: nat, s: nat, x | InRun(r, b) && ResultAt(r[b], s, x)
      ensures x !in c.promoted
    {
      ResultNoSlot(c, frontier, r, params, b, s, x);
    }
  }

  lemma ResultNoSlot(c: Form, frontier: seq<set<nat>>, r: Func, params: iset<Name>, b: nat, s: nat, x: Name)
    requires Resulting(c, frontier, r, params) && InRun(r, b) && ResultAt(r[b], s, x)
    ensures x !in c.promoted
  {
    hide SsaOk, PlacementOk, Promoted, Reachable;
    SameFlow(c.f, r);
    ResultOrigin(c, r, b, s, x);
  }

  // ---- Where the phis stand ----

  /** A set of blocks with the meeting points of the blocks that store to `p`, and of its own, where `p` is live. */
  ghost predicate MeetClosed(f: Func, p: Name, live: seq<set<Name>>, s: set<nat>) {
    forall u: nat, v: nat ::
      u < |f| && v < |f| && v < |live| && (StoredIn(f, p, u) || u in s) && Meets(Flow(f), u, v) && p in live[v] ==>
      v in s
  }

  ghost predicate LeastMeets(f: Func, p: Name, live: seq<set<Name>>, s: set<nat>) {
    MeetClosed(f, p, live, s) && forall t: set<nat> :: MeetClosed(f, p, live, t) ==> s <= t
  }

  ghost function NamedBlocks(names: map<(Name, nat), Name>, n: nat, p: Name): set<nat> {
    set b: nat | b < n && (p, b) in names
  }

  /** `names` gives a name of its own to the phi of each slot at each block of the least set for the slot. */
  ghost predicate LeastNames(f: Func, slots: set<Name>, live: seq<set<Name>>, names: map<(Name, nat), Name>) {
    && (forall p, b: nat :: (p, b) in names ==> p in slots && 0 < b < |f|)
    && (forall p, b: nat, q, d: nat :: (p, b) in names && (q, d) in names && names[(p, b)] == names[(q, d)] ==>
      p == q && b == d)
    && (forall p :: p in slots ==> LeastMeets(f, p, live, NamedBlocks(names, |f|, p)))
  }

  /** The phis are the named ones. */
  ghost predicate PhisNamed(r: Func, names: map<(Name, nat), Name>) {
    && (forall b: nat, i: nat :: InRun(r, b) && i < |r[b].phis| ==> PhiNamed(names, r[b].phis[i], b))
    && (forall p, b: nat :: (p, b) in names && InRun(r, b) ==> HasPhi(r[b], names[(p, b)]))
  }

  ghost predicate PhiNamed(names: map<(Name, nat), Name>, phi: Phi, b: nat) {
    exists p :: (p, b) in names && names[(p, b)] == phi.result
  }

  /** A slot holds a value at the end of each block before one where it is live. */
  lemma ValueBefore(c: Form, frontier: seq<set<nat>>, p: Name, u: nat, b: nat)
    requires SsaOk(c) && PlacementOk(c, frontier) && p in c.promoted && b in c.live[p]
    requires u < |c.f| && Reachable(G(c), 0, u) && Edge(G(c), u, b)
    ensures TopOut(c, p, u).Some?
  {
    hide SsaOk, Reachable, TopIn;
    var n := |c.f[u].body|;
    if LastStore(c, p, u, n).None? {
      StoreGivesTop(c, p, u, n);
      ValidTargetsOf(c);
      SlotsLiveBackwards(c, p);
      LiveHasTop(c, frontier, p, u);
    }
  }

  lemma ValidTargetsOf(c: Form)
    requires SsaOk(c)
    ensures ValidTargets(c.f)
  {
  }

  /** The third main result: the phis of the result are the placed ones, and none lacks an operand. */
  lemma PhisAreNamed(c: Form, frontier: seq<set<nat>>, r: Func, params: iset<Name>)
    requires Resulting(c, frontier, r, params)
    requires forall p, b: nat :: (p, b) in c.phis ==> p in c.promoted && b in c.live[p]
    ensures PhisNamed(r, c.phis) && PhisComplete(r)
  {
    EntryWithoutPhis(c, r);
    hide SsaOk, PlacementOk, Promoted, Reachable;
    SameFlow(c.f, r);
    forall b: nat, i: nat | InRun(r, b) && i < |r[b].phis|
      ensures PhiNamed(c.phis, r[b].phis[i], b)
      ensures forall u: nat :: InRun(r, u) && b in Successors(r[u].term) ==> HasArg(r[b].phis[i], u)
    {
      ThisPhiNamed(c, frontier, r, params, b, i);
    }
    forall p, b: nat | (p, b) in c.phis && InRun(r, b)
      ensures HasPhi(r[b], c.phis[(p, b)])
    {
      PhiIsThere(c, r, p, b);
    }
  }

  lemma PhisBelowEntry(c: Form, r: Func, b: nat)
    requires SsaOk(c) && Promoted(c, r) && b < |c.f| && Reachable(G(c), 0, b)
    ensures b < |r| && (r[b].phis != [] ==> b > 0)
  {
    assert BlockPromoted(c, r[b], b);
    hide SsaOk, Promoted, BlockPromoted;
    if r[b].phis != [] {
      PhiOrigin(c, r, b, 0);
    }
  }

  lemma EntryWithoutPhis(c: Form, r: Func)
    requires SsaOk(c) && Promoted(c, r)
    ensures |r| > 0 ==> r[0].phis == []
  {
    if |r| > 0 {
      SinglePath(G(c), 0);
      PhisBelowEntry(c, r, 0);
    }
  }

  lemma ThisPhiNamed(c: Form, frontier: seq<set<nat>>, r: Func, params: iset<Name>, b: nat, i: nat)
    requires Resulting(c, frontier, r, params) && InRun(r, b) && i < |r[b].phis|
    requires forall p, d: nat :: (p, d) in c.phis ==> p in c.promoted && d in c.live[p]
    ensures PhiNamed(c.phis, r[b].phis[i], b)
    ensures forall u: nat :: InRun(r, u) && b in Successors(r[u].term) ==> HasArg(r[b].phis[i], u)
  {
    SameFlow(c.f, r);
    assert BlockPromoted(c, r[b], b);
    assert IsPhiRight(c, r[b].phis[i], b);
    var p :| PhiRight(c, r[b].phis[i], p, b);
    hide SsaOk, PlacementOk, Promoted, Reachable, TopOut;
    forall u: nat | InRun(r, u) && b in Successors(r[u].term)
      ensures HasArg(r[b].phis[i], u)
    {
      assert Edge(G(c), u, b);
      ValueBefore(c, frontier, p, u, b);
    }
  }

  /** Least with respect to the recorded frontiers is least with respect to the meeting points. */
  lemma LeastIsLeast(f: Func, p: Name, promoted: set<Name>, frontier: seq<set<nat>>, defs: set<nat>,
      live: seq<set<Name>>, blocks: set<nat>, s: set<nat>)
    requires |frontier| == |f| == |live| && EntryHasNoPredecessor(f) && LeastPhis(frontier, defs, blocks, s)
    requires forall v: nat, x: nat :: v < |f| && 0 < x < |f| ==> (x in frontier[v] <==> Meets(Flow(f), v, x))
    requires forall v: nat, x: nat :: v < |f| && x in frontier[v] ==> 0 < x < |f|
    requires forall b: nat :: b in defs <==> b < |f| && StoredIn(f, p, b)
    requires forall b: nat :: b in blocks <==> b < |live| && p in live[b]
    ensures LeastMeets(f, p, live, s)
  {
    hide Meets, StoredIn;
    forall v: nat
      ensures !Meets(Flow(f), v, 0)
    {
      NothingMeetsAtEntry(f, v);
    }
    forall t: set<nat>
      ensures PhiClosed(frontier, defs, blocks, t) <==> MeetClosed(f, p, live, t)
    {
      ClosedIsClosed(f, p, frontier, defs, live, blocks, t);
    }
  }

  lemma ClosedIsClosed(f: Func, p: Name, frontier: seq<set<nat>>, defs: set<nat>, live: seq<set<Name>>,
      blocks: set<nat>, t: set<nat>)
    requires |frontier| == |f| == |live| && forall v: nat :: !Meets(Flow(f), v, 0)
    requires forall v: nat, x: nat :: v < |f| && 0 < x < |f| ==> (x in frontier[v] <==> Meets(Flow(f), v, x))
    requires forall v: nat, x: nat :: v < |f| && x in frontier[v] ==> 0 < x < |f|
    requires forall b: nat :: b in defs <==> b < |f| && StoredIn(f, p, b)
    requires forall b: nat :: b in blocks <==> b < |live| && p in live[b]
    ensures PhiClosed(frontier, defs, blocks, t) <==> MeetClosed(f, p, live, t)
  {
    hide Meets, StoredIn;
  }

  lemma NothingMeetsAtEntry(f: Func, v: nat)
    requires EntryHasNoPredecessor(f)
    ensures !Meets(Flow(f), v, 0)
  {
    forall u: nat
      ensures !Edge(Flow(f), u, 0)
    {
      assert u < |f| ==> 0 !in Successors(f[u].term);
    }
  }

  lemma LeastInLive(frontier: seq<set<nat>>, defs: set<nat>, live: set<nat>, phis: set<nat>)
    requires LeastPhis(frontier, defs, live, phis)
    ensures phis <= live
  {
    assert PhiClosed(frontier, defs, live, phis * live);
    assert phis <= phis * live;
  }

  // ---- Nothing else is added or lost ----

  function WithoutAccesses(body: seq<Instr>, slots: set<Name>): seq<Instr> {
    if body == [] then []
    else
      var n := |body| - 1;
      WithoutAccesses(body[..n], slots) + if AccessOf(body[n], slots).Other? then [body[n]] else []
  }

  function Blank(o: Operand): Operand {
    Const(0)
  }

  /** Apart from operands the blocks have the instructions and terminators they had, without the accesses to slots. */
  ghost predicate OnlyAccessesGone(f: Func, r: Func, slots: set<Name>) {
    |r| == |f| && forall b: nat :: InRun(r, b) ==>
        SameButOperands(WithoutAccesses(f[b].body, slots), r[b].body) &&
        MapTermUses(r[b].term, Blank) == MapTermUses(f[b].term, Blank)
  }

  predicate SameButOperands(a: seq<Instr>, b: seq<Instr>) {
    |a| == |b| && forall k :: 0 <= k < |a| ==> MapUses(a[k], Blank) == MapUses(b[k], Blank)
  }

  /** The instruction that is no access and has the given rank. */
  lemma {:induction false} RankedInstr(c: Form, b: nat, k: nat, m: nat)
    requires b < |c.f| && k <= |c.f[b].body|
    ensures |WithoutAccesses(c.f[b].body[..k], c.promoted)| == Rank(c, b, k)
    ensures m < k && AccessAt(c, b, m).Other? ==>
        Rank(c, b, m) < Rank(c, b, k) &&
        WithoutAccesses(c.f[b].body[..k], c.promoted)[Rank(c, b, m)] == c.f[b].body[m]
    decreases k
  {
    hide AccessOf;
    if k > 0 {
      assert c.f[b].body[..k][..k - 1] == c.f[b].body[..k - 1];
      RankedInstr(c, b, k - 1, m);
    }
  }

  lemma BlankedTwice(i: Instr, h: Operand -> Operand)
    ensures MapUses(MapUses(i, h), Blank) == MapUses(i, Blank)
  {
  }

  lemma BlankedTerm(t: Term, h: Operand -> Operand)
    ensures MapTermUses(MapTermUses(t, h), Blank) == MapTermUses(t, Blank)
  {
  }

  lemma AccessesAreGone(c: Form, r: Func)
    requires Promoted(c, r) && SameEdges(c.f, r)
    ensures OnlyAccessesGone(c.f, r, c.promoted)
  {
    hide Reachable, KeptFrom, PhisRight, MapUses, MapTermUses;
    SameFlow(c.f, r);
    forall b: nat | InRun(r, b)
      ensures SameButOperands(WithoutAccesses(c.f[b].body, c.promoted), r[b].body)
      ensures MapTermUses(r[b].term, Blank) == MapTermUses(c.f[b].term, Blank)
    {
      assert BlockPromoted(c, r[b], b);
      BlankedTerm(c.f[b].term, Resolve(c));
      BodyKept(c, r, b);
    }
  }

  lemma BodyKept(c: Form, r: Func, b: nat)
    requires Promoted(c, r) && b < |c.f| && Reachable(G(c), 0, b)
    ensures b < |r| && SameButOperands(WithoutAccesses(c.f[b].body, c.promoted), r[b].body)
  {
    KeptAll(c, r, b);
    var n := |c.f[b].body|;
    assert c.f[b].body[..n] == c.f[b].body;
    RankedInstr(c, b, n, 0);
    hide Promoted, Reachable, MapUses, WithoutAccesses;
    forall j: nat | j < |r[b].body|
      ensures MapUses(WithoutAccesses(c.f[b].body, c.promoted)[j], Blank) == MapUses(r[b].body[j], Blank)
    {
      var m := KeptAt(c, r, b, j);
      RankedInstr(c, b, n, m);
      BlankedTwice(c.f[b].body[m], Resolve(c));
    }
  }
}
