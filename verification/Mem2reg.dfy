/** Mem2reg: phi placement for every promotable slot, batched renaming over the dominator tree, and resolution of
 * replaced loads. */
module Mem2regPass {
  import opened Graphs
  import opened IR
  import opened DominanceFrontiers
  import opened SsaForms
  import opened PromotionRuns
  import opened PromotedForms
  import opened SsaProperties
  import opened PhiElimination
  import opened SlotLivenessAnalysis

  // ---- Partly resolved operands ----

  /** `t` is `o` or is available just before the definition of `o`. */
  ghost predicate StepsTo(c: Form, t: Operand, o: Operand) {
    o.Var? && o.name in c.sites && c.sites[o.name].1 > 0 && Avail(c, t, c.sites[o.name].0, c.sites[o.name].1 - 1)
  }

  /** `t` stands further down the chain of replacements of `o`. */
  ghost predicate Refines(c: Form, t: Operand, o: Operand) {
    Final(c, t) == Final(c, o) && (t == o || StepsTo(c, t, o))
  }

  lemma RefinesSelf(c: Form, o: Operand)
    ensures Refines(c, o, o)
  {
  }

  lemma RefinesAvail(c: Form, t: Operand, o: Operand, b: nat, k: nat)
    requires SsaOk(c) && Reachable(G(c), 0, b) && b < |c.f| && Refines(c, t, o) && Avail(c, o, b, k)
    ensures Avail(c, t, b, k)
  {
    if t != o {
      AvailThrough(c, t, o, b, k);
    }
  }

  lemma RefinesTwice(c: Form, s: Operand, t: Operand, o: Operand)
    requires SsaOk(c) && Refines(c, s, t) && Refines(c, t, o)
    requires o.Var? && o.name in c.sites ==> Reachable(G(c), 0, c.sites[o.name].0) && c.sites[o.name].0 < |c.f|
    ensures Refines(c, s, o)
  {
    hide Final, Avail;
    if s != t && t != o {
      AvailThrough(c, s, t, c.sites[o.name].0, c.sites[o.name].1 - 1);
    }
  }

  /** Recorded replacements: loads of reachable blocks, each replaced by something further down its chain. */
  ghost predicate MapOk(c: Form, m: map<Name, Operand>) {
    forall x :: x in m ==> EntryOk(c, x, m[x])
  }

  ghost predicate EntryOk(c: Form, x: Name, t: Operand) {
    && IsLoad(c, Var(x)) && Reachable(G(c), 0, c.sites[x].0) && c.sites[x].0 < |c.f|
    && t != Var(x) && Refines(c, t, Var(x))
  }

  lemma StepEarlier(c: Form, t: Operand, o: Operand)
    requires SsaOk(c) && StepsTo(c, t, o) && Reachable(G(c), 0, c.sites[o.name].0) && c.sites[o.name].0 < |c.f|
    ensures Earlier(c, t, o)
  {
    var b := c.sites[o.name].0;
    if SiteOf(c, t).0 != b {
      if !t.Var? || t.name !in c.sites {
        RootDominates(G(c), b);
      }
      FewerDominators(c, SiteOf(c, t).0, b);
    }
  }

  /** Follow recorded replacements to the end; chains are acyclic, so the walk ends. */
  method ReplaceValue(ghost c: Form, m: map<Name, Operand>, o0: Operand) returns (o: Operand)
    requires SsaOk(c) && MapOk(c, m)
    ensures Refines(c, o, o0) && (o.Var? ==> o.name !in m)
  {
    hide SsaOk, Refines, Final, Earlier, StepsTo, Avail, IsLoad;
    o := o0;
    RefinesSelf(c, o);
    while o.Var? && o.name in m
      invariant Refines(c, o, o0) && (o == o0 || (o0.Var? && o0.name in m))
      decreases Dominators(G(c), SiteOf(c, o).0), SiteOf(c, o).1
    {
      assert EntryOk(c, o.name, m[o.name]);
      var t := m[o.name];
      EntrySteps(c, m, t, o, o0);
      o := t;
    }
  }

  lemma EntrySteps(c: Form, m: map<Name, Operand>, t: Operand, o: Operand, o0: Operand)
    requires SsaOk(c) && MapOk(c, m) && o.Var? && EntryOk(c, o.name, t) && Refines(c, o, o0) &&
        (o == o0 || (o0.Var? && o0.name in m))
    ensures Refines(c, t, o0) && Earlier(c, t, o)
  {
    StepEarlier(c, t, o);
    if o != o0 {
      assert EntryOk(c, o0.name, m[o0.name]);
      RefinesTwice(c, t, o, o0);
    }
  }

  // ---- The state of the renaming ----

  /** Recorded replacements, phis with the operands found so far, and the removal flags. */
  datatype Work = Work(replaced: map<Name, Operand>, phis: seq<seq<Phi>>, removed: seq<seq<bool>>)

  /** `toVar` names the slot of each phi. */
  ghost predicate PhiNames(c: Form, toVar: map<Name, Name>) {
    forall p, b: nat :: (p, b) in c.phis ==> c.phis[(p, b)] in toVar && toVar[c.phis[(p, b)]] == p
  }

  ghost predicate PhiOfSlot(c: Form, toVar: map<Name, Name>, phi: Phi, b: nat) {
    phi.result in toVar && (toVar[phi.result], b) in c.phis && c.phis[(toVar[phi.result], b)] == phi.result
  }

  ghost predicate PhiBlock(c: Form, toVar: map<Name, Name>, phis: seq<Phi>, b: nat) {
    && (forall i :: 0 <= i < |phis| ==>
      PhiOfSlot(c, toVar, phis[i], b) &&
      ArgsRefine(c, toVar[phis[i].result], phis[i].args) && SourcesOk(c, b, phis[i].args))
    && DistinctResults(phis)
    && (forall p :: (p, b) in c.phis ==> exists i :: 0 <= i < |phis| && phis[i].result == c.phis[(p, b)])
  }

  ghost predicate ArgsRefine(c: Form, p: Name, args: seq<(Operand, nat)>) {
    forall j :: 0 <= j < |args| ==> ArgRefines(c, p, args[j])
  }

  ghost predicate ArgRefines(c: Form, p: Name, arg: (Operand, nat)) {
    arg.1 < |c.f| && Reachable(G(c), 0, arg.1) && TopOut(c, p, arg.1).Some? &&
      Refines(c, arg.0, TopOut(c, p, arg.1).value)
  }

  ghost predicate WorkOk(c: Form, toVar: map<Name, Name>, w: Work) {
    && MapOk(c, w.replaced) && |w.phis| == |w.removed| == |c.f|
    && (forall b :: 0 <= b < |c.f| ==> PhiBlock(c, toVar, w.phis[b], b))
    && (forall b :: 0 <= b < |c.f| ==> |w.removed[b]| == |c.f[b].body|)
    && (forall b, k :: 0 <= b < |c.f| && 0 <= k < |w.removed[b]| && w.removed[b][k] ==> !AccessAt(c, b, k).Other?)
  }

  /** Nothing recorded is taken back. */
  ghost predicate Extends(v: Work, w: Work) {
    && v.replaced.Keys <= w.replaced.Keys && |v.phis| == |w.phis| && |v.removed| == |w.removed|
    && (forall b, k :: 0 <= b < |v.removed| && 0 <= k < |v.removed[b]| && v.removed[b][k] ==>
      k < |w.removed[b]| &&
      w.removed[b][k])
    && (forall b :: 0 <= b < |v.phis| ==> PhisExtend(v.phis[b], w.phis[b]))
  }

  ghost predicate PhisExtend(v: seq<Phi>, w: seq<Phi>) {
    |v| == |w| && forall i :: 0 <= i < |v| ==> v[i].result == w[i].result && v[i].args <= w[i].args
  }

  lemma ExtendsTwice(u: Work, v: Work, w: Work)
    requires Extends(u, v) && Extends(v, w)
    ensures Extends(u, w)
  {
    forall b | 0 <= b < |u.phis|
      ensures PhisExtend(u.phis[b], w.phis[b])
    {
      assert PhisExtend(u.phis[b], v.phis[b]) && PhisExtend(v.phis[b], w.phis[b]);
    }
  }

  /** Block `b` has been renamed. */
  ghost predicate Done(c: Form, w: Work, b: nat) {
    && b < |c.f| == |w.removed| == |w.phis|
    && (forall p :: p in c.promoted ==> SlotDone(c, w, b, p))
    && (forall v, p :: v in Successors(c.f[b].term) && v < |c.f| && (p, v) in c.phis && TopOut(c, p, b).Some? ==>
      ArgFilled(w.phis[v], c.phis[(p, v)], b))
  }

  ghost predicate SlotDone(c: Form, w: Work, b: nat, p: Name) {
    && b < |c.f| == |w.removed|
    && (forall k :: Loads(c, p, b, k) && TopAt(c, p, b, k).Some? ==>
      AccessAt(c, b, k).result in w.replaced &&
      Flagged(w.removed[b], k))
    && (forall k :: Stores(c, p, b, k) ==> Flagged(w.removed[b], k))
  }

  predicate Flagged(flags: seq<bool>, k: nat) {
    k < |flags| && flags[k]
  }

  ghost predicate ArgFilled(phis: seq<Phi>, x: Name, u: nat) {
    forall i :: 0 <= i < |phis| && phis[i].result == x ==> ArgFrom(phis[i].args, u)
  }

  ghost predicate ArgFrom(args: seq<(Operand, nat)>, u: nat) {
    exists j :: 0 <= j < |args| && args[j].1 == u
  }

  lemma DoneStays(c: Form, v: Work, w: Work, b: nat)
    requires Done(c, v, b) && Extends(v, w)
    ensures Done(c, w, b)
  {
    forall p | p in c.promoted
      ensures SlotDone(c, w, b, p)
    {
      assert SlotDone(c, v, b, p);
    }
    forall d, p | d in Successors(c.f[b].term) && d < |c.f| && (p, d) in c.phis && TopOut(c, p, b).Some?
      ensures ArgFilled(w.phis[d], c.phis[(p, d)], b)
    {
      FilledStays(v.phis[d], w.phis[d], c.phis[(p, d)], b);
    }
  }

  lemma FilledStays(v: seq<Phi>, w: seq<Phi>, x: Name, u: nat)
    requires ArgFilled(v, x, u) && PhisExtend(v, w)
    ensures ArgFilled(w, x, u)
  {
    forall i | 0 <= i < |w| && w[i].result == x
      ensures ArgFrom(w[i].args, u)
    {
      assert ArgFrom(v[i].args, u);
      var j :| 0 <= j < |v[i].args| && v[i].args[j].1 == u;
      assert w[i].args[j] == v[i].args[j];
    }
  }

  // ---- The value stacks ----

  type Stacks = map<Name, seq<Operand>>

  /** The stack is empty where the slot holds nothing; otherwise its top stands for what the slot holds. */
  ghost predicate TopMatches(c: Form, stack: seq<Operand>, o: Option<Operand>) {
    (stack == [] <==> o.None?) && (o.Some? && stack != [] ==> Refines(c, stack[|stack| - 1], o.value))
  }

  ghost predicate TopsMatch(c: Form, stacks: Stacks, tops: map<Name, Option<Operand>>) {
    stacks.Keys == c.promoted == tops.Keys && forall p :: p in c.promoted ==> TopMatches(c, stacks[p], tops[p])
  }

  /** What the slots hold before block `u`: what its immediate dominator leaves. */
  ghost function TopBefore(c: Form, p: Name, u: nat): Option<Operand> {
    if u == 0 || u >= |c.dom| || c.dom[u] < 0 then None else TopOut(c, p, c.dom[u])
  }

  ghost function TopsBefore(c: Form, u: nat): map<Name, Option<Operand>> {
    map p | p in c.promoted :: TopBefore(c, p, u)
  }

  ghost function TopsIn(c: Form, u: nat): map<Name, Option<Operand>> {
    map p | p in c.promoted :: TopIn(c, p, u)
  }

  ghost function TopsOut(c: Form, u: nat): map<Name, Option<Operand>> {
    map p | p in c.promoted :: TopOut(c, p, u)
  }

  lemma TopInIs(c: Form, p: Name, u: nat)
    requires SsaOk(c) && u < |c.f| && Reachable(G(c), 0, u)
    ensures TopIn(c, p, u) == if (p, u) in c.phis then Some(Var(c.phis[(p, u)])) else TopBefore(c, p, u)
  {
    if u != 0 {
      IdomHasFewer(G(c), c.dom[u], u);
    }
  }

  function Count(pushes: map<Name, nat>, p: Name): nat {
    if p in pushes then pushes[p] else 0
  }

  /** The stacks are the old ones with `pushes` further values. */
  ghost predicate Pushed(old_: Stacks, now: Stacks, pushes: map<Name, nat>) {
    && old_.Keys == now.Keys && pushes.Keys <= now.Keys
    && forall p :: p in old_ ==> old_[p] <= now[p] && |now[p]| == |old_[p]| + Count(pushes, p)
  }

  lemma PushOne(old_: Stacks, now: Stacks, pushes: map<Name, nat>, p: Name, v: Operand)
    requires Pushed(old_, now, pushes) && p in now
    ensures Pushed(old_, now[p := now[p] + [v]], pushes[p := Count(pushes, p) + 1])
  {
  }

  lemma NothingPushed(old_: Stacks)
    ensures Pushed(old_, old_, map[])
  {
  }

  lemma TopFacts(c: Form, stack: seq<Operand>, o: Option<Operand>)
    requires TopMatches(c, stack, o)
    ensures stack == [] <==> o.None?
    ensures stack != [] ==> Refines(c, stack[|stack| - 1], o.value)
  {
  }

  lemma TopOfValue(c: Form, stack: seq<Operand>, t: Operand, v: Operand)
    requires Refines(c, t, v)
    ensures TopMatches(c, stack + [t], Some(v))
  {
  }

  lemma WorkSizes(c: Form, toVar: map<Name, Name>, w: Work)
    requires WorkOk(c, toVar, w)
    ensures |w.phis| == |w.removed| == |c.f| && MapOk(c, w.replaced)
    ensures forall b :: 0 <= b < |c.f| ==> |w.removed[b]| == |c.f[b].body| && PhiBlock(c, toVar, w.phis[b], b)
  {
  }

  lemma PhisOnlyExtend(v: Work, w: Work, b: nat)
    requires Extends(v, w) && b < |v.phis|
    ensures b < |w.phis| && PhisExtend(v.phis[b], w.phis[b])
  {
  }

  lemma MapExtends(c: Form, m: map<Name, Operand>, x: Name, t: Operand)
    requires MapOk(c, m) && EntryOk(c, x, t)
    ensures MapOk(c, m[x := t])
  {
  }

  lemma LoadRefines(c: Form, t: Operand, top: Operand, x: Name)
    requires Refines(c, t, top) && Final(c, Var(x)) == Final(c, top) && StepsTo(c, top, Var(x)) &&
        (t == top || StepsTo(c, t, Var(x)))
    ensures Refines(c, t, Var(x))
  {
  }

  /** Recording a load: its replacement is what is on top of the stack. */
  lemma RecordLoad(c: Form, u: nat, k: nat, t: Operand)
    requires SsaOk(c) && LiveOk(c) && Reachable(G(c), 0, u) && InBody(c, u, k) && AccessAt(c, u, k).LoadOf?
    requires TopAt(c, AccessAt(c, u, k).slot, u, k).Some? && Refines(c, t, TopAt(c, AccessAt(c, u, k).slot, u, k).value)
    ensures EntryOk(c, AccessAt(c, u, k).result, t)
  {
    hide SsaOk, Final, Refines;
    var x, p := AccessAt(c, u, k).result, AccessAt(c, u, k).slot;
    LoadNames(c, u, k);
    TargetNotAvail(c, u, k, x);
    TopAvail(c, p, u, k);
    RefinesAvail(c, t, TopAt(c, p, u, k).value, u, k);
    LoadResolves(c, u, k);
    LoadRefines(c, t, TopAt(c, p, u, k).value, x);
  }

  /** The accesses of `p` before instruction `k` of `u` are recorded. */
  ghost predicate SlotDoneTo(c: Form, w: Work, u: nat, p: Name, k: nat) {
    && u < |c.f| == |w.removed|
    && (forall j :: 0 <= j < k && Loads(c, p, u, j) && TopAt(c, p, u, j).Some? ==>
      AccessAt(c, u, j).result in w.replaced && Flagged(w.removed[u], j))
    && (forall j :: 0 <= j < k && Stores(c, p, u, j) ==> Flagged(w.removed[u], j))
  }

  function SetFlag(removed: seq<seq<bool>>, u: nat, k: nat): (r: seq<seq<bool>>)
    requires u < |removed| && k < |removed[u]|
  {
    removed[u := removed[u][k := true]]
  }

  lemma FlagAccess(c: Form, toVar: map<Name, Name>, w: Work, u: nat, k: nat, m: map<Name, Operand>)
    requires WorkOk(c, toVar, w) && InBody(c, u, k) && !AccessAt(c, u, k).Other? && MapOk(c, m) &&
        w.replaced.Keys <= m.Keys
    ensures WorkOk(c, toVar, Work(m, w.phis, SetFlag(w.removed, u, k))) &&
        Extends(w, Work(m, w.phis, SetFlag(w.removed, u, k)))
  {
    hide PhiBlock, AccessAt;
    forall b | 0 <= b < |w.phis|
      ensures PhisExtend(w.phis[b], w.phis[b])
    {
    }
  }

  lemma SlotStep(c: Form, w: Work, w': Work, u: nat, p: Name, k: nat)
    requires SlotDoneTo(c, w, u, p, k) && Extends(w, w') && InBody(c, u, k)
    requires Loads(c, p, u, k) && TopAt(c, p, u, k).Some? ==>
        AccessAt(c, u, k).result in w'.replaced &&
        Flagged(w'.removed[u], k)
    requires Stores(c, p, u, k) ==> Flagged(w'.removed[u], k)
    ensures SlotDoneTo(c, w', u, p, k + 1)
  {
    hide TopAt, Loads, Stores, AccessAt;
  }

  lemma SlotFinished(c: Form, w: Work, u: nat, p: Name)
    requires u < |c.f| && SlotDoneTo(c, w, u, p, |c.f[u].body|)
    ensures SlotDone(c, w, u, p)
  {
    hide TopAt, AccessAt;
  }

  lemma SlotStays(c: Form, v: Work, w: Work, u: nat, p: Name)
    requires SlotDone(c, v, u, p) && Extends(v, w)
    ensures SlotDone(c, w, u, p)
  {
    hide TopAt, AccessAt;
  }

  lemma SameExtends(w: Work)
    ensures Extends(w, w)
  {
    forall b | 0 <= b < |w.phis|
      ensures PhisExtend(w.phis[b], w.phis[b])
    {
    }
  }

  class Renamer {
    const f: Func
    const promoted: set<Name>
    const domChild: seq<seq<nat>>
    const toVar: map<Name, Name>
    ghost const c: Form
    var replaced: map<Name, Operand>
    var phis: seq<seq<Phi>>
    var removed: seq<seq<bool>>
    var stacks: Stacks

    constructor (f: Func, promoted: set<Name>, domChild: seq<seq<nat>>, toVar: map<Name, Name>, phis: seq<seq<Phi>>,
        removed: seq<seq<bool>>, ghost c: Form)
      ensures this.f == f && this.promoted == promoted && this.domChild == domChild && this.toVar == toVar &&
          this.c == c
      ensures this.phis == phis && this.removed == removed && replaced == map[] && stacks == map p | p in promoted :: []
    {
      this.f, this.promoted, this.domChild, this.toVar, this.c := f, promoted, domChild, toVar, c;
      this.phis, this.removed, replaced := phis, removed, map[];
      stacks := map p | p in promoted :: [];
    }

    ghost predicate Context() {
      && c.f == f && c.promoted == promoted && SsaOk(c) && LiveOk(c) && PhiNames(c, toVar)
      && IsChildren(c.dom, domChild, |f|, |f|)
    }

    ghost function Now(): Work
      reads this
    {
      Work(replaced, phis, removed)
    }

    /** The loads and stores of one slot in one block. */
    method ProcessSlot(u: nat, p: Name, ghost old_: Stacks, pushes0: map<Name, nat>) returns (pushes: map<Name, nat>)
      requires Context() && WorkOk(c, toVar, Now()) && Reachable(G(c), 0, u) && u < |f| && p in promoted &&
          stacks.Keys == promoted
      requires TopMatches(c, stacks[p], TopIn(c, p, u)) && Pushed(old_, stacks, pushes0)
      modifies `replaced, `removed, `stacks
      ensures WorkOk(c, toVar, Now()) && Extends(old(Now()), Now()) && Pushed(old_, stacks, pushes)
      ensures stacks.Keys == promoted && (forall q :: q in promoted && q != p ==> stacks[q] == old(stacks)[q])
      ensures TopMatches(c, stacks[p], TopOut(c, p, u)) && SlotDone(c, Now(), u, p)
    {
      hide SsaOk, LiveOk, WorkOk, Extends, TopMatches, Pushed, TopIn, TopOut, SlotDoneTo, LastStore, IsChildren,
        PhiNames;
      pushes := pushes0;
      SameExtends(Now());
      WorkSizes(c, toVar, Now());
      NoAccessYet(c, Now(), u, p);
      for k := 0 to |f[u].body|
        invariant WorkOk(c, toVar, Now()) && Extends(old(Now()), Now()) && Pushed(old_, stacks, pushes)
        invariant stacks.Keys == promoted && (forall q :: q in promoted && q != p ==> stacks[q] == old(stacks)[q])
        invariant TopMatches(c, stacks[p], TopAt(c, p, u, k)) && SlotDoneTo(c, Now(), u, p, k)
      {
        ghost var before := Now();
        pushes := ProcessAccess(u, k, p, old_, pushes);
        ExtendsTwice(old(Now()), before, Now());
      }
      SlotFinished(c, Now(), u, p);
      TopOutIs(c, p, u);
    }

    method ProcessAccess(u: nat, k: nat, p: Name, ghost old_: Stacks, pushes0: map<Name, nat>)
        returns (pushes: map<Name, nat>)
      requires Context() && WorkOk(c, toVar, Now()) && Reachable(G(c), 0, u) && u < |f| && k < |f[u].body| &&
          p in promoted && stacks.Keys == promoted
      requires TopMatches(c, stacks[p], TopAt(c, p, u, k)) && SlotDoneTo(c, Now(), u, p, k) &&
          Pushed(old_, stacks, pushes0)
      modifies `replaced, `removed, `stacks
      ensures WorkOk(c, toVar, Now()) && Extends(old(Now()), Now()) && Pushed(old_, stacks, pushes)
      ensures stacks.Keys == promoted && (forall q :: q in promoted && q != p ==> stacks[q] == old(stacks)[q])
      ensures TopMatches(c, stacks[p], TopAt(c, p, u, k + 1)) && SlotDoneTo(c, Now(), u, p, k + 1)
    {
      hide SsaOk, LiveOk, WorkOk, Extends, TopMatches, Pushed, TopAt, SlotDoneTo, IsChildren, PhiNames, MapOk, Refines;
      pushes := pushes0;
      ghost var before := Now();
      SameExtends(before);
      WorkSizes(c, toVar, before);
      TopFacts(c, stacks[p], TopAt(c, p, u, k));
      match AccessOf(f[u].body[k], promoted) {
        case LoadOf(x, q) =>
          if q == p && stacks[p] != [] {
            var top := stacks[p][|stacks[p]| - 1];
            RecordLoad(c, u, k, top);
            MapExtends(c, replaced, x, top);
            FlagAccess(c, toVar, before, u, k, replaced[x := top]);
            removed := SetFlag(removed, u, k);
            replaced := replaced[x := top];
          }
        case StoreTo(q, v) =>
          if q == p {
            var value := ReplaceValue(c, replaced, v);
            FlagAccess(c, toVar, before, u, k, replaced);
            removed := SetFlag(removed, u, k);
            PushOne(old_, stacks, pushes, p, value);
            stacks := stacks[p := stacks[p] + [value]];
            pushes := pushes[p := Count(pushes, p) + 1];
            TopOfValue(c, old(stacks)[p], value, v);
          }
        case _ =>
      }
      NextTop(c, p, u, k);
      SlotStep(c, before, Now(), u, p, k);
    }

    /** The phis of a block push their own results. */
    method PushPhis(u: nat, ghost old_: Stacks) returns (pushes: map<Name, nat>)
      requires Context() && WorkOk(c, toVar, Now()) && Reachable(G(c), 0, u) && u < |f| && old_ == stacks
      requires TopsMatch(c, stacks, TopsBefore(c, u))
      modifies `stacks
      ensures Pushed(old_, stacks, pushes) && TopsMatch(c, stacks, TopsIn(c, u))
    {
      hide SsaOk, LiveOk, WorkOk, Pushed, TopMatches, IsChildren, TopBefore, TopIn;
      pushes := map[];
      NothingPushed(old_);
      WorkSizes(c, toVar, Now());
      for i := 0 to |phis[u]|
        invariant Pushed(old_, stacks, pushes) && stacks.Keys == c.promoted
        invariant forall p :: p in c.promoted ==> TopMatches(c, stacks[p], if SlotHasPhi(phis[u][..i], toVar, p) then
            Some(Var(PhiName(c, p, u))) else TopBefore(c, p, u))
      {
        var phi := phis[u][i];
        assert PhiOfSlot(c, toVar, phi, u);
        PhiSlotPromoted(c, toVar, phi, u);
        var p := toVar[phi.result];
        PushOne(old_, stacks, pushes, p, Var(phi.result));
        ghost var before := stacks;
        stacks := stacks[p := stacks[p] + [Var(phi.result)]];
        pushes := pushes[p := Count(pushes, p) + 1];
        forall q | q in c.promoted
          ensures TopMatches(c, stacks[q], if SlotHasPhi(phis[u][..i + 1], toVar, q) then Some(Var(PhiName(c, q, u)))
              else TopBefore(c, q, u))
        {
          OneMorePhi(phis[u], toVar, q, i);
          TopOfPush(c, before[p], Var(phi.result));
          assert q != p ==> stacks[q] == before[q];
        }
      }
      assert phis[u][..|phis[u]|] == phis[u];
      forall p | p in c.promoted
        ensures TopMatches(c, stacks[p], TopIn(c, p, u))
      {
        TopInIs(c, p, u);
        SlotHasPhiIff(c, toVar, phis[u], u, p);
      }
    }

    /** All slots of the block, one after the other. */
    method ProcessSlots(u: nat, ghost old_: Stacks, pushes0: map<Name, nat>) returns (pushes: map<Name, nat>)
      requires Context() && WorkOk(c, toVar, Now()) && Reachable(G(c), 0, u) && u < |f|
      requires TopsMatch(c, stacks, TopsIn(c, u)) && Pushed(old_, stacks, pushes0)
      modifies `replaced, `removed, `stacks
      ensures WorkOk(c, toVar, Now()) && Extends(old(Now()), Now()) && Pushed(old_, stacks, pushes)
      ensures TopsMatch(c, stacks, TopsOut(c, u)) && forall p :: p in promoted ==> SlotDone(c, Now(), u, p)
    {
      hide SsaOk, LiveOk, WorkOk, Extends, TopMatches, Pushed, TopIn, TopOut, SlotDone, IsChildren, PhiNames;
      pushes := pushes0;
      SameExtends(Now());
      var rest := promoted;
      while rest != {}
        invariant rest <= promoted && WorkOk(c, toVar, Now()) && Extends(old(Now()), Now()) &&
            Pushed(old_, stacks, pushes) && stacks.Keys == promoted
        invariant forall p :: p in rest ==> TopMatches(c, stacks[p], TopIn(c, p, u))
        invariant forall p :: p in promoted - rest ==>
            TopMatches(c, stacks[p], TopOut(c, p, u)) &&
            SlotDone(c, Now(), u, p)
        decreases |rest|
      {
        var p :| p in rest;
        ghost var before := Now();
        pushes := ProcessSlot(u, p, old_, pushes);
        ExtendsTwice(old(Now()), before, Now());
        forall q | q in promoted - (rest - {p})
          ensures SlotDone(c, Now(), u, q)
        {
          if q != p {
            SlotStays(c, before, Now(), u, q);
          }
        }
        rest := rest - {p};
      }
    }

    /** Hand the values on top of the stacks to the phis of one successor. */
    method FillPhis(u: nat, v: nat)
      requires Context() && WorkOk(c, toVar, Now()) && u < |f| && Reachable(G(c), 0, u) && v < |f| &&
          v in Successors(f[u].term) && TopsMatch(c, stacks, TopsOut(c, u))
      modifies `phis
      ensures WorkOk(c, toVar, Now()) && Extends(old(Now()), Now())
      ensures forall p :: (p, v) in c.phis && TopOut(c, p, u).Some? ==> ArgFilled(phis[v], c.phis[(p, v)], u)
    {
      hide SsaOk, LiveOk, TopMatches, TopOut, IsChildren, MapOk, AccessAt, PhiBlock, ArgFilled;
      ghost var before := phis;
      var blk := phis[v];
      for i := 0 to |blk|
        invariant |phis| == |before| && (forall b :: 0 <= b < |phis| && b != v ==> phis[b] == before[b])
        invariant |phis[v]| == |blk| && (forall j :: i <= j < |blk| ==> phis[v][j] == blk[j])
        invariant forall j :: 0 <= j < i ==> phis[v][j] == FilledPhi(blk[j], toVar, stacks, u)
      {
        var phi := blk[i];
        if phi.result in toVar && toVar[phi.result] in stacks && stacks[toVar[phi.result]] != [] {
          var stack := stacks[toVar[phi.result]];
          phis := phis[v := phis[v][i := phi.(args := phi.args + [(stack[|stack| - 1], u)])]];
        }
      }
      FilledBlock(c, toVar, before[v], phis[v], stacks, u, v);
      forall b | 0 <= b < |phis|
        ensures PhiBlock(c, toVar, phis[b], b) && PhisExtend(before[b], phis[b])
      {
        assert PhiBlock(c, toVar, before[b], b);
      }
    }

    method FillSuccessors(u: nat)
      requires Context() && WorkOk(c, toVar, Now()) && u < |f| && Reachable(G(c), 0, u) &&
          TopsMatch(c, stacks, TopsOut(c, u))
      modifies `phis
      ensures WorkOk(c, toVar, Now()) && Extends(old(Now()), Now())
      ensures forall v, p :: v in Successors(f[u].term) && v < |f| && (p, v) in c.phis && TopOut(c, p, u).Some? ==>
          ArgFilled(phis[v], c.phis[(p, v)], u)
    {
      hide LiveOk, TopMatches, TopOut, IsChildren, WorkOk, Extends, ArgFilled, SsaOk;
      var succs := Successors(f[u].term);
      SuccsInRange(c, u);
      SameExtends(Now());
      for k := 0 to |succs|
        invariant WorkOk(c, toVar, Now()) && Extends(old(Now()), Now())
        invariant forall v, p :: v in succs[..k] && (p, v) in c.phis && TopOut(c, p, u).Some? ==>
            v < |phis| && ArgFilled(phis[v], c.phis[(p, v)], u)
      {
        ghost var before := Now();
        assert succs[..k + 1] == succs[..k] + [succs[k]];
        assert succs[k] in succs;
        FillPhis(u, succs[k]);
        ExtendsTwice(old(Now()), before, Now());
        forall v, p | v in succs[..k + 1] && (p, v) in c.phis && TopOut(c, p, u).Some?
          ensures v < |phis| && ArgFilled(phis[v], c.phis[(p, v)], u)
        {
          WorkSizes(c, toVar, Now());
          if v in succs[..k] {
            PhisOnlyExtend(before, Now(), v);
            FilledStays(before.phis[v], phis[v], c.phis[(p, v)], u);
          }
        }
      }
      assert succs[..|succs|] == succs;
    }

    /** Take the values pushed in this block off again. */
    method PopAll(pushes: map<Name, nat>, ghost old_: Stacks)
      requires Pushed(old_, stacks, pushes)
      modifies `stacks
      ensures stacks == old_
    {
      var rest := pushes.Keys;
      while rest != {}
        invariant rest <= pushes.Keys && stacks.Keys == old_.Keys
        invariant forall p :: p in old_ ==> old_[p] <= stacks[p] && |stacks[p]| == |old_[p]| + if p in rest then
            pushes[p] else 0
        decreases |rest|
      {
        var p :| p in rest;
        var cnt := pushes[p];
        stacks := stacks[p := stacks[p][..|stacks[p]| - cnt]];
        rest := rest - {p};
      }
      forall p | p in old_
        ensures stacks[p] == old_[p]
      {
      }
    }

    /** Rename a block and everything it dominates; the stacks are as before afterwards. */
    method BatchedDFSRecursive(u: nat)
      requires Context() && WorkOk(c, toVar, Now()) && u < |f| && Reachable(G(c), 0, u) &&
          TopsMatch(c, stacks, TopsBefore(c, u))
      modifies `replaced, `removed, `stacks, `phis
      ensures WorkOk(c, toVar, Now()) && Extends(old(Now()), Now()) && stacks == old(stacks)
      ensures forall b: nat :: Reachable(G(c), 0, b) && Dominates(G(c), 0, u, b) ==> Done(c, Now(), b)
      decreases NodesBelow(|f|) - Dominators(G(c), u)
    {
      hide SsaOk, LiveOk, WorkOk, Extends, TopMatches, Pushed, TopIn, TopOut, SlotDone, IsChildren, PhiNames,
        TopBefore, Done, ArgFilled, Dominates, Reachable, Dominators;
      ghost var s0, old_ := Now(), stacks;
      var pushes := PushPhis(u, old_);
      pushes := ProcessSlots(u, old_, pushes);
      ghost var s1, mine := Now(), stacks;
      FillSuccessors(u);
      ghost var s2 := Now();
      WorkSizes(c, toVar, s2);
      BlockRenamed(c, s1, s2, u);
      ExtendsTwice(s0, s1, s2);
      ChildrenSize(c, domChild, u);
      for k := 0 to |domChild[u]|
        invariant WorkOk(c, toVar, Now()) && Extends(s0, Now()) && stacks == mine && Done(c, Now(), u)
        invariant forall i, b: nat :: 0 <= i < k && Reachable(G(c), 0, b) && Dominates(G(c), 0, domChild[u][i], b) ==>
            Done(c, Now(), b)
      {
        ghost var before := Now();
        var v := domChild[u][k];
        ChildBelow(c, domChild, u, k);
        BatchedDFSRecursive(v);
        ExtendsTwice(s0, before, Now());
        DoneStays(c, before, Now(), u);
        forall i, b: nat | 0 <= i <= k && Reachable(G(c), 0, b) && Dominates(G(c), 0, domChild[u][i], b)
          ensures Done(c, Now(), b)
        {
          if i < k {
            DoneStays(c, before, Now(), b);
          }
        }
      }
      PopAll(pushes, old_);
      forall b: nat | Reachable(G(c), 0, b) && Dominates(G(c), 0, u, b)
        ensures Done(c, Now(), b)
      {
        if b != u {
          var i := ChildAbove(c, domChild, u, b);
        }
      }
    }

    /** Resolve the operands of one instruction. */
    method ResolveOperands(os: seq<Operand>) returns (r: seq<Operand>)
      requires Context() && MapOk(c, replaced)
      ensures |r| == |os| && forall j :: 0 <= j < |os| ==>
          Refines(c, r[j], os[j]) &&
          (r[j].Var? ==> r[j].name !in replaced)
    {
      hide SsaOk, LiveOk, MapOk, Refines, IsChildren, PhiNames;
      r := [];
      for j := 0 to |os|
        invariant |r| == j && forall i :: 0 <= i < j ==>
            Refines(c, r[i], os[i]) &&
            (r[i].Var? ==> r[i].name !in replaced)
      {
        var o := ReplaceValue(c, replaced, os[j]);
        r := r + [o];
      }
    }

    ghost predicate Complete(frontier: seq<set<nat>>)
      reads this
    {
      && Context() && WorkOk(c, toVar, Now()) && PlacementOk(c, frontier)
      && (forall b: nat :: Reachable(G(c), 0, b) ==> Done(c, Now(), b))
      && (forall b, k :: 0 <= b < |f| && 0 <= k < |f[b].body| && AccessAt(c, b, k).AllocaOf? ==> Flagged(removed[b], k))
    }

    method RewriteBody(b: nat, ghost frontier: seq<set<nat>>) returns (body: seq<Instr>)
      requires Complete(frontier) && b < |f|
      ensures Reachable(G(c), 0, b) ==> body == KeptFrom(c, b, 0)
    {
      hide SsaOk, LiveOk, WorkOk, MapOk, Refines, IsChildren, PhiNames, PlacementOk, Reachable, Final, Done, KeptFrom,
        WithUses, AccessAt;
      body := [];
      WorkSizes(c, toVar, Now());
      KeptEnd(c, b);
      for k := 0 to |f[b].body|
        invariant Reachable(G(c), 0, b) ==> body + KeptFrom(c, b, k) == KeptFrom(c, b, 0)
      {
        ghost var before := body;
        KeptOne(c, b, k, before);
        if !removed[b][k] {
          var os := ResolveOperands(Uses(f[b].body[k]));
          body := body + [WithUses(f[b].body[k], os)];
          if Reachable(G(c), 0, b) {
            if !AccessAt(c, b, k).Other? {
              AccessIsFlagged(c, frontier, Now(), b, k);
            }
            OperandsResolved(c, frontier, Now(), toVar, b, k, os);
            WithMappedUses(f[b].body[k], Resolve(c), os);
          }
        } else {
          FlaggedIsAccess(c, toVar, Now(), b, k);
        }
      }
    }

    method RewriteTerm(b: nat, ghost frontier: seq<set<nat>>) returns (term: Term)
      requires Complete(frontier) && b < |f|
      ensures Reachable(G(c), 0, b) ==> term == MapTermUses(f[b].term, Resolve(c))
      ensures Successors(term) == Successors(f[b].term)
    {
      hide LiveOk, IsChildren, PhiNames, PlacementOk, Reachable, Final, Done, Avail, Refines;
      term := f[b].term;
      match f[b].term {
        case Branch(o, onTrue, onFalse) =>
          var o' := ReplaceValue(c, replaced, o);
          term := Branch(o', onTrue, onFalse);
          if Reachable(G(c), 0, b) {
            assert TermUses(f[b].term)[0] == o && Avail(c, o, b, |f[b].body|);
            ResolvedIsFinal(c, frontier, Now(), toVar, o, o', b, |f[b].body|);
          }
        case Return(Some(o)) =>
          var o' := ReplaceValue(c, replaced, o);
          term := Return(Some(o'));
          if Reachable(G(c), 0, b) {
            assert TermUses(f[b].term)[0] == o && Avail(c, o, b, |f[b].body|);
            ResolvedIsFinal(c, frontier, Now(), toVar, o, o', b, |f[b].body|);
          }
        case _ =>
      }
    }

    method RewritePhis(b: nat, ghost frontier: seq<set<nat>>) returns (out: seq<Phi>)
      requires Complete(frontier) && b < |f|
      ensures Reachable(G(c), 0, b) ==> PhisRight(c, out, b)
    {
      hide SsaOk, LiveOk, IsChildren, PhiNames, PlacementOk, Reachable, Final, Done, MapOk;
      out := [];
      assert PhiBlock(c, toVar, phis[b], b);
      for i := 0 to |phis[b]|
        invariant |out| == i
        invariant forall j :: 0 <= j < i ==>
            out[j].result == phis[b][j].result &&
            PhiResolved(c, toVar, phis[b][j], out[j])
      {
        assert PhiOfSlot(c, toVar, phis[b][i], b) && ArgsRefine(c, toVar[phis[b][i].result], phis[b][i].args);
        var args := RewriteArgs(phis[b][i], toVar[phis[b][i].result], frontier);
        out := out + [Phi(phis[b][i].result, args)];
      }
      if Reachable(G(c), 0, b) {
        PhisAreRight(c, toVar, Now(), b, out);
      }
    }

    method RewriteArgs(phi: Phi, ghost p: Name, ghost frontier: seq<set<nat>>) returns (args: seq<(Operand, nat)>)
      requires Complete(frontier) && ArgsRefine(c, p, phi.args)
      ensures |args| == |phi.args| && forall j :: 0 <= j < |args| ==>
          args[j].1 == phi.args[j].1 &&
          ArgRight(c, p, args[j])
    {
      hide SsaOk, LiveOk, IsChildren, PhiNames, PlacementOk, Reachable, Final, Done, MapOk, Refines, TopOut, Avail;
      assert MapOk(c, replaced);
      args := [];
      for j := 0 to |phi.args|
        invariant |args| == j && forall i :: 0 <= i < j ==> args[i].1 == phi.args[i].1 && ArgRight(c, p, args[i])
      {
        var u := phi.args[j].1;
        assert ArgRefines(c, p, phi.args[j]);
        var o := ReplaceValue(c, replaced, phi.args[j].0);
        ArgResolved(c, frontier, Now(), toVar, p, phi.args[j], o);
        args := args + [(o, u)];
      }
    }

    /** Resolve every remaining use. */
    method PhiRewriteAll(ghost frontier: seq<set<nat>>) returns (r: Func)
      requires Complete(frontier)
      ensures Promoted(c, r) && SameEdges(f, r)
    {
      hide SsaOk, LiveOk, WorkOk, IsChildren, PhiNames, PlacementOk, Reachable, Done, PhisRight, KeptFrom;
      r := [];
      for b := 0 to |f|
        invariant |r| == b && forall d: nat :: d < b && Reachable(G(c), 0, d) ==> BlockPromoted(c, r[d], d)
        invariant forall d: nat :: d < b ==> Successors(r[d].term) == Successors(f[d].term)
      {
        var body := RewriteBody(b, frontier);
        var term := RewriteTerm(b, frontier);
        var out := RewritePhis(b, frontier);
        r := r + [Block(out, body, term)];
      }
    }
  }

  lemma BlockRenamed(c: Form, s1: Work, s2: Work, u: nat)
    requires u < |c.f| == |s2.removed| == |s2.phis| && Extends(s1, s2) && forall p :: p in c.promoted ==>
        SlotDone(c, s1, u, p)
    requires forall v, p :: v in Successors(c.f[u].term) && v < |c.f| && (p, v) in c.phis && TopOut(c, p, u).Some? ==>
        ArgFilled(s2.phis[v], c.phis[(p, v)], u)
    ensures Done(c, s2, u)
  {
    hide SlotDone, TopOut, ArgFilled;
    forall p | p in c.promoted
      ensures SlotDone(c, s2, u, p)
    {
      SlotStays(c, s1, s2, u, p);
    }
  }

  lemma ChildrenSize(c: Form, domChild: seq<seq<nat>>, u: nat)
    requires IsChildren(c.dom, domChild, |c.f|, |c.f|) && u < |c.f|
    ensures u < |domChild|
  {
  }

  lemma ChildBelow(c: Form, domChild: seq<seq<nat>>, u: nat, k: nat)
    requires SsaOk(c) && IsChildren(c.dom, domChild, |c.f|, |c.f|) && u < |c.f| && Reachable(G(c), 0, u) &&
        k < |domChild[u]|
    ensures var v := domChild[u][k];
      && v < |c.f| && Reachable(G(c), 0, v) && TopsBefore(c, v) == TopsOut(c, u)
      && NodesBelow(|c.f|) - Dominators(G(c), v) < NodesBelow(|c.f|) - Dominators(G(c), u)
  {
    hide TopOut;
    var v := domChild[u][k];
    assert v in domChild[u] && IsChild(c.dom, u, v);
    IdomHasFewer(G(c), u, v);
    var x :| x in Dominators(G(c), v) && x !in Dominators(G(c), u);
    assert x in NodesBelow(|c.f|) - Dominators(G(c), u);
  }

  /** Everything that `u` strictly dominates is below one of its children. */
  lemma {:induction false} ChildAbove(c: Form, domChild: seq<seq<nat>>, u: nat, b: nat) returns (i: nat)
    requires SsaOk(c) && IsChildren(c.dom, domChild, |c.f|, |c.f|) && u < |c.f| && b != u && Reachable(G(c), 0, b) &&
        Dominates(G(c), 0, u, b)
    ensures i < |domChild[u]| && Dominates(G(c), 0, domChild[u][i], b)
    decreases Dominators(G(c), b)
  {
    ReachableInRange(c, b);
    OnlyRootDominatesRoot(G(c), u);
    var z: nat := c.dom[b];
    IdomHasFewer(G(c), z, b);
    if z == u {
      assert IsChild(c.dom, u, b);
      i :| 0 <= i < |domChild[u]| && domChild[u][i] == b;
      DominatesItself(G(c), b);
    } else {
      DominatorsUp(G(c), z, b, u);
      i := ChildAbove(c, domChild, u, z);
      DominatesTrans(G(c), domChild[u][i], z, b);
    }
  }

  // ---- Everything has been recorded ----

  lemma LoadSlot(c: Form, o: Operand)
    requires IsLoad(c, o)
    ensures var b, k := c.sites[o.name].0, c.sites[o.name].1 - 1;
      Loads(c, AccessAt(c, b, k).slot, b, k) && AccessAt(c, b, k).slot in c.promoted
  {
  }

  /** An operand that no record replaces is its own final value. */
  lemma ResolvedIsFinal(c: Form, frontier: seq<set<nat>>, w: Work, toVar: map<Name, Name>, o: Operand, o': Operand,
      b: nat, k: nat)
    requires SsaOk(c) && PlacementOk(c, frontier) && forall d: nat :: Reachable(G(c), 0, d) ==> Done(c, w, d)
    requires Reachable(G(c), 0, b) && b < |c.f| && Avail(c, o, b, k) && Refines(c, o', o) &&
        (o'.Var? ==> o'.name !in w.replaced)
    ensures o' == Final(c, o)
  {
    RefinesAvail(c, o', o, b, k);
    if IsLoad(c, o') {
      SiteReachable(c, o', b, k);
      LoadIsRecorded(c, frontier, w, o');
    }
  }

  lemma LoadIsRecorded(c: Form, frontier: seq<set<nat>>, w: Work, o: Operand)
    requires SsaOk(c) && PlacementOk(c, frontier) && forall d: nat :: Reachable(G(c), 0, d) ==> Done(c, w, d)
    requires IsLoad(c, o) && Reachable(G(c), 0, SiteOf(c, o).0)
    ensures o.name in w.replaced
  {
    hide SsaOk, PlacementOk, Reachable;
    LoadSlot(c, o);
    var d, j := c.sites[o.name].0, c.sites[o.name].1 - 1;
    var p := AccessAt(c, d, j).slot;
    LoadHasTop(c, frontier, p, d, j);
    assert Done(c, w, d) && SlotDone(c, w, d, p);
  }

  lemma ArgResolved(c: Form, frontier: seq<set<nat>>, w: Work, toVar: map<Name, Name>, p: Name, arg: (Operand, nat),
      o: Operand)
    requires SsaOk(c) && PlacementOk(c, frontier) && forall d: nat :: Reachable(G(c), 0, d) ==> Done(c, w, d)
    requires ArgRefines(c, p, arg) && Refines(c, o, arg.0) && (o.Var? ==> o.name !in w.replaced)
    ensures ArgRight(c, p, (o, arg.1))
  {
    hide SsaOk, PlacementOk, Done, Avail;
    var u := arg.1;
    var top := TopOut(c, p, u).value;
    var n := |c.f[u].body|;
    assert TopOut(c, p, u) == TopAt(c, p, u, n);
    TopAvail(c, p, u, n);
    RefinesAvail(c, arg.0, top, u, n);
    ResolvedIsFinal(c, frontier, w, toVar, arg.0, o, u, n);
  }

  /** Every access to a promoted slot has been flagged. */
  lemma FlaggedIsAccess(c: Form, toVar: map<Name, Name>, w: Work, b: nat, k: nat)
    requires WorkOk(c, toVar, w) && b < |c.f| && k < |w.removed[b]| && w.removed[b][k]
    ensures !AccessAt(c, b, k).Other?
  {
  }

  lemma KeptEnd(c: Form, b: nat)
    requires b < |c.f|
    ensures KeptFrom(c, b, |c.f[b].body|) == []
  {
  }

  /** Keeping one instruction, or leaving it out, leaves the body to come as it was. */
  lemma KeptOne(c: Form, b: nat, k: nat, body: seq<Instr>)
    requires b < |c.f| && k < |c.f[b].body|
    ensures AccessAt(c, b, k).Other? ==>
        body + KeptFrom(c, b, k) == body + [MapUses(c.f[b].body[k], Resolve(c))] +
        KeptFrom(c, b, k + 1)
    ensures !AccessAt(c, b, k).Other? ==> body + KeptFrom(c, b, k) == body + KeptFrom(c, b, k + 1)
  {
    hide AccessAt, MapUses;
  }

  lemma AccessIsFlagged(c: Form, frontier: seq<set<nat>>, w: Work, b: nat, k: nat)
    requires SsaOk(c) && PlacementOk(c, frontier) && Done(c, w, b) && Reachable(G(c), 0, b) && InBody(c, b, k) &&
        !AccessAt(c, b, k).Other?
    requires AccessAt(c, b, k).AllocaOf? ==> Flagged(w.removed[b], k)
    ensures Flagged(w.removed[b], k)
  {
    match AccessAt(c, b, k)
    case LoadOf(_, p) =>
      assert Loads(c, p, b, k);
      LoadHasTop(c, frontier, p, b, k);
      assert SlotDone(c, w, b, p);
    case StoreTo(p, _) =>
      assert Stores(c, p, b, k);
      assert SlotDone(c, w, b, p);
    case _ =>
  }

  lemma OperandsResolved(c: Form, frontier: seq<set<nat>>, w: Work, toVar: map<Name, Name>, b: nat, k: nat,
      os: seq<Operand>)
    requires SsaOk(c) && PlacementOk(c, frontier) && forall d: nat :: Reachable(G(c), 0, d) ==> Done(c, w, d)
    requires Reachable(G(c), 0, b) && InBody(c, b, k) && AccessAt(c, b, k).Other? && |os| == |Uses(c.f[b].body[k])|
    requires forall j :: 0 <= j < |os| ==>
        Refines(c, os[j], Uses(c.f[b].body[k])[j]) &&
        (os[j].Var? ==> os[j].name !in w.replaced)
    ensures os == MapOperands(Uses(c.f[b].body[k]), Resolve(c))
  {
    hide SsaOk, PlacementOk, Done, Refines, Avail, Final;
    OtherUses(c, b, k);
    forall j | 0 <= j < |os|
      ensures os[j] == Final(c, Uses(c.f[b].body[k])[j])
    {
      ResolvedIsFinal(c, frontier, w, toVar, Uses(c.f[b].body[k])[j], os[j], b, k);
    }
  }

  /** `after` has the resolved operands of `before`. */
  ghost predicate PhiResolved(c: Form, toVar: map<Name, Name>, before: Phi, after: Phi) {
    before.result in toVar && |after.args| == |before.args| &&
    forall j :: 0 <= j < |after.args| ==>
        after.args[j].1 == before.args[j].1 &&
        ArgRight(c, toVar[before.result], after.args[j])
  }

  lemma PhisAreRight(c: Form, toVar: map<Name, Name>, w: Work, b: nat, out: seq<Phi>)
    requires SsaOk(c) && WorkOk(c, toVar, w) && b < |c.f| && |out| == |w.phis[b]| && forall d: nat ::
        Reachable(G(c), 0, d) ==> Done(c, w, d)
    requires forall j :: 0 <= j < |out| ==>
        out[j].result == w.phis[b][j].result &&
        PhiResolved(c, toVar, w.phis[b][j], out[j])
    ensures PhisRight(c, out, b)
  {
    hide SsaOk, TopOut, MapOk;
    assert PhiBlock(c, toVar, w.phis[b], b);
    assert DistinctResults(out);
    forall i | 0 <= i < |out|
      ensures PhiRight(c, out[i], toVar[w.phis[b][i].result], b)
    {
      var p := toVar[w.phis[b][i].result];
      assert PhiOfSlot(c, toVar, w.phis[b][i], b);
      forall u: nat | Edge(G(c), u, b) && Reachable(G(c), 0, u) && TopOut(c, p, u).Some?
        ensures exists j :: 0 <= j < |out[i].args| && out[i].args[j].1 == u
      {
        assert Done(c, w, u) && b in Successors(c.f[u].term);
        assert ArgFilled(w.phis[b], c.phis[(p, b)], u);
        assert ArgFrom(w.phis[b][i].args, u);
        var j :| 0 <= j < |w.phis[b][i].args| && w.phis[b][i].args[j].1 == u;
        assert out[i].args[j].1 == u;
      }
    }
    forall i | 0 <= i < |out|
      ensures IsPhiRight(c, out[i], b)
    {
      assert PhiRight(c, out[i], toVar[w.phis[b][i].result], b);
    }
    forall p | (p, b) in c.phis
      ensures exists i :: 0 <= i < |out| && out[i].result == c.phis[(p, b)]
    {
      var i :| 0 <= i < |w.phis[b]| && w.phis[b][i].result == c.phis[(p, b)];
      assert out[i].result == c.phis[(p, b)];
    }
  }

  lemma TopOfPush(c: Form, stack: seq<Operand>, v: Operand)
    ensures TopMatches(c, stack + [v], Some(v))
  {
  }

  /** The name of the phi of slot `p` at block `b`. */
  ghost function PhiName(c: Form, p: Name, b: nat): Name {
    if (p, b) in c.phis then c.phis[(p, b)] else ""
  }

  ghost predicate SlotHasPhi(phis: seq<Phi>, toVar: map<Name, Name>, p: Name) {
    exists i :: 0 <= i < |phis| && phis[i].result in toVar && toVar[phis[i].result] == p
  }

  lemma OneMorePhi(phis: seq<Phi>, toVar: map<Name, Name>, p: Name, i: nat)
    requires i < |phis| && phis[i].result in toVar
    ensures SlotHasPhi(phis[..i + 1], toVar, p) <==> SlotHasPhi(phis[..i], toVar, p) || toVar[phis[i].result] == p
  {
    if SlotHasPhi(phis[..i], toVar, p) {
      var j :| 0 <= j < i && phis[..i][j].result in toVar && toVar[phis[..i][j].result] == p;
      assert phis[..i + 1][j] == phis[j];
    }
    if toVar[phis[i].result] == p {
      assert phis[..i + 1][i] == phis[i];
    }
    if SlotHasPhi(phis[..i + 1], toVar, p) && toVar[phis[i].result] != p {
      var j :| 0 <= j < i + 1 && phis[..i + 1][j].result in toVar && toVar[phis[..i + 1][j].result] == p;
      assert phis[..i][j] == phis[j];
    }
  }

  lemma SlotHasPhiIff(c: Form, toVar: map<Name, Name>, phis: seq<Phi>, b: nat, p: Name)
    requires PhiBlock(c, toVar, phis, b) && PhiNames(c, toVar)
    ensures SlotHasPhi(phis, toVar, p) <==> (p, b) in c.phis
  {
    if SlotHasPhi(phis, toVar, p) {
      var i :| 0 <= i < |phis| && phis[i].result in toVar && toVar[phis[i].result] == p;
      assert PhiOfSlot(c, toVar, phis[i], b);
    }
  }

  lemma PhiSlotPromoted(c: Form, toVar: map<Name, Name>, phi: Phi, b: nat)
    requires SsaOk(c) && PhiOfSlot(c, toVar, phi, b)
    ensures toVar[phi.result] in c.promoted && phi.result == PhiName(c, toVar[phi.result], b)
  {
    assert PhiOk(c, toVar[phi.result], b);
  }

  function FilledPhi(phi: Phi, toVar: map<Name, Name>, stacks: Stacks, u: nat): Phi {
    if phi.result in toVar && toVar[phi.result] in stacks && stacks[toVar[phi.result]] != []
    then var stack := stacks[toVar[phi.result]]; phi.(args := phi.args + [(stack[|stack| - 1], u)])
    else phi
  }

  lemma FilledBlock(c: Form, toVar: map<Name, Name>, before: seq<Phi>, after: seq<Phi>, stacks: Stacks, u: nat, v: nat)
    requires PhiBlock(c, toVar, before, v) && PhiNames(c, toVar) && TopsMatch(c, stacks, TopsOut(c, u)) && SsaOk(c) &&
        u < |c.f| && Reachable(G(c), 0, u) && v in Successors(c.f[u].term)
    requires |after| == |before| && forall i :: 0 <= i < |after| ==> after[i] == FilledPhi(before[i], toVar, stacks, u)
    ensures PhiBlock(c, toVar, after, v) && PhisExtend(before, after)
    ensures forall p :: (p, v) in c.phis && TopOut(c, p, u).Some? ==> ArgFilled(after, c.phis[(p, v)], u)
  {
    hide SsaOk, TopOut, Refines;
    forall i | 0 <= i < |after|
      ensures PhiOfSlot(c, toVar, after[i], v) && ArgsRefine(c, toVar[after[i].result], after[i].args) &&
        SourcesOk(c, v, after[i].args)
      ensures before[i].args <= after[i].args && before[i].result == after[i].result
      ensures TopOut(c, toVar[after[i].result], u).Some? ==> ArgFrom(after[i].args, u)
    {
      assert PhiOfSlot(c, toVar, before[i], v);
      PhiSlotPromoted(c, toVar, before[i], v);
      var p := toVar[before[i].result];
      assert TopMatches(c, stacks[p], TopOut(c, p, u));
      if stacks[p] != [] {
        assert after[i].args[|before[i].args|].1 == u;
      }
    }
    forall p | (p, v) in c.phis
      ensures exists i :: 0 <= i < |after| && after[i].result == c.phis[(p, v)]
    {
      var i :| 0 <= i < |before| && before[i].result == c.phis[(p, v)];
      assert after[i].result == c.phis[(p, v)];
    }
  }

  lemma SuccsInRange(c: Form, u: nat)
    requires SsaOk(c) && u < |c.f|
    ensures forall v :: v in Successors(c.f[u].term) ==> v < |c.f|
  {
    forall v | v in Successors(c.f[u].term)
      ensures v < |c.f|
    {
      assert v in G(c)[u];
    }
  }

  lemma NextTop(c: Form, p: Name, u: nat, k: nat)
    requires InBody(c, u, k)
    ensures TopAt(c, p, u, k + 1) == if Stores(c, p, u, k) then Some(AccessAt(c, u, k).value) else TopAt(c, p, u, k)
  {
  }

  lemma NoAccessYet(c: Form, w: Work, u: nat, p: Name)
    requires u < |c.f| == |w.removed|
    ensures SlotDoneTo(c, w, u, p, 0) && TopAt(c, p, u, 0) == TopIn(c, p, u)
  {
  }

  lemma TopOutIs(c: Form, p: Name, u: nat)
    requires u < |c.f|
    ensures TopOut(c, p, u) == TopAt(c, p, u, |c.f[u].body|)
  {
  }

  // ---- The whole pass ----

  const PHI: Name := "%phi."

  /** Loads and stores have the operands of loads and stores. */
  predicate MemoryShape(i: Instr) {
    match i
    case Effect(t, Load, args) => t.Some? && |args| == 1
    case Effect(t, Store, args) => t.None? && |args| == 2
    case Effect(t, Alloca, args) => t.Some? && args == []
    case _ => true
  }

  ghost predicate RawAvail(f: Func, sites: map<Name, Site>, o: Operand, b: nat, k: nat) {
    o.Var? ==> o.name in sites && (if sites[o.name].0 == b then sites[o.name].1 <= k
      else Dominates(Flow(f), 0, sites[o.name].0, b))
  }

  /** The input is in SSA form apart from its stack slots, has no phis yet, and uses no name of a phi. */
  ghost predicate SsaInput(f: Func, sites: map<Name, Site>) {
    && ValidTargets(f) && EntryHasNoPredecessor(f)
    && (forall b :: 0 <= b < |f| ==> f[b].phis == [])
    && (forall b: nat, k: nat :: b < |f| && k < |f[b].body| ==> InstrInput(f, sites, b, k))
    && (forall b: nat, j: nat :: b < |f| && Reachable(Flow(f), 0, b) && j < |TermUses(f[b].term)| ==>
      RawAvail(f, sites, TermUses(f[b].term)[j], b, |f[b].body|))
    && (forall x :: x in sites ==> SiteInput(f, sites, x))
  }

  ghost predicate InstrInput(f: Func, sites: map<Name, Site>, b: nat, k: nat) {
    && b < |f| && k < |f[b].body| && MemoryShape(f[b].body[k])
    && (Target(f[b].body[k]).Some? ==>
      Target(f[b].body[k]).value in sites && sites[Target(f[b].body[k]).value] ==
      (b, k + 1))
    && (Reachable(Flow(f), 0, b) ==> forall j :: 0 <= j < |Uses(f[b].body[k])| ==>
      RawAvail(f, sites, Uses(f[b].body[k])[j], b, k))
  }

  ghost predicate SiteInput(f: Func, sites: map<Name, Site>, x: Name) {
    && x in sites && !(PHI <= x)
    && var s := sites[x];
       if s.1 == 0 then s.0 == 0 else s.0 < |f| && s.1 - 1 < |f[s.0].body| && Target(f[s.0].body[s.1 - 1]) == Some(x)
  }

  /** The recorded live-in sets are right for every promotable slot, and none of these is live on entry. */
  ghost predicate SlotLiveness(f: Func, liveIn: seq<set<Name>>) {
    |liveIn| == |f| && forall p :: IsPromotable(f, p) ==> LiveOk(SlotForm(f, {p}, map[], [], map[], liveIn))
  }

  /** Every promotable slot has a store before each load, on every path from the entry. */
  ghost predicate SlotsStoredFirst(f: Func) {
    forall p :: IsPromotable(f, p) ==> StoredFirst(f, p)
  }

  lemma CoveredIsLive(f: Func, liveIn: seq<set<Name>>)
    requires CoversLive(f, liveIn) && SlotsStoredFirst(f) && ValidTargets(f)
    ensures SlotLiveness(f, liveIn)
  {
    hide IsPromotable;
    forall p | IsPromotable(f, p)
      ensures LiveOk(SlotForm(f, {p}, map[], [], map[], liveIn))
    {
      CoveredSlot(f, liveIn, p);
    }
  }

  lemma CoveredSlot(f: Func, liveIn: seq<set<Name>>, p: Name)
    requires CoversLive(f, liveIn) && StoredFirst(f, p) && ValidTargets(f)
    ensures LiveOk(SlotForm(f, {p}, map[], [], map[], liveIn))
  {
    var c := SlotForm(f, {p}, map[], [], map[], liveIn);
    hide StoredFirst, Reachable, CoversLive;
    forall q, b: nat | q in c.promoted && Reachable(G(c), 0, b) && LiveAt(c, q, b, 0)
      ensures b in c.live[q]
    {
      CoveredBlock(f, liveIn, p, b);
    }
    NotLiveAtEntry(f, liveIn, p);
  }

  lemma NotLiveAtEntry(f: Func, liveIn: seq<set<Name>>, p: Name)
    requires CoversLive(f, liveIn) && StoredFirst(f, p) && 0 < |f|
    ensures p !in liveIn[0]
  {
    hide StoredFirst;
  }

  lemma CoveredBlock(f: Func, liveIn: seq<set<Name>>, p: Name, b: nat)
    requires CoversLive(f, liveIn) && Reachable(Flow(f), 0, b) &&
        LiveAt(SlotForm(f, {p}, map[], [], map[], liveIn), p, b, 0)
    ensures b < |liveIn| && p in liveIn[b]
  {
    hide Reachable, StoredFirst;
    var c := SlotForm(f, {p}, map[], [], map[], liveIn);
    if LoadedFrom(c, p, b, 0) {
      var k: nat :| Loads(c, p, b, k) && NotStored(c, p, b, 0, k);
      forall i: nat | i < k
        ensures !StoresSlot(f[b].body[i], p)
      {
        assert !Stores(c, p, b, i);
      }
      assert LoadsSlot(f[b].body[k], p) && !StoredBefore(f[b].body, p, k);
      assert Exposed(f, p, b);
    } else {
      var v :| v in Successors(f[b].term) && v in c.live[p];
      forall i: nat | i < |f[b].body|
        ensures !StoresSlot(f[b].body[i], p)
      {
        assert !Stores(c, p, b, i);
      }
      assert !StoredIn(f, p, b);
    }
  }

  ghost function SlotForm(f: Func, promoted: set<Name>, sites: map<Name, Site>, dom: seq<int>, phis: map<(Name, nat),
      Name>, liveIn: seq<set<Name>>): Form {
    Form(f, promoted, sites, dom, phis, map p | p in promoted :: LiveBlocks(liveIn, p))
  }

  ghost function LiveBlocks(liveIn: seq<set<Name>>, p: Name): set<nat> {
    set b: nat | b < |liveIn| && p in liveIn[b]
  }

  lemma SameAccess(i: Instr, p: Name, promoted: set<Name>)
    requires p in promoted
    ensures var a, b := AccessOf(i, {p}), AccessOf(i, promoted);
      && (b.LoadOf? && b.slot == p <==> a.LoadOf?) && (b.StoreTo? && b.slot == p <==> a.StoreTo?)
      && (a.LoadOf? ==> a == b) && (a.StoreTo? ==> a == b)
  {
  }

  /** Liveness of each slot by itself is liveness among all promoted slots. */
  lemma SlotsLiveOk(f: Func, promoted: set<Name>, sites: map<Name, Site>, dom: seq<int>, phis: map<(Name, nat), Name>,
      liveIn: seq<set<Name>>)
    requires SlotLiveness(f, liveIn) && forall p :: p in promoted ==> IsPromotable(f, p)
    ensures LiveOk(SlotForm(f, promoted, sites, dom, phis, liveIn))
  {
    var c := SlotForm(f, promoted, sites, dom, phis, liveIn);
    forall p, b: nat | p in promoted && Reachable(G(c), 0, b) && LiveAt(c, p, b, 0)
      ensures b in c.live[p]
    {
      var d := SlotForm(f, {p}, map[], [], map[], liveIn);
      assert IsPromotable(f, p) && LiveOk(d);
      SlotLiveSame(c, d, p, b);
    }
    forall p | p in promoted
      ensures 0 !in c.live[p]
    {
      assert IsPromotable(f, p) && LiveOk(SlotForm(f, {p}, map[], [], map[], liveIn));
    }
  }

  lemma SlotLiveSame(c: Form, d: Form, p: Name, b: nat)
    requires c.f == d.f && d.promoted == {p} && p in c.promoted && p in c.live && p in d.live && c.live[p] == d.live[p]
    requires LiveAt(c, p, b, 0)
    ensures LiveAt(d, p, b, 0)
  {
    forall k: nat
      ensures Loads(c, p, b, k) <==> Loads(d, p, b, k)
      ensures Stores(c, p, b, k) <==> Stores(d, p, b, k)
    {
      if InBody(c, b, k) {
        SameAccess(c.f[b].body[k], p, c.promoted);
      }
    }
    if LoadedFrom(c, p, b, 0) {
      var j: nat :| 0 <= j && Loads(c, p, b, j) && NotStored(c, p, b, 0, j);
      assert Loads(d, p, b, j) && NotStored(d, p, b, 0, j);
    } else {
      assert NotStored(d, p, b, 0, |d.f[b].body|);
    }
  }

  // ---- Which slots are promotable ----

  /** The variable escapes or is used directly at this instruction. */
  predicate Escapes(i: Instr, p: Name) {
    match i
    case Effect(_, Load, _) => false
    case Effect(_, Store, args) => |args| > 0 && args[0] == Var(p)
    case _ => Var(p) in Uses(i)
  }

  predicate EscapesIn(blk: Block, p: Name) {
    (exists k :: 0 <= k < |blk.body| && Escapes(blk.body[k], p)) || Var(p) in TermUses(blk.term)
  }

  predicate AllocatedAtEntry(f: Func, p: Name) {
    |f| > 0 && Effect(Some(p), Alloca, []) in f[0].body
  }

  /** Allocas of the entry block that are neither stored as values nor used other than by loads and stores. */
  method ChoosePromoted(f: Func) returns (promoted: set<Name>)
    requires 0 < |f|
    ensures forall p :: p in promoted <==> IsPromotable(f, p)
  {
    promoted := {};
    for k := 0 to |f[0].body|
      invariant forall p :: p in promoted <==> Effect(Some(p), Alloca, []) in f[0].body[..k] && forall b ::
          0 <= b < |f| ==> !EscapesIn(f[b], p)
    {
      assert f[0].body[..k + 1] == f[0].body[..k] + [f[0].body[k]];
      match f[0].body[k] {
        case Effect(Some(p), Alloca, args) =>
          if args == [] {
            var escapes := AnyEscape(f, p);
            if !escapes {
              promoted := promoted + {p};
            }
          }
        case _ =>
      }
    }
    assert f[0].body[..|f[0].body|] == f[0].body;
  }

  method AnyEscape(f: Func, p: Name) returns (escapes: bool)
    ensures escapes <==> exists b :: 0 <= b < |f| && EscapesIn(f[b], p)
  {
    for b := 0 to |f|
      invariant forall d :: 0 <= d < b ==> !EscapesIn(f[d], p)
    {
      if EscapesIn(f[b], p) {
        return true;
      }
    }
    escapes := false;
  }

  ghost predicate IsPromotable(f: Func, p: Name) {
    AllocatedAtEntry(f, p) && forall b :: 0 <= b < |f| ==> !EscapesIn(f[b], p)
  }

  // ---- Placing the phis ----

  ghost predicate PhiNumbered(x: Name, n: nat) {
    exists i: nat :: 1 <= i <= n && x == PHI + "." + Decimal(i)
  }

  /** The phis placed so far: named with the first `n` numbers, one for each slot and block of `names`. */
  ghost predicate PhisPlaced(names: map<(Name, nat), Name>, toVar: map<Name, Name>, phis: seq<seq<Phi>>, n: nat) {
    && (forall b, i :: 0 <= b < |phis| && 0 <= i < |phis[b]| ==> PlacedPhi(names, toVar, phis[b][i], b))
    && (forall b :: 0 <= b < |phis| ==> DistinctResults(phis[b]))
    && (forall p, b: nat :: (p, b) in names ==> NameEntry(names, toVar, phis, n, p, b))
    && (forall p, b: nat, q, d: nat :: (p, b) in names && (q, d) in names && names[(p, b)] == names[(q, d)] ==>
      p == q && b == d)
  }

  ghost predicate PlacedPhi(names: map<(Name, nat), Name>, toVar: map<Name, Name>, phi: Phi, b: nat) {
    phi.args == [] && phi.result in toVar && (toVar[phi.result], b) in names && names[(toVar[phi.result], b)] ==
      phi.result
  }

  ghost predicate NameEntry(names: map<(Name, nat), Name>, toVar: map<Name, Name>, phis: seq<seq<Phi>>, n: nat,
      p: Name, b: nat) {
    && (p, b) in names && PhiNumbered(names[(p, b)], n) && names[(p, b)] in toVar && toVar[names[(p, b)]] == p
    && b < |phis| && Phi(names[(p, b)], []) in phis[b]
  }

  lemma PlaceOnePhi(names: map<(Name, nat), Name>, toVar: map<Name, Name>, phis: seq<seq<Phi>>, n: nat, p: Name,
      b: nat, x: Name)
    requires PhisPlaced(names, toVar, phis, n) && (p, b) !in names && b < |phis| && x == PHI + "." + Decimal(n + 1)
    ensures PhisPlaced(names[(p, b) := x], toVar[x := p], phis[b := phis[b] + [Phi(x, [])]], n + 1)
  {
    hide Decimal;
    var names', toVar', phis' := names[(p, b) := x], toVar[x := p], phis[b := phis[b] + [Phi(x, [])]];
    forall q, d: nat | (q, d) in names
      ensures names[(q, d)] != x
    {
      assert NameEntry(names, toVar, phis, n, q, d);
      var i: nat :| 1 <= i <= n && names[(q, d)] == PHI + "." + Decimal(i);
      if names[(q, d)] == x {
        assert (PHI + "." + Decimal(i))[|PHI| + 1..] == Decimal(i) && (PHI + "." + Decimal(n + 1))[|PHI| + 1..] ==
            Decimal(n + 1);
        DecimalInjective(i, n + 1);
      }
    }
    forall d, i | 0 <= d < |phis'| && 0 <= i < |phis'[d]|
      ensures PlacedPhi(names', toVar', phis'[d][i], d) && (d != b || i < |phis[b]| ==> phis'[d][i].result != x)
    {
      if d == b && i == |phis[b]| {
      } else {
        assert PlacedPhi(names, toVar, phis[d][i], d);
      }
    }
    forall d | 0 <= d < |phis'|
      ensures DistinctResults(phis'[d])
    {
      assert DistinctResults(phis[d]);
    }
    forall q, d: nat | (q, d) in names'
      ensures NameEntry(names', toVar', phis', n + 1, q, d)
    {
      if (q, d) != (p, b) {
        assert NameEntry(names, toVar, phis, n, q, d);
        var i: nat :| 1 <= i <= n && names[(q, d)] == PHI + "." + Decimal(i);
        assert PhiNumbered(names'[(q, d)], n + 1);
      } else {
        assert PhiNumbered(x, n + 1);
        assert phis'[b][|phis[b]|] == Phi(x, []);
      }
    }
  }

  /** The blocks with a store to `p`. */
  method FindDefBlocks(f: Func, promoted: set<Name>, p: Name, ghost c: Form) returns (defs: set<nat>)
    requires c.f == f && c.promoted == promoted
    ensures defs == DefBlocks(c, p)
  {
    defs := {};
    for b := 0 to |f|
      invariant forall d: nat :: d in defs <==> d < b && StoresIn(c, p, d)
    {
      var found := false;
      for k := 0 to |f[b].body|
        invariant found <==> exists j :: 0 <= j < k && Stores(c, p, b, j)
      {
        var a := AccessOf(f[b].body[k], promoted);
        if a.StoreTo? && a.slot == p {
          assert Stores(c, p, b, k);
          found := true;
        }
      }
      assert found <==> StoresIn(c, p, b);
      if found {
        defs := defs + {b};
      }
    }
  }

  lemma NothingPlaced(n: nat)
    ensures PhisPlaced(map[], map[], seq(n, b => []), 0)
  {
  }

  /** Phis for every promoted slot: at the least blocks closed under live frontiers. */
  method PlaceAll(f: Func, promoted: set<Name>, liveIn: seq<set<Name>>, cfg: CFG, ghost c0: Form)
    returns (ghost names: map<(Name, nat), Name>, toVar: map<Name, Name>, phis: seq<seq<Phi>>)
    requires c0.f == f && c0.promoted == promoted && |liveIn| == |f| == |cfg.frontier| == |cfg.succs|
    requires forall u, v :: 0 <= u < |cfg.frontier| && v in cfg.frontier[u] ==> 0 < v < |cfg.succs|
    ensures |phis| == |f| && (exists n :: PhisPlaced(names, toVar, phis, n))
    ensures forall p, b: nat :: (p, b) in names ==> p in promoted && 0 < b < |f|
    ensures forall p :: p in promoted ==>
        LeastPhis(cfg.frontier, DefBlocks(c0, p), LiveBlocks(liveIn, p), NamedBlocks(names, |f|, p))
  {
    hide DefBlocks, PhisPlaced, LeastPhis;
    var allocator := new NameAllocator();
    names, toVar, phis := map[], map[], seq(|f|, b => []);
    NothingPlaced(|f|);
    ghost var n: nat := 0;
    var rest := promoted;
    while rest != {}
      invariant rest <= promoted && |phis| == |f| && PhisPlaced(names, toVar, phis, n) && allocator.Count(PHI) == n &&
          fresh(allocator)
      invariant forall p, b: nat :: (p, b) in names ==> p in promoted - rest && 0 < b < |f|
      invariant forall p :: p in promoted - rest ==>
          LeastPhis(cfg.frontier, DefBlocks(c0, p), LiveBlocks(liveIn, p), NamedBlocks(names, |f|, p))
      decreases |rest|
    {
      var p :| p in rest;
      var defs := FindDefBlocks(f, promoted, p, c0);
      var live := FindLiveBlocks(liveIn, p);
      DefsInRange(c0, p);
      var visited := cfg.AddPhi(defs, live);
      LeastInRange(cfg.frontier, defs, live, visited);
      ghost var before := names;
      var todo := visited;
      while todo != {}
        invariant todo <= visited && |phis| == |f| && PhisPlaced(names, toVar, phis, n) && allocator.Count(PHI) == n &&
            fresh(allocator)
        invariant forall q, b: nat :: (q, b) in names <==> (q, b) in before || (q == p && b in visited - todo)
        decreases |todo|
      {
        var u :| u in todo;
        var name := allocator.Allocate(PHI);
        PlaceOnePhi(names, toVar, phis, n, p, u, name);
        names := names[(p, u) := name];
        toVar := toVar[name := p];
        phis := phis[u := phis[u] + [Phi(name, [])]];
        n := n + 1;
        todo := todo - {u};
      }
      forall q | q in promoted - (rest - {p})
        ensures LeastPhis(cfg.frontier, DefBlocks(c0, q), LiveBlocks(liveIn, q), NamedBlocks(names, |f|, q))
      {
        if q == p {
          assert NamedBlocks(names, |f|, p) == visited;
        } else {
          assert NamedBlocks(names, |f|, q) == NamedBlocks(before, |f|, q);
        }
      }
      rest := rest - {p};
    }
  }

  method FindLiveBlocks(liveIn: seq<set<Name>>, p: Name) returns (live: set<nat>)
    ensures live == LiveBlocks(liveIn, p)
  {
    live := {};
    for b := 0 to |liveIn|
      invariant forall d: nat :: d in live <==> d < b && p in liveIn[d]
    {
      if p in liveIn[b] {
        live := live + {b};
      }
    }
  }

  lemma DefsInRange(c: Form, p: Name)
    ensures forall b :: b in DefBlocks(c, p) ==> b < |c.f|
  {
  }

  /** Phis are placed in frontiers only. */
  lemma LeastInRange(frontier: seq<set<nat>>, defs: set<nat>, live: set<nat>, phis: set<nat>)
    requires LeastPhis(frontier, defs, live, phis) && forall u, v :: 0 <= u < |frontier| && v in frontier[u] ==>
        0 < v < |frontier|
    ensures forall v :: v in phis ==> 0 < v < |frontier|
  {
    var s := set v | v in phis && 0 < v < |frontier|;
    assert PhiClosed(frontier, defs, live, s);
    assert phis <= s;
  }

  /** The form that the pass works with. */
  ghost function FormOf(f: Func, promoted: set<Name>, sites: map<Name, Site>, dom: seq<int>, names: map<(Name, nat),
      Name>, liveIn: seq<set<Name>>): Form {
    SlotForm(f, promoted, (map x | x in sites && x !in promoted :: sites[x]) + PhiSites(names), dom, names, liveIn)
  }

  ghost function PhiSites(names: map<(Name, nat), Name>): map<Name, Site>
  {
    map x | x in names.Values :: (BlockOf(names, x), 0)
  }

  ghost function BlockOf(names: map<(Name, nat), Name>, x: Name): nat
    requires x in names.Values
  {
    var k :| k in names && names[k] == x;
    k.1
  }

  lemma PhiSiteIs(names: map<(Name, nat), Name>, toVar: map<Name, Name>, phis: seq<seq<Phi>>, n: nat, p: Name, b: nat)
    requires PhisPlaced(names, toVar, phis, n) && (p, b) in names
    ensures names[(p, b)] in PhiSites(names) && PhiSites(names)[names[(p, b)]] == (b, 0)
  {
    var x := names[(p, b)];
    var k :| k in names && names[k] == x && BlockOf(names, x) == k.1;
    assert (k.0, k.1) in names && names[(k.0, k.1)] == x;
  }

  lemma PhiSitesOnly(names: map<(Name, nat), Name>, toVar: map<Name, Name>, phis: seq<seq<Phi>>, n: nat, x: Name)
    requires PhisPlaced(names, toVar, phis, n) && x in PhiSites(names)
    ensures PHI <= x && PhiSites(names)[x].1 == 0 && exists p ::
        (p, PhiSites(names)[x].0) in names &&
        names[(p, PhiSites(names)[x].0)] == x
  {
    var k :| k in names && names[k] == x && BlockOf(names, x) == k.1;
    assert (k.0, k.1) in names && names[(k.0, k.1)] == x;
    assert NameEntry(names, toVar, phis, n, k.0, k.1);
    var i: nat :| 1 <= i <= n && x == PHI + "." + Decimal(i);
  }

  /** A promotable slot appears only as the pointer of loads and stores. */
  lemma SlotOnlyAccessed(f: Func, promoted: set<Name>, b: nat, k: nat)
    requires b < |f| && k < |f[b].body| && MemoryShape(f[b].body[k]) && forall p :: p in promoted ==> IsPromotable(f, p)
    ensures var i := f[b].body[k];
      match AccessOf(i, promoted)
      case Other => forall j :: 0 <= j < |Uses(i)| && Uses(i)[j].Var? ==> Uses(i)[j].name !in promoted
      case StoreTo(_, v) => v.Var? ==> v.name !in promoted
      case _ => true
  {
    var i := f[b].body[k];
    forall p | p in promoted
      ensures !Escapes(i, p)
    {
      assert IsPromotable(f, p) && !EscapesIn(f[b], p);
    }
    match AccessOf(i, promoted)
    case Other =>
      forall j | 0 <= j < |Uses(i)| && Uses(i)[j].Var?
        ensures Uses(i)[j].name !in promoted
      {
        assert Uses(i)[j] == Var(Uses(i)[j].name) && Uses(i)[j] in Uses(i);
        assert Uses(i)[j].name in promoted ==> !Escapes(i, Uses(i)[j].name);
      }
    case _ =>
  }

  /** The sites of the form: those of the input for ordinary variables, and the phis. */
  lemma FormSites(f: Func, promoted: set<Name>, sites: map<Name, Site>, dom: seq<int>, names: map<(Name, nat), Name>,
      toVar: map<Name, Name>, phis: seq<seq<Phi>>, n: nat, liveIn: seq<set<Name>>, x: Name)
    requires SsaInput(f, sites) && PhisPlaced(names, toVar, phis, n)
    ensures var c := FormOf(f, promoted, sites, dom, names, liveIn);
      && (x in sites ==> x !in PhiSites(names))
      && (x in sites && x !in promoted ==> x in c.sites && c.sites[x] == sites[x])
      && (x in PhiSites(names) ==> x in c.sites && c.sites[x] == PhiSites(names)[x])
      && (x in c.sites ==> x in PhiSites(names) || (x in sites && x !in promoted))
  {
    if x in PhiSites(names) {
      PhiSitesOnly(names, toVar, phis, n, x);
    }
    assert x in sites ==> SiteInput(f, sites, x);
  }

  lemma FormAvail(f: Func, promoted: set<Name>, sites: map<Name, Site>, dom: seq<int>, names: map<(Name, nat), Name>,
      toVar: map<Name, Name>, phis: seq<seq<Phi>>, n: nat, liveIn: seq<set<Name>>, o: Operand, b: nat, k: nat)
    requires SsaInput(f, sites) && PhisPlaced(names, toVar, phis, n) && RawAvail(f, sites, o, b, k) &&
        (o.Var? ==> o.name !in promoted)
    ensures Avail(FormOf(f, promoted, sites, dom, names, liveIn), o, b, k)
  {
    if o.Var? {
      FormSites(f, promoted, sites, dom, names, toVar, phis, n, liveIn, o.name);
    }
  }

  /** The alloca of a slot. */
  lemma SlotAlloca(f: Func, promoted: set<Name>, sites: map<Name, Site>, x: Name) returns (j: nat)
    requires SsaInput(f, sites) && x in promoted && forall p :: p in promoted ==> IsPromotable(f, p)
    ensures j < |f[0].body| && f[0].body[j] == Effect(Some(x), Alloca, []) && x in sites && sites[x] == (0, j + 1)
  {
    assert IsPromotable(f, x);
    j :| 0 <= j < |f[0].body| && f[0].body[j] == Effect(Some(x), Alloca, []);
    assert InstrInput(f, sites, 0, j);
  }

  lemma InputInstr(f: Func, sites: map<Name, Site>, b: nat, k: nat)
    requires SsaInput(f, sites) && b < |f| && k < |f[b].body|
    ensures InstrInput(f, sites, b, k)
  {
  }

  lemma FormParts(f: Func, promoted: set<Name>, sites: map<Name, Site>, dom: seq<int>, names: map<(Name, nat), Name>,
      liveIn: seq<set<Name>>)
    ensures var c := FormOf(f, promoted, sites, dom, names, liveIn);
        c.f == f && c.promoted == promoted &&
        c.dom == dom && c.phis == names
  {
  }

  lemma FrontierFound(g: Graph, frontier: seq<set<nat>>)
    requires |frontier| == |g|
    requires forall v: nat, x: nat :: v < |g| && 0 < x < |g| ==> (x in frontier[v] <==> Meets(g, v, x))
    ensures IsFrontier(g, frontier)
  {
  }

  lemma LivenessSize(f: Func, liveIn: seq<set<Name>>)
    requires SlotLiveness(f, liveIn)
    ensures |liveIn| == |f|
  {
  }

  lemma PlacementLive(c: Form, frontier: seq<set<nat>>)
    requires PlacementOk(c, frontier)
    ensures LiveOk(c)
  {
  }

  lemma EntryReachable(c: Form)
    requires SsaOk(c)
    ensures 0 < |c.f| && Reachable(G(c), 0, 0)
  {
    SinglePath(G(c), 0);
  }

  lemma FormTarget(f: Func, promoted: set<Name>, sites: map<Name, Site>, dom: seq<int>, names: map<(Name, nat), Name>,
      toVar: map<Name, Name>, phis: seq<seq<Phi>>, n: nat, liveIn: seq<set<Name>>, b: nat, k: nat)
    requires SsaInput(f, sites) && PhisPlaced(names, toVar, phis, n) && b < |f| && k < |f[b].body| && forall p ::
        p in promoted ==> IsPromotable(f, p)
    ensures TargetOk(FormOf(f, promoted, sites, dom, names, liveIn), b, k)
  {
    hide PhisPlaced, PhiSites, IsPromotable, SsaInput;
    InputInstr(f, sites, b, k);
    var t := Target(f[b].body[k]);
    if t.Some? {
      FormSites(f, promoted, sites, dom, names, toVar, phis, n, liveIn, t.value);
      if t.value in promoted {
        var j := SlotAlloca(f, promoted, sites, t.value);
      }
    }
  }

  lemma FormUses(f: Func, promoted: set<Name>, sites: map<Name, Site>, dom: seq<int>, names: map<(Name, nat), Name>,
      toVar: map<Name, Name>, phis: seq<seq<Phi>>, n: nat, liveIn: seq<set<Name>>, b: nat, k: nat)
    requires SsaInput(f, sites) && PhisPlaced(names, toVar, phis, n) && b < |f| && k < |f[b].body| &&
        Reachable(Flow(f), 0, b)
    requires forall p :: p in promoted ==> IsPromotable(f, p)
    ensures UsesOk(FormOf(f, promoted, sites, dom, names, liveIn), b, k)
  {
    hide PhisPlaced, PhiSites, Avail, IsPromotable;
    var i := f[b].body[k];
    assert InstrInput(f, sites, b, k);
    SlotOnlyAccessed(f, promoted, b, k);
    match AccessOf(i, promoted)
    case StoreTo(_, v) =>
      assert Uses(i)[0] == v;
      FormAvail(f, promoted, sites, dom, names, toVar, phis, n, liveIn, v, b, k);
    case Other =>
      forall j | 0 <= j < |Uses(i)|
        ensures Avail(FormOf(f, promoted, sites, dom, names, liveIn), Uses(i)[j], b, k)
      {
        FormAvail(f, promoted, sites, dom, names, toVar, phis, n, liveIn, Uses(i)[j], b, k);
      }
    case _ =>
  }

  lemma FormIsOk(f: Func, promoted: set<Name>, sites: map<Name, Site>, dom: seq<int>, names: map<(Name, nat), Name>,
      toVar: map<Name, Name>, phis: seq<seq<Phi>>, n: nat, liveIn: seq<set<Name>>)
    requires SsaInput(f, sites) && PhisPlaced(names, toVar, phis, n) && IsDomTree(Flow(f), dom)
    requires forall p, b: nat :: (p, b) in names ==> p in promoted && 0 < b < |f|
    requires forall p :: p in promoted ==> IsPromotable(f, p)
    ensures SsaOk(FormOf(f, promoted, sites, dom, names, liveIn))
  {
    hide PhisPlaced, PhiSites, FormOf, TargetOk, UsesOk, Avail, IsPromotable, InstrInput, SiteInput, IsDomTree;
    var c := FormOf(f, promoted, sites, dom, names, liveIn);
    FormParts(f, promoted, sites, dom, names, liveIn);
    forall b: nat, k: nat | InBody(c, b, k)
      ensures TargetOk(c, b, k)
    {
      FormTarget(f, promoted, sites, dom, names, toVar, phis, n, liveIn, b, k);
    }
    forall b: nat, k: nat | Reachable(G(c), 0, b) && InBody(c, b, k)
      ensures UsesOk(c, b, k)
    {
      FormUses(f, promoted, sites, dom, names, toVar, phis, n, liveIn, b, k);
    }
    forall b: nat, j: nat | Reachable(G(c), 0, b) && b < |f| && j < |TermUses(f[b].term)|
      ensures Avail(c, TermUses(f[b].term)[j], b, |f[b].body|)
    {
      TermNoSlot(f, promoted, b, j);
      FormAvail(f, promoted, sites, dom, names, toVar, phis, n, liveIn, TermUses(f[b].term)[j], b, |f[b].body|);
    }
    forall p, b: nat | (p, b) in names
      ensures PhiOk(c, p, b)
    {
      PhiSiteIs(names, toVar, phis, n, p, b);
      FormSites(f, promoted, sites, dom, names, toVar, phis, n, liveIn, names[(p, b)]);
    }
    forall p, b: nat, q, d: nat | (p, b) in names && (q, d) in names && names[(p, b)] == names[(q, d)]
      ensures p == q && b == d
    {
      DistinctNames(names, toVar, phis, n, p, b, q, d);
    }
    forall x | x in c.sites
      ensures x !in c.promoted && Genuine(c, x)
    {
      FormGenuine(f, promoted, sites, dom, names, toVar, phis, n, liveIn, x);
    }
  }

  lemma TermNoSlot(f: Func, promoted: set<Name>, b: nat, j: nat)
    requires b < |f| && j < |TermUses(f[b].term)| && forall p :: p in promoted ==> IsPromotable(f, p)
    ensures TermUses(f[b].term)[j].Var? ==> TermUses(f[b].term)[j].name !in promoted
  {
    var o := TermUses(f[b].term)[j];
    if o.Var? {
      assert Var(o.name) in TermUses(f[b].term);
      assert EscapesIn(f[b], o.name);
      assert o.name in promoted ==> IsPromotable(f, o.name);
    }
  }

  lemma DistinctNames(names: map<(Name, nat), Name>, toVar: map<Name, Name>, phis: seq<seq<Phi>>, n: nat, p: Name,
      b: nat, q: Name, d: nat)
    requires PhisPlaced(names, toVar, phis, n) && (p, b) in names && (q, d) in names && names[(p, b)] == names[(q, d)]
    ensures p == q && b == d
  {
  }

  lemma SlotHasSite(f: Func, promoted: set<Name>, sites: map<Name, Site>, x: Name)
    requires SsaInput(f, sites) && forall p :: p in promoted ==> IsPromotable(f, p)
    ensures x in promoted ==> x in sites
  {
    if x in promoted {
      var j := SlotAlloca(f, promoted, sites, x);
    }
  }

  lemma FlagStays(v: Work, w: Work, b: nat, k: nat)
    requires Extends(v, w) && b < |v.removed| && Flagged(v.removed[b], k)
    ensures b < |w.removed| && Flagged(w.removed[b], k)
  {
  }

  lemma FormGenuine(f: Func, promoted: set<Name>, sites: map<Name, Site>, dom: seq<int>, names: map<(Name, nat), Name>,
      toVar: map<Name, Name>, phis: seq<seq<Phi>>, n: nat, liveIn: seq<set<Name>>, x: Name)
    requires SsaInput(f, sites) && PhisPlaced(names, toVar, phis, n) &&
        x in FormOf(f, promoted, sites, dom, names, liveIn).sites
    requires forall p :: p in promoted ==> IsPromotable(f, p)
    ensures x !in promoted && Genuine(FormOf(f, promoted, sites, dom, names, liveIn), x)
  {
    hide PhisPlaced, PhiSites;
    FormSites(f, promoted, sites, dom, names, toVar, phis, n, liveIn, x);
    SlotHasSite(f, promoted, sites, x);
    if x in PhiSites(names) {
      PhiSitesOnly(names, toVar, phis, n, x);
    } else {
      assert SiteInput(f, sites, x);
    }
  }

  /** Flags for the allocas of promoted slots. */
  method FlagAllocas(f: Func, promoted: set<Name>, ghost c: Form) returns (removed: seq<seq<bool>>)
    requires c.f == f && c.promoted == promoted
    ensures |removed| == |f| && forall b :: 0 <= b < |f| ==> |removed[b]| == |f[b].body|
    ensures forall b, k :: 0 <= b < |f| && 0 <= k < |f[b].body| ==> (removed[b][k] <==> AccessAt(c, b, k).AllocaOf?)
  {
    removed := [];
    for b := 0 to |f|
      invariant |removed| == b && forall d :: 0 <= d < b ==> |removed[d]| == |f[d].body|
      invariant forall d, k :: 0 <= d < b && 0 <= k < |f[d].body| ==> (removed[d][k] <==> AccessAt(c, d, k).AllocaOf?)
    {
      var flags: seq<bool> := [];
      for k := 0 to |f[b].body|
        invariant |flags| == k && forall j :: 0 <= j < k ==> (flags[j] <==> AccessAt(c, b, j).AllocaOf?)
      {
        flags := flags + [AccessOf(f[b].body[k], promoted).AllocaOf?];
      }
      removed := removed + [flags];
    }
  }

  lemma StartWork(c: Form, toVar: map<Name, Name>, phis: seq<seq<Phi>>, n: nat, removed: seq<seq<bool>>)
    requires SsaOk(c) && PhisPlaced(c.phis, toVar, phis, n) && |phis| == |removed| == |c.f|
    requires forall b :: 0 <= b < |c.f| ==> |removed[b]| == |c.f[b].body|
    requires forall b, k :: 0 <= b < |c.f| && 0 <= k < |c.f[b].body| ==>
        (removed[b][k] <==> AccessAt(c, b, k).AllocaOf?)
    ensures WorkOk(c, toVar, Work(map[], phis, removed)) && PhiNames(c, toVar)
  {
    hide SsaOk, AccessAt;
    forall b: nat | b < |c.f|
      ensures PhiBlock(c, toVar, phis[b], b)
    {
      forall i | 0 <= i < |phis[b]|
        ensures PhiOfSlot(c, toVar, phis[b][i], b) && ArgsRefine(c, toVar[phis[b][i].result], phis[b][i].args) &&
          phis[b][i].args == []
      {
        assert PlacedPhi(c.phis, toVar, phis[b][i], b);
      }
      forall p | (p, b) in c.phis
        ensures exists i :: 0 <= i < |phis[b]| && phis[b][i].result == c.phis[(p, b)]
      {
        assert NameEntry(c.phis, toVar, phis, n, p, b);
      }
    }
    forall p, b: nat | (p, b) in c.phis
      ensures c.phis[(p, b)] in toVar && toVar[c.phis[(p, b)]] == p
    {
      assert NameEntry(c.phis, toVar, phis, n, p, b);
    }
  }

  lemma StartStacks(c: Form, stacks: Stacks)
    requires stacks == map p | p in c.promoted :: []
    ensures TopsMatch(c, stacks, TopsBefore(c, 0))
  {
  }

  lemma FormPlacement(f: Func, promoted: set<Name>, sites: map<Name, Site>, dom: seq<int>, names: map<(Name, nat),
      Name>, liveIn: seq<set<Name>>, frontier: seq<set<nat>>, c0: Form)
    requires SlotLiveness(f, liveIn) && c0.f == f && c0.promoted == promoted && IsFrontier(Flow(f), frontier)
    requires forall p :: p in promoted ==> IsPromotable(f, p)
    requires forall p :: p in promoted ==>
        LeastPhis(frontier, DefBlocks(c0, p), LiveBlocks(liveIn, p), NamedBlocks(names, |f|, p))
    ensures PlacementOk(FormOf(f, promoted, sites, dom, names, liveIn), frontier)
  {
    var c := FormOf(f, promoted, sites, dom, names, liveIn);
    SlotsLiveOk(f, promoted, c.sites, dom, names, liveIn);
    forall p | p in promoted
      ensures PhiClosed(frontier, DefBlocks(c, p), c.live[p], PhiBlocks(c, p))
    {
      assert PhiBlocks(c, p) == NamedBlocks(names, |f|, p);
      SameDefBlocks(c, c0, p);
    }
  }

  lemma SameDefBlocks(c: Form, d: Form, p: Name)
    requires c.f == d.f && c.promoted == d.promoted
    ensures DefBlocks(c, p) == DefBlocks(d, p)
  {
    forall b: nat
      ensures StoresIn(c, p, b) <==> StoresIn(d, p, b)
    {
      forall k
        ensures Stores(c, p, b, k) <==> Stores(d, p, b, k)
      {
      }
      if StoresIn(c, p, b) {
        var k :| Stores(c, p, b, k);
        assert Stores(d, p, b, k);
      }
      if StoresIn(d, p, b) {
        var k :| Stores(d, p, b, k);
        assert Stores(c, p, b, k);
      }
    }
  }

  /** The names that are given a value before the function starts. */
  ghost function Params(sites: map<Name, Site>): iset<Name> {
    iset x: Name | x in sites && sites[x] == (0, 0)
  }

  /** The whole pass on one function; `sites` tells where each variable of the input is defined. Also returned are the
   * names of the phis, and where the slots are live. */
  method Mem2reg(f: Func, preds: Graph, ghost sites: map<Name, Site>)
    returns (r: Func, promoted: set<Name>, ghost names: map<(Name, nat), Name>, ghost live: seq<set<Name>>)
    requires SsaInput(f, sites) && SlotsStoredFirst(f) && Converses(Flow(f), preds)
    ensures forall p :: p in promoted <==> IsPromotable(f, p)
    // The result is in SSA form, the slots are gone, and so is nothing but the accesses to them.
    ensures SameEdges(f, r) && OnlyAccessesGone(f, r, promoted) && NoneLeftOf(r, promoted)
    ensures UniqueResults(r, Params(sites)) && UsesDominated(r, Params(sites)) && PhisComplete(r)
    // The phis stand exactly where definitions of a slot meet while it is live.
    ensures ExactlyLive(f, live) && LeastNames(f, promoted, live, names) && PhisNamed(r, names)
    // Nothing can tell the difference.
    ensures forall w: World, env: Env, n: nat :: (forall x :: x in env ==>
        x in sites && sites[x] == (0, 0) &&
        x !in promoted) ==>
      SameOutcome(Runs(w, WithSlots(f, promoted), Start(env), n), Runs(w, r, Start(env), n))
  {
    hide PhisPlaced, LeastPhis, IsDomTree, IsFrontier, InFrontier, Reachable, SsaOk, LiveOk, PlacementOk, WorkOk,
      PhiNames, IsChildren, Done, Promoted, FormOf, IsPromotable,
      Extends, TopsMatch, Runs, SlotLiveness, DefBlocks, NamedBlocks, LiveBlocks, StartsWithParams, Corresponds,
        WithSlots, Converses, CoversLive, ExactlyLive, SlotsStoredFirst, UniqueResults, UsesDominated, NoneLeftOf,
        OnlyAccessesGone, SameEdges, PhisNamed, PhisComplete, LeastNames, Meets, Resulting, LeastMeets;
    var liveIn := CalcSlotLiveness(f, preds);
    ExactCovers(f, liveIn);
    CoveredIsLive(f, liveIn);
    var cfg := new CFG(Flow(f), preds);
    cfg.CalcDominatorTree();
    cfg.CalcFrontier();
    FrontierFound(Flow(f), cfg.frontier);
    promoted := ChoosePromoted(f);
    ghost var c0 := SlotForm(f, promoted, map[], [], map[], liveIn);
    live := liveIn;
    LivenessSize(f, liveIn);
    var toVar, phis;
    names, toVar, phis := PlaceAll(f, promoted, liveIn, cfg, c0);
    ghost var n: nat :| PhisPlaced(names, toVar, phis, n);
    FormIsOk(f, promoted, sites, cfg.dom_, names, toVar, phis, n, liveIn);
    ghost var c := FormOf(f, promoted, sites, cfg.dom_, names, liveIn);
    FormParts(f, promoted, sites, cfg.dom_, names, liveIn);
    FormPlacement(f, promoted, sites, cfg.dom_, names, liveIn, cfg.frontier, c0);
    PlacementLive(c, cfg.frontier);
    var removed := FlagAllocas(f, promoted, c);
    StartWork(c, toVar, phis, n, removed);
    var renamer := new Renamer(f, promoted, cfg.domChild, toVar, phis, removed, c);
    r := Rename(renamer, c, cfg.frontier);
    PassResult(f, promoted, sites, cfg.dom_, names, toVar, phis, n, liveIn, cfg.frontier, c0, r);
    NamesAreLeast(f, promoted, names, toVar, phis, n, liveIn, cfg.frontier, c0);
    forall w: World, env: Env, m: nat | forall x :: x in env ==> x in sites && sites[x] == (0, 0) && x !in promoted
      ensures SameOutcome(Runs(w, WithSlots(f, promoted), Start(env), m), Runs(w, r, Start(env), m))
    {
      PassKeepsRuns(f, promoted, sites, cfg.dom_, names, toVar, phis, n, liveIn, cfg.frontier, r, w, env, m);
    }
  }

  lemma PassKeepsRuns(f: Func, promoted: set<Name>, sites: map<Name, Site>, dom: seq<int>,
      names: map<(Name, nat), Name>, toVar: map<Name, Name>, phis: seq<seq<Phi>>, n: nat, liveIn: seq<set<Name>>,
      frontier: seq<set<nat>>, r: Func, w: World, env: Env, m: nat)
    requires SsaInput(f, sites) && PhisPlaced(names, toVar, phis, n)
    requires var c := FormOf(f, promoted, sites, dom, names, liveIn);
      SsaOk(c) && PlacementOk(c, frontier) && Promoted(c, r)
    requires forall x :: x in env ==> x in sites && sites[x] == (0, 0) && x !in promoted
    ensures SameOutcome(Runs(w, WithSlots(f, promoted), Start(env), m), Runs(w, r, Start(env), m))
  {
    hide PhisPlaced, SsaOk, PlacementOk, Promoted, FormOf, Runs, StartsWithParams, Corresponds, WithSlots, SsaInput;
    var c := FormOf(f, promoted, sites, dom, names, liveIn);
    FormParts(f, promoted, sites, dom, names, liveIn);
    ParamsAreSites(f, promoted, sites, dom, names, toVar, phis, n, liveIn, env);
    PromotionKeepsRuns(c, frontier, r, w, env, m);
    CorrespondsSame(c, Runs(w, WithSlots(f, promoted), Start(env), m), Runs(w, r, Start(env), m));
  }

  lemma FormResulting(f: Func, promoted: set<Name>, sites: map<Name, Site>, dom: seq<int>,
      names: map<(Name, nat), Name>, toVar: map<Name, Name>, phis: seq<seq<Phi>>, n: nat, liveIn: seq<set<Name>>,
      frontier: seq<set<nat>>, r: Func)
    requires SsaInput(f, sites) && PhisPlaced(names, toVar, phis, n) && forall p :: p in promoted ==> IsPromotable(f, p)
    requires var c := FormOf(f, promoted, sites, dom, names, liveIn);
      SsaOk(c) && PlacementOk(c, frontier) && Promoted(c, r) && SameEdges(c.f, r)
    ensures Resulting(FormOf(f, promoted, sites, dom, names, liveIn), frontier, r, Params(sites))
  {
    hide PlacementOk, Promoted, SameEdges, PhisPlaced, SsaInput, PhiSites, IsPromotable;
    var c := FormOf(f, promoted, sites, dom, names, liveIn);
    FormParts(f, promoted, sites, dom, names, liveIn);
    forall x | x in c.sites
      ensures c.sites[x] == (0, 0) <==> x in Params(sites)
    {
      FormSites(f, promoted, sites, dom, names, toVar, phis, n, liveIn, x);
      if x in PhiSites(names) {
        PhiSitesOnly(names, toVar, phis, n, x);
        var p :| (p, PhiSites(names)[x].0) in names && names[(p, PhiSites(names)[x].0)] == x;
        assert PhiOk(c, p, PhiSites(names)[x].0);
      }
    }
  }

  /** What the pass leaves, told of the result alone. */
  lemma PassResult(f: Func, promoted: set<Name>, sites: map<Name, Site>, dom: seq<int>, names: map<(Name, nat), Name>,
      toVar: map<Name, Name>, phis: seq<seq<Phi>>, n: nat, liveIn: seq<set<Name>>, frontier: seq<set<nat>>, c0: Form,
      r: Func)
    requires SsaInput(f, sites) && PhisPlaced(names, toVar, phis, n) && forall p :: p in promoted ==> IsPromotable(f, p)
    requires var c := FormOf(f, promoted, sites, dom, names, liveIn);
      SsaOk(c) && PlacementOk(c, frontier) && Promoted(c, r) && SameEdges(c.f, r)
    requires forall p, b: nat :: (p, b) in names ==> p in promoted && 0 < b < |f|
    requires forall p :: p in promoted ==>
        LeastPhis(frontier, DefBlocks(c0, p), LiveBlocks(liveIn, p), NamedBlocks(names, |f|, p))
    ensures SameEdges(f, r) && OnlyAccessesGone(f, r, promoted) && NoneLeftOf(r, promoted)
    ensures UniqueResults(r, Params(sites)) && UsesDominated(r, Params(sites)) && PhisNamed(r, names) && PhisComplete(r)
  {
    hide PhisComplete, SsaOk, PlacementOk, Promoted, SameEdges, PhisPlaced, SsaInput, IsPromotable, FormOf,
      UniqueResults,
      UsesDominated, PhisNamed, NoneLeftOf, OnlyAccessesGone, LeastPhis, DefBlocks, LiveBlocks, NamedBlocks, Resulting;
    var c := FormOf(f, promoted, sites, dom, names, liveIn);
    FormParts(f, promoted, sites, dom, names, liveIn);
    FormResulting(f, promoted, sites, dom, names, toVar, phis, n, liveIn, frontier, r);
    ResultInForm(c, frontier, r, Params(sites));
    PhisInLive(f, promoted, sites, dom, names, liveIn, frontier, c0);
    PhisAreNamed(c, frontier, r, Params(sites));
  }

  lemma ResultInForm(c: Form, frontier: seq<set<nat>>, r: Func, params: iset<Name>)
    requires Resulting(c, frontier, r, params)
    ensures UniqueResults(r, params) && UsesDominated(r, params) && NoneLeftOf(r, c.promoted) &&
        OnlyAccessesGone(c.f, r, c.promoted)
  {
    UsesAreDominated(c, frontier, r, params);
    hide SsaOk, PlacementOk, Promoted, SameEdges, UsesDominated, NoneLeftOf, UniqueResults;
    ResultsUnique(c, r, params);
    AccessesAreGone(c, r);
  }

  lemma NamesAreLeast(f: Func, promoted: set<Name>, names: map<(Name, nat), Name>, toVar: map<Name, Name>,
      phis: seq<seq<Phi>>, n: nat, liveIn: seq<set<Name>>, frontier: seq<set<nat>>, c0: Form)
    requires PhisPlaced(names, toVar, phis, n) && |frontier| == |f| == |liveIn| && EntryHasNoPredecessor(f)
    requires c0.f == f && c0.promoted == promoted
    requires forall p, b: nat :: (p, b) in names ==> p in promoted && 0 < b < |f|
    requires forall v: nat, x: nat :: v < |f| && 0 < x < |f| ==> (x in frontier[v] <==> Meets(Flow(f), v, x))
    requires forall v: nat, x: nat :: v < |f| && x in frontier[v] ==> 0 < x < |f|
    requires forall p :: p in promoted ==>
        LeastPhis(frontier, DefBlocks(c0, p), LiveBlocks(liveIn, p), NamedBlocks(names, |f|, p))
    ensures LeastNames(f, promoted, liveIn, names)
  {
    hide LeastMeets, LeastPhis, Meets, DefBlocks, LiveBlocks, NamedBlocks;
    forall p | p in promoted
      ensures LeastMeets(f, p, liveIn, NamedBlocks(names, |f|, p))
    {
      LiveBlocksAre(liveIn, p);
      DefBlocksAre(c0, p);
      LeastIsLeast(f, p, promoted, frontier, DefBlocks(c0, p), liveIn, LiveBlocks(liveIn, p),
        NamedBlocks(names, |f|, p));
    }
  }

  lemma LiveBlocksAre(liveIn: seq<set<Name>>, p: Name)
    ensures forall b: nat :: b in LiveBlocks(liveIn, p) <==> b < |liveIn| && p in liveIn[b]
  {
  }

  lemma DefBlocksAre(c: Form, p: Name)
    requires p in c.promoted
    ensures forall b: nat :: b in DefBlocks(c, p) <==> b < |c.f| && StoredIn(c.f, p, b)
  {
    forall b: nat | b < |c.f|
      ensures StoresIn(c, p, b) <==> StoredIn(c.f, p, b)
    {
      forall k: nat | k < |c.f[b].body|
        ensures Stores(c, p, b, k) <==> StoresSlot(c.f[b].body[k], p)
      {
        SameAccess(c.f[b].body[k], p, c.promoted);
      }
      if StoresIn(c, p, b) {
        var k: nat :| Stores(c, p, b, k);
        assert StoresSlot(c.f[b].body[k], p);
      }
      if StoredIn(c.f, p, b) {
        var k: nat :| k < |c.f[b].body| && StoresSlot(c.f[b].body[k], p);
        assert Stores(c, p, b, k);
      }
    }
  }

  /** Phis are placed where their slot is live. */
  lemma PhisInLive(f: Func, promoted: set<Name>, sites: map<Name, Site>, dom: seq<int>, names: map<(Name, nat), Name>,
      liveIn: seq<set<Name>>, frontier: seq<set<nat>>, c0: Form)
    requires forall p, b: nat :: (p, b) in names ==> p in promoted && 0 < b < |f|
    requires forall p :: p in promoted ==>
        LeastPhis(frontier, DefBlocks(c0, p), LiveBlocks(liveIn, p), NamedBlocks(names, |f|, p))
    ensures var c := FormOf(f, promoted, sites, dom, names, liveIn);
      forall p, b: nat :: (p, b) in c.phis ==> p in c.promoted && b in c.live[p]
  {
    hide LeastPhis, DefBlocks, LiveBlocks;
    forall p, b: nat | (p, b) in names
      ensures b in LiveBlocks(liveIn, p)
    {
      LeastInLive(frontier, DefBlocks(c0, p), LiveBlocks(liveIn, p), NamedBlocks(names, |f|, p));
      assert b in NamedBlocks(names, |f|, p);
    }
  }

  lemma CorrespondsSame(c: Form, x: Config, y: Config)
    requires Corresponds(c, x, y)
    ensures SameOutcome(x, y)
  {
  }

  lemma ParamsAreSites(f: Func, promoted: set<Name>, sites: map<Name, Site>, dom: seq<int>, names: map<(Name, nat),
      Name>, toVar: map<Name, Name>, phis: seq<seq<Phi>>, n: nat, liveIn: seq<set<Name>>, env: Env)
    requires SsaInput(f, sites) && PhisPlaced(names, toVar, phis, n)
    requires forall x :: x in env ==> x in sites && sites[x] == (0, 0) && x !in promoted
    ensures StartsWithParams(FormOf(f, promoted, sites, dom, names, liveIn), env)
  {
    hide PhisPlaced, SsaInput;
    forall x | x in env
      ensures x in FormOf(f, promoted, sites, dom, names, liveIn).sites &&
          FormOf(f, promoted, sites, dom, names, liveIn).sites[x] == (0, 0)
    {
      FormSites(f, promoted, sites, dom, names, toVar, phis, n, liveIn, x);
    }
  }

  /** Rename from the entry, then resolve. */
  method Rename(renamer: Renamer, ghost c: Form, ghost frontier: seq<set<nat>>) returns (r: Func)
    requires renamer.c == c && renamer.Context() && WorkOk(c, renamer.toVar, renamer.Now()) && PlacementOk(c, frontier)
    requires renamer.stacks == map p | p in c.promoted :: []
    requires forall b, k :: 0 <= b < |c.f| && 0 <= k < |c.f[b].body| && AccessAt(c, b, k).AllocaOf? ==>
        b < |renamer.removed| && Flagged(renamer.removed[b], k)
    modifies renamer
    ensures Promoted(c, r) && SameEdges(c.f, r)
  {
    hide SsaOk, LiveOk, PlacementOk, WorkOk, PhiNames, IsChildren, Done, Promoted, TopsMatch, Reachable, Dominates,
      Extends;
    EntryReachable(c);
    StartStacks(c, renamer.stacks);
    ghost var before := renamer.Now();
    renamer.BatchedDFSRecursive(0);
    forall b: nat | Reachable(G(c), 0, b)
      ensures Done(c, renamer.Now(), b)
    {
      RootDominates(G(c), b);
    }
    WorkSizes(c, renamer.toVar, before);
    WorkSizes(c, renamer.toVar, renamer.Now());
    forall b, k | 0 <= b < |c.f| && 0 <= k < |c.f[b].body| && AccessAt(c, b, k).AllocaOf?
      ensures Flagged(renamer.removed[b], k)
    {
      FlagStays(before, renamer.Now(), b, k);
    }
    r := renamer.PhiRewriteAll(frontier);
  }
}
