/** Where stack slots are live: block summaries from loads and stores, then block-level liveness. */
module SlotLivenessAnalysis {
  import opened Graphs
  import opened IR
  import opened SsaForms
  import opened Liveness

  // ---- Accesses of a slot ----

  predicate LoadsSlot(i: Instr, p: Name) {
    AccessOf(i, {p}).LoadOf?
  }

  predicate StoresSlot(i: Instr, p: Name) {
    AccessOf(i, {p}).StoreTo?
  }

  /** Some instruction before the `k`-th stores to `p`. */
  ghost predicate StoredBefore(body: seq<Instr>, p: Name, k: nat) {
    exists j: nat :: j < k && j < |body| && StoresSlot(body[j], p)
  }

  /** Some instruction before the `k`-th loads `p` although nothing in the block has stored to it. */
  ghost predicate ExposedBefore(body: seq<Instr>, p: Name, k: nat) {
    exists j: nat :: j < k && j < |body| && LoadsSlot(body[j], p) && !StoredBefore(body, p, j)
  }

  ghost predicate Exposed(f: Func, p: Name, b: nat) {
    b < |f| && ExposedBefore(f[b].body, p, |f[b].body|)
  }

  ghost predicate StoredIn(f: Func, p: Name, b: nat) {
    b < |f| && StoredBefore(f[b].body, p, |f[b].body|)
  }

  /** The path leads from block `b` to a load of `p`, and nothing on it stores to `p` before. */
  ghost predicate UnstoredLoad(f: Func, p: Name, b: nat, path: seq<nat>) {
    && IsPath(Flow(f), path) && path[0] == b && Exposed(f, p, path[|path| - 1])
    && forall i :: 0 <= i < |path| - 1 ==> !StoredIn(f, p, path[i])
  }

  /** From block `b` on, `p` may be loaded before it is stored to. */
  ghost predicate SlotLive(f: Func, p: Name, b: nat) {
    exists path :: UnstoredLoad(f, p, b, path)
  }

  /** On every path from the entry, each load of `p` has a store before it. */
  ghost predicate StoredFirst(f: Func, p: Name) {
    !SlotLive(f, p, 0)
  }

  // ---- Block summaries ----

  /** The slot that an instruction uses, and the slot that it defines. */
  function UsedSlot(i: Instr): Option<Name> {
    match i
    case Effect(Some(_), Load, args) => if |args| == 1 && args[0].Var? then Some(args[0].name) else None
    case _ => None
  }

  function DefinedSlot(i: Instr): Option<Name> {
    match i
    case Effect(None, Store, args) => if |args| == 2 && args[1].Var? then Some(args[1].name) else None
    case _ => None
  }

  lemma SlotAccess(i: Instr, p: Name)
    ensures (UsedSlot(i) == Some(p) <==> LoadsSlot(i, p)) && (DefinedSlot(i) == Some(p) <==> StoresSlot(i, p))
    ensures UsedSlot(i).None? || DefinedSlot(i).None?
  {
  }

  lemma StoredMore(body: seq<Instr>, p: Name, k: nat)
    requires k < |body|
    ensures StoredBefore(body, p, k + 1) <==> StoredBefore(body, p, k) || StoresSlot(body[k], p)
  {
  }

  lemma ExposedMore(body: seq<Instr>, p: Name, k: nat)
    requires k < |body|
    ensures ExposedBefore(body, p, k + 1) <==>
        ExposedBefore(body, p, k) ||
        (LoadsSlot(body[k], p) && !StoredBefore(body, p, k))
  {
    hide LoadsSlot, StoredBefore;
  }

  /** Numbers of the slots met so far, all different. */
  ghost predicate Numbering(ids: map<Name, nat>, count: nat) {
    && (forall p :: p in ids ==> ids[p] < count)
    && (forall p, q :: p in ids && q in ids && p != q ==> ids[p] != ids[q])
  }

  /** The sets describe the first `k` instructions. */
  ghost predicate Summary(body: seq<Instr>, k: nat, ids: map<Name, nat>, count: nat, use: set<VarId>, def: set<VarId>) {
    && (forall x :: x in use || x in def ==> x < count)
    && (forall p :: (ExposedBefore(body, p, k) || StoredBefore(body, p, k)) ==> p in ids)
    && (forall p :: p in ids ==>
      (ids[p] in use <==> ExposedBefore(body, p, k)) &&
      (ids[p] in def <==> StoredBefore(body, p, k)))
  }

  lemma NumberedLater(body: seq<Instr>, k: nat, ids: map<Name, nat>, count: nat, use: set<VarId>, def: set<VarId>,
      p: Name)
    requires Summary(body, k, ids, count, use, def) && Numbering(ids, count) && p !in ids
    ensures Summary(body, k, ids[p := count], count + 1, use, def) && Numbering(ids[p := count], count + 1)
  {
    hide ExposedBefore, StoredBefore;
  }

  class CFGBuilder {
    var ids: map<Name, nat>
    var count: nat
    var curDef: set<VarId>
    var curUse: set<VarId>

    constructor ()
      ensures ids == map[] && count == 0
    {
      ids, count, curDef, curUse := map[], 0, {}, {};
    }

    /** The number of a slot; a new one when it has none. */
    method QueryAllocated(p: Name) returns (id: nat)
      requires Numbering(ids, count)
      modifies `ids, `count
      ensures Numbering(ids, count) && p in ids && id == ids[p]
      ensures if p in old(ids) then ids == old(ids) && count == old(count) else
          ids == old(ids)[p := old(count)] &&
          count == old(count) + 1
    {
      if p !in ids {
        ids := ids[p := count];
        count := count + 1;
      }
      id := ids[p];
    }

    /** What one instruction adds to the summary: uses not defined yet, then definitions. */
    method Merge(use: set<VarId>, def: set<VarId>)
      modifies `curUse, `curDef
      ensures curUse == old(curUse) + (use - old(curDef)) && curDef == old(curDef) + def
    {
      curUse := curUse + (use - curDef);
      curDef := curDef + def;
    }

    method VisitInstruction(ghost body: seq<Instr>, ghost k: nat, i: Instr)
      requires Numbering(ids, count) && k < |body| && i == body[k] && Summary(body, k, ids, count, curUse, curDef)
      modifies this
      ensures Numbering(ids, count) && Summary(body, k + 1, ids, count, curUse, curDef) &&
          Extended(old(ids), old(count), ids, count)
    {
      hide Summary, StoredBefore, ExposedBefore, Numbering;
      var use, def := {}, {};
      match UsedSlot(i) {
        case Some(p) =>
          if p !in ids {
            NumberedLater(body, k, ids, count, curUse, curDef, p);
          }
          var id := QueryAllocated(p);
          use := {id};
        case None =>
      }
      match DefinedSlot(i) {
        case Some(p) =>
          if p !in ids {
            NumberedLater(body, k, ids, count, curUse, curDef, p);
          }
          var id := QueryAllocated(p);
          def := {id};
        case None =>
      }
      ghost var use0, def0 := curUse, curDef;
      Merge(use, def);
      SummaryMore(body, k, ids, count, use0, def0, use, def);
    }

    /** The upward exposed loads and the stores of one block. */
    method VisitBlock(blk: Block) returns (use: set<VarId>, def: set<VarId>)
      requires Numbering(ids, count)
      modifies this
      ensures Numbering(ids, count) && Summary(blk.body, |blk.body|, ids, count, use, def) &&
          Extended(old(ids), old(count), ids, count)
    {
      curDef, curUse := {}, {};
      assert Summary(blk.body, 0, ids, count, curUse, curDef);
      hide Summary, Numbering;
      for k := 0 to |blk.body|
        invariant Numbering(ids, count) && Summary(blk.body, k, ids, count, curUse, curDef) &&
            Extended(old(ids), old(count), ids, count)
      {
        VisitInstruction(blk.body, k, blk.body[k]);
      }
      use, def := curUse, curDef;
    }
  }

  /** Old numbers stay, new ones are at least `count`. */
  ghost predicate Extended(ids: map<Name, nat>, count: nat, ids': map<Name, nat>, count': nat) {
    && count <= count' && (forall p :: p in ids ==> p in ids' && ids'[p] == ids[p])
    && (forall p :: p in ids' && p !in ids ==> count <= ids'[p])
  }

  lemma SummaryMore(body: seq<Instr>, k: nat, ids: map<Name, nat>, count: nat, use0: set<VarId>, def0: set<VarId>,
      use: set<VarId>, def: set<VarId>)
    requires k < |body| && Numbering(ids, count) && Summary(body, k, ids, count, use0, def0)
    requires match UsedSlot(body[k]) case Some(p) => p in ids && use == {ids[p]} case None => use == {}
    requires match DefinedSlot(body[k]) case Some(p) => p in ids && def == {ids[p]} case None => def == {}
    ensures Summary(body, k + 1, ids, count, use0 + (use - def0), def0 + def)
  {
    hide StoredBefore, ExposedBefore, LoadsSlot, StoresSlot, UsedSlot, DefinedSlot;
    forall p
      ensures (ExposedBefore(body, p, k + 1) || StoredBefore(body, p, k + 1)) ==> p in ids
      ensures p in ids ==>
          (ids[p] in use0 + (use - def0) <==> ExposedBefore(body, p, k + 1)) &&
          (ids[p] in def0 + def <==> StoredBefore(body, p, k + 1))
    {
      SlotAccess(body[k], p);
      StoredMore(body, p, k);
      ExposedMore(body, p, k);
    }
  }

  lemma SummaryKept(body: seq<Instr>, ids: map<Name, nat>, count: nat, ids': map<Name, nat>, count': nat,
      use: set<VarId>, def: set<VarId>)
    requires Summary(body, |body|, ids, count, use, def) && Extended(ids, count, ids', count')
    ensures Summary(body, |body|, ids', count', use, def)
  {
    hide StoredBefore, ExposedBefore;
  }

  // ---- Live slots ----

  /** The sets of slots recorded on entry to each reachable block are exactly the live ones. */
  ghost predicate ExactlyLive(f: Func, liveIn: seq<set<Name>>) {
    |liveIn| == |f| && forall b: nat, p :: b < |f| && Reachable(Flow(f), 0, b) ==>
      (p in liveIn[b] <==> SlotLive(f, p, b))
  }

  /** What renaming relies on: loads and liveness along edges are covered, and at the entry nothing is live that is
   * stored first. */
  ghost predicate CoversLive(f: Func, liveIn: seq<set<Name>>) {
    && |liveIn| == |f|
    && (forall b: nat, p :: b < |f| && Reachable(Flow(f), 0, b) && Exposed(f, p, b) ==> p in liveIn[b])
    && (forall b: nat, v: nat, p ::
      b < |f| && Reachable(Flow(f), 0, b) && v in Successors(f[b].term) && v < |f| &&
      p in liveIn[v] && !StoredIn(f, p, b) ==>
      p in liveIn[b])
    && (forall p :: |f| > 0 && p in liveIn[0] ==> !StoredFirst(f, p))
  }

  /** The summaries of the first `n` blocks. */
  ghost predicate Summaries(f: Func, n: nat, ids: map<Name, nat>, count: nat, uses: seq<set<VarId>>,
      defs: seq<set<VarId>>) {
    n <= |f| && |uses| == |defs| == n && forall b :: 0 <= b < n ==>
      Summary(f[b].body, |f[b].body|, ids, count, uses[b], defs[b])
  }

  method CalcSlotLiveness(f: Func, preds: Graph) returns (liveIn: seq<set<Name>>)
    requires ValidTargets(f) && Converses(Flow(f), preds)
    ensures ExactlyLive(f, liveIn)
  {
    hide Summary, Converses, LiveIn, Balanced, SlotLive, Numbering, LivenessSolver.Repr;
    var builder := new CFGBuilder();
    var uses: seq<set<VarId>>, defs: seq<set<VarId>> := [], [];
    NothingNumbered();
    for b := 0 to |f|
      invariant Numbering(builder.ids, builder.count) && Summaries(f, b, builder.ids, builder.count, uses, defs)
    {
      ghost var ids, count := builder.ids, builder.count;
      var use, def := builder.VisitBlock(f[b]);
      forall c | 0 <= c < b
        ensures Summary(f[c].body, |f[c].body|, builder.ids, builder.count, uses[c], defs[c])
      {
        SummaryKept(f[c].body, ids, count, builder.ids, builder.count, uses[c], defs[c]);
      }
      uses, defs := uses + [use], defs + [def];
    }
    SummariesFit(f, builder.ids, builder.count, uses, defs);
    var solver := new LivenessSolver(Flow(f), preds, uses, defs, builder.count);
    solver.CalcInOut();
    var ins := LivenessSolver.Listed(solver.in_);
    var ids := builder.ids;
    liveIn := seq(|f|, b requires 0 <= b < |f| => set p | p in ids && b < |ins| && ids[p] in ins[b]);
    SolverExact(f, ids, builder.count, uses, defs, ins, liveIn);
  }

  lemma NothingNumbered()
    ensures Numbering(map[], 0)
  {
  }

  lemma SummariesFit(f: Func, ids: map<Name, nat>, count: nat, uses: seq<set<VarId>>, defs: seq<set<VarId>>)
    requires Summaries(f, |f|, ids, count, uses, defs)
    ensures FitBelow(uses, count) && FitBelow(defs, count)
  {
    hide ExposedBefore, StoredBefore;
    forall b, x | 0 <= b < |f| && (x in uses[b] || x in defs[b])
      ensures x < count
    {
      assert Summary(f[b].body, |f[b].body|, ids, count, uses[b], defs[b]);
    }
  }

  lemma SolverExact(f: Func, ids: map<Name, nat>, count: nat, uses: seq<set<VarId>>, defs: seq<set<VarId>>,
      ins: seq<set<VarId>>, liveIn: seq<set<Name>>)
    requires ValidTargets(f) && Summaries(f, |f|, ids, count, uses, defs) && |ins| == |liveIn| == |f|
    requires forall b, x :: 0 <= b < |f| && Reachable(Flow(f), 0, b) ==>
        (x in ins[b] <==> LiveIn(Flow(f), uses, defs, b, x))
    requires forall b, p :: 0 <= b < |f| ==> (p in liveIn[b] <==> p in ids && ids[p] in ins[b])
    ensures ExactlyLive(f, liveIn)
  {
    hide Reachable, LiveIn, SlotLive, Summaries;
    forall b: nat, p | b < |f| && Reachable(Flow(f), 0, b)
      ensures p in liveIn[b] <==> SlotLive(f, p, b)
    {
      SlotLiveExactly(f, ids, count, uses, defs, b, p);
    }
  }

  /** Liveness of the number of a slot over the summaries is liveness of the slot over loads and stores. */
  lemma SlotLiveExactly(f: Func, ids: map<Name, nat>, count: nat, uses: seq<set<VarId>>, defs: seq<set<VarId>>, b: nat,
      p: Name)
    requires ValidTargets(f) && Summaries(f, |f|, ids, count, uses, defs)
    ensures SlotLive(f, p, b) <==> p in ids && LiveIn(Flow(f), uses, defs, b, ids[p])
  {
    hide Exposed, StoredIn, Summaries;
    if path :| UnstoredLoad(f, p, b, path) {
      ExposedIsNumbered(f, ids, count, uses, defs, path[|path| - 1], p);
      SlotPath(f, ids, count, uses, defs, b, p, path);
    }
    if p in ids && LiveIn(Flow(f), uses, defs, b, ids[p]) {
      var path :| LiveAlong(Flow(f), uses, defs, b, ids[p], path);
      SlotPath(f, ids, count, uses, defs, b, p, path);
    }
  }

  lemma ExposedIsNumbered(f: Func, ids: map<Name, nat>, count: nat, uses: seq<set<VarId>>, defs: seq<set<VarId>>,
      c: nat,
      p: Name)
    requires Summaries(f, |f|, ids, count, uses, defs) && c < |f|
    ensures Exposed(f, p, c) || StoredIn(f, p, c) ==> p in ids
    ensures p in ids ==> (ids[p] in uses[c] <==> Exposed(f, p, c)) && (ids[p] in defs[c] <==> StoredIn(f, p, c))
  {
    hide ExposedBefore, StoredBefore;
    assert Summary(f[c].body, |f[c].body|, ids, count, uses[c], defs[c]);
  }

  lemma SlotPath(f: Func, ids: map<Name, nat>, count: nat, uses: seq<set<VarId>>, defs: seq<set<VarId>>, b: nat,
      p: Name,
      path: seq<nat>)
    requires ValidTargets(f) && Summaries(f, |f|, ids, count, uses, defs) && p in ids && IsPath(Flow(f), path)
    ensures LiveAlong(Flow(f), uses, defs, b, ids[p], path) <==> UnstoredLoad(f, p, b, path)
  {
    hide Exposed, StoredIn, Summary;
    forall i | 0 <= i < |path|
      ensures path[i] < |f|
      ensures ids[p] in uses[path[i]] <==> Exposed(f, p, path[i])
      ensures ids[p] in defs[path[i]] <==> StoredIn(f, p, path[i])
    {
      ExposedIsNumbered(f, ids, count, uses, defs, path[i], p);
    }
  }

  /** The exact sets are what renaming relies on. */
  lemma ExactCovers(f: Func, liveIn: seq<set<Name>>)
    requires ValidTargets(f) && ExactlyLive(f, liveIn)
    ensures CoversLive(f, liveIn)
  {
    hide Reachable, Exposed, StoredIn;
    forall b: nat, p | b < |f| && Reachable(Flow(f), 0, b) && Exposed(f, p, b)
      ensures p in liveIn[b]
    {
      assert UnstoredLoad(f, p, b, [b]);
    }
    forall b: nat, v: nat, p | b < |f| && Reachable(Flow(f), 0, b) && v in Successors(f[b].term) && v < |f| &&
        p in liveIn[v] && !StoredIn(f, p, b)
      ensures p in liveIn[b]
    {
      NextReachable(f, b, v);
      var path :| UnstoredLoad(f, p, v, path);
      LiveThrough(f, p, b, v, path);
    }
    SinglePath(Flow(f), 0);
    assert Reachable(Flow(f), 0, 0) by {
      EntryReachable(f);
    }
  }

  lemma EntryReachable(f: Func)
    requires ValidTargets(f)
    ensures Reachable(Flow(f), 0, 0)
  {
    SinglePath(Flow(f), 0);
  }

  lemma LiveThrough(f: Func, p: Name, b: nat, v: nat, path: seq<nat>)
    requires b < |f| && v in Successors(f[b].term) && UnstoredLoad(f, p, v, path) && !StoredIn(f, p, b)
    ensures SlotLive(f, p, b)
  {
    hide Exposed, StoredIn;
    var longer := [b] + path;
    assert forall i :: 0 < i < |longer| ==> longer[i] == path[i - 1];
    forall i | 0 <= i < |longer| - 1
      ensures Edge(Flow(f), longer[i], longer[i + 1]) && !StoredIn(f, p, longer[i])
    {
      if i > 0 {
        assert Edge(Flow(f), path[i - 1], path[i]);
      }
    }
    assert UnstoredLoad(f, p, b, longer);
  }
}
