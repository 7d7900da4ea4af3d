/** Promotion to SSA keeps every run: loads read what their replacements hold. */
module PromotionRuns {
  import opened Graphs
  import opened IR
  import opened DominanceFrontiers
  import opened SsaForms

  // ---- The promoted function ----

  ghost function Resolve(c: Form): Operand -> Operand {
    o => Final(c, o)
  }

  /** The instructions of `b` from `k` on without the accesses to promoted slots, with resolved operands. */
  ghost function KeptFrom(c: Form, b: nat, k: nat): seq<Instr>
    requires b < |c.f|
    decreases |c.f[b].body| - k
  {
    if k >= |c.f[b].body| then []
    else (if AccessAt(c, b, k).Other? then [MapUses(c.f[b].body[k], Resolve(c))] else []) + KeptFrom(c, b, k + 1)
  }

  /** One phi for each slot placed at `b`, with the resolved value that each predecessor leaves. */
  ghost predicate PhisRight(c: Form, phis: seq<Phi>, b: nat) {
    && DistinctResults(phis)
    && (forall i :: 0 <= i < |phis| ==> IsPhiRight(c, phis[i], b))
    && (forall p :: (p, b) in c.phis ==> exists i :: 0 <= i < |phis| && phis[i].result == c.phis[(p, b)])
  }

  predicate DistinctResults(phis: seq<Phi>) {
    forall i, j :: 0 <= i < j < |phis| ==> phis[i].result != phis[j].result
  }

  /** Operands come over edges from blocks that a path leads to. */
  ghost predicate SourcesOk(c: Form, b: nat, args: seq<(Operand, nat)>) {
    forall j :: 0 <= j < |args| ==>
        args[j].1 < |c.f| && Reachable(G(c), 0, args[j].1) && b in Successors(c.f[args[j].1].term)
  }

  ghost predicate IsPhiRight(c: Form, phi: Phi, b: nat) {
    exists p :: PhiRight(c, phi, p, b)
  }

  ghost predicate PhiRight(c: Form, phi: Phi, p: Name, b: nat) {
    && (p, b) in c.phis && phi.result == c.phis[(p, b)]
    && (forall j :: 0 <= j < |phi.args| ==> ArgRight(c, p, phi.args[j])) && SourcesOk(c, b, phi.args)
    && (forall u: nat :: Edge(G(c), u, b) && Reachable(G(c), 0, u) && TopOut(c, p, u).Some? ==>
      exists j :: 0 <= j < |phi.args| && phi.args[j].1 == u)
  }

  ghost predicate ArgRight(c: Form, p: Name, arg: (Operand, nat)) {
    TopOut(c, p, arg.1).Some? && arg.0 == Final(c, TopOut(c, p, arg.1).value)
  }

  ghost predicate Promoted(c: Form, r: Func) {
    && |r| == |c.f|
    && forall b: nat :: b < |c.f| && Reachable(G(c), 0, b) ==> BlockPromoted(c, r[b], b)
  }

  ghost predicate BlockPromoted(c: Form, blk: Block, b: nat) {
    b < |c.f| && blk.body == KeptFrom(c, b, 0) && blk.term == MapTermUses(c.f[b].term, Resolve(c)) &&
      PhisRight(c, blk.phis, b)
  }

  // ---- Related environments ----

  /** Every available variable has the value of its resolution. */
  ghost predicate ValuesAgree(c: Form, b: nat, k: nat, env: Env, env': Env) {
    forall x :: x in env && x in c.sites && Avail(c, Var(x), b, k) ==> Lookup(env', Final(c, Var(x))) == Some(env[x])
  }

  /** Every live slot holds the value of the operand on top of its stack. */
  ghost predicate SlotsAgree(c: Form, b: nat, k: nat, env: Env, env': Env) {
    forall p :: p in env && p in c.promoted && LiveAt(c, p, b, k) ==> SlotAgrees(c, p, TopAt(c, p, b, k), env, env')
  }

  ghost predicate SlotAgrees(c: Form, p: Name, top: Option<Operand>, env: Env, env': Env) {
    p in env && top.Some? && Lookup(env', Final(c, top.value)) == Some(env[p])
  }

  ghost predicate NoPhiNames(c: Form, env: Env) {
    forall p, b: nat :: (p, b) in c.phis ==> c.phis[(p, b)] !in env
  }

  ghost predicate Agree(c: Form, b: nat, k: nat, s: State, t: State) {
    s.history == t.history && ValuesAgree(c, b, k, s.env, t.env) && SlotsAgree(c, b, k, s.env, t.env) &&
      NoPhiNames(c, s.env)
  }

  lemma AgreeValues(c: Form, b: nat, k: nat, s: State, t: State)
    requires Agree(c, b, k, s, t)
    ensures ValuesAgree(c, b, k, s.env, t.env)
  {
  }

  lemma OperandAgrees(c: Form, b: nat, k: nat, env: Env, env': Env, o: Operand)
    requires ValuesAgree(c, b, k, env, env') && Avail(c, o, b, k) && Lookup(env, o).Some?
    ensures Lookup(env', Final(c, o)) == Lookup(env, o)
  {
    if o.Var? {
      assert o == Var(o.name);
    }
  }

  lemma {:induction false} OperandsAgree(c: Form, b: nat, k: nat, env: Env, env': Env, os: seq<Operand>)
    requires ValuesAgree(c, b, k, env, env') && LookupAll(env, os).Some?
    requires forall j :: 0 <= j < |os| ==> Avail(c, os[j], b, k)
    ensures LookupAll(env', MapOperands(os, Resolve(c))) == LookupAll(env, os)
  {
    hide ValuesAgree, Avail, Final;
    if os != [] {
      OperandAgrees(c, b, k, env, env', os[0]);
      OperandsAgree(c, b, k, env, env', os[1..]);
      assert MapOperands(os, Resolve(c))[1..] == MapOperands(os[1..], Resolve(c));
    }
  }

  /** A variable other than the target of instruction `k` that is available after it was available before it. */
  lemma AvailBefore(c: Form, b: nat, k: nat, x: Name)
    requires SsaOk(c) && InBody(c, b, k) && x in c.sites && Avail(c, Var(x), b, k + 1) &&
        Target(c.f[b].body[k]) != Some(x)
    ensures Avail(c, Var(x), b, k)
  {
    assert Genuine(c, x);
  }

  /** The target of instruction `k` is not available before it. */
  lemma TargetNotAvail(c: Form, b: nat, k: nat, z: Name)
    requires SsaOk(c) && InBody(c, b, k) && Target(c.f[b].body[k]) == Some(z) && z !in c.promoted
    ensures z in c.sites && c.sites[z] == (b, k + 1) && !Avail(c, Var(z), b, k)
    ensures forall p, d: nat :: (p, d) in c.phis ==> c.phis[(p, d)] != z
  {
    assert TargetOk(c, b, k);
    forall p, d: nat | (p, d) in c.phis
      ensures c.phis[(p, d)] != z
    {
      assert PhiOk(c, p, d);
    }
  }

  /** Assigning a variable that was not available changes no resolution of an available one. */
  lemma OthersKept(c: Form, b: nat, k: nat, env': Env, z: Name, v: Int32, o: Operand)
    requires SsaOk(c) && Reachable(G(c), 0, b) && b < |c.f| && Avail(c, o, b, k) && !Avail(c, Var(z), b, k)
    ensures Lookup(env'[z := v], Final(c, o)) == Lookup(env', Final(c, o))
  {
    FinalAvail(c, o, b, k);
  }

  /** No slot is stored by instruction `k`, so the slots keep their values on the stack. */
  lemma TopKept(c: Form, b: nat, k: nat, p: Name)
    requires InBody(c, b, k) && !Stores(c, p, b, k) && LiveAt(c, p, b, k + 1)
    ensures LiveAt(c, p, b, k) && TopAt(c, p, b, k + 1) == TopAt(c, p, b, k)
  {
    LiveBefore(c, p, b, k);
  }

  /** An instruction that is kept: its result is new on both sides. */
  lemma ResultAgrees(c: Form, b: nat, k: nat, s: State, t: State, z: Name, v: Int32)
    requires SsaOk(c) && Reachable(G(c), 0, b) && InBody(c, b, k) && AccessAt(c, b, k).Other? &&
        Target(c.f[b].body[k]) == Some(z)
    requires Agree(c, b, k, s, t)
    ensures Agree(c, b, k + 1, s.(env := s.env[z := v]), t.(env := t.env[z := v]))
  {
    hide SsaOk, Avail, Final, LiveAt, TopAt, Stores;
    var env, env' := s.env[z := v], t.env[z := v];
    OtherTarget(c, b, k, z);
    TargetNotAvail(c, b, k, z);
    forall x | x in env && x in c.sites && Avail(c, Var(x), b, k + 1)
      ensures Lookup(env', Final(c, Var(x))) == Some(env[x])
    {
      if x == z {
        NotLoadFinal(c, b, k, z);
      } else {
        AvailBefore(c, b, k, x);
        OthersKept(c, b, k, t.env, z, v, Var(x));
      }
    }
    forall p | p in env && p in c.promoted && LiveAt(c, p, b, k + 1)
      ensures SlotAgrees(c, p, TopAt(c, p, b, k + 1), env, env')
    {
      NotStoredHere(c, p, b, k);
      TopKept(c, b, k, p);
      assert SlotAgrees(c, p, TopAt(c, p, b, k), s.env, t.env);
      TopAvail(c, p, b, k);
      OthersKept(c, b, k, t.env, z, v, TopAt(c, p, b, k).value);
    }
  }

  lemma OtherTarget(c: Form, b: nat, k: nat, z: Name)
    requires SsaOk(c) && InBody(c, b, k) && AccessAt(c, b, k).Other? && Target(c.f[b].body[k]) == Some(z)
    ensures z !in c.promoted
  {
    assert TargetOk(c, b, k);
  }

  lemma NotLoadFinal(c: Form, b: nat, k: nat, z: Name)
    requires InBody(c, b, k) && !AccessAt(c, b, k).LoadOf? && z in c.sites && c.sites[z] == (b, k + 1)
    ensures Final(c, Var(z)) == Var(z)
  {
  }

  // ---- One instruction ----

  /** After instruction `k`, the runs still agree; the promoted one has executed it if it is kept. */
  ghost predicate Stepped(c: Form, b: nat, k: nat, w: World, s: State, t: State) {
    InBody(c, b, k) && Exec(w, SlotInstr(c.f[b].body[k], c.promoted), s).Some? &&
    var s' := Exec(w, SlotInstr(c.f[b].body[k], c.promoted), s).value;
    if AccessAt(c, b, k).Other? then
      var t' := Exec(w, MapUses(c.f[b].body[k], Resolve(c)), t);
      t'.Some? && Agree(c, b, k + 1, s', t'.value)
    else Agree(c, b, k + 1, s', t)
  }

  ghost predicate ReadyAt(c: Form, b: nat, k: nat, w: World, s: State, t: State) {
    && SsaOk(c) && LiveOk(c) && Reachable(G(c), 0, b) && InBody(c, b, k)
    && Agree(c, b, k, s, t) && Exec(w, SlotInstr(c.f[b].body[k], c.promoted), s).Some?
  }

  lemma LoadStep(c: Form, b: nat, k: nat, w: World, s: State, t: State)
    requires ReadyAt(c, b, k, w, s, t) && AccessAt(c, b, k).LoadOf?
    ensures Stepped(c, b, k, w, s, t)
  {
    hide SsaOk, Avail, Final, LiveAt, TopAt, Stores;
    var x, p := AccessAt(c, b, k).result, AccessAt(c, b, k).slot;
    var env := Assign(s.env, x, Lookup(s.env, Var(p)));
    LoadNames(c, b, k);
    LiveAtLoad(c, p, b, k);
    forall y | y in env && y in c.sites && Avail(c, Var(y), b, k + 1)
      ensures Lookup(t.env, Final(c, Var(y))) == Some(env[y])
    {
      if y == x {
        assert Lookup(env, Var(x)) == Lookup(s.env, Var(p));
        assert SlotAgrees(c, p, TopAt(c, p, b, k), s.env, t.env);
        LoadResolves(c, b, k);
      } else {
        assert Lookup(env, Var(y)) == Lookup(s.env, Var(y));
        AvailBefore(c, b, k, y);
      }
    }
    SlotsUntouched(c, b, k, s.env, env, t.env);
  }

  lemma LoadNames(c: Form, b: nat, k: nat)
    requires SsaOk(c) && LiveOk(c) && InBody(c, b, k) && AccessAt(c, b, k).LoadOf?
    ensures var x, p := AccessAt(c, b, k).result, AccessAt(c, b, k).slot;
      && Target(c.f[b].body[k]) == Some(x) && x !in c.promoted && p in c.promoted && p in c.live
      && x in c.sites && c.sites[x] == (b, k + 1) && Loads(c, p, b, k)
      && (forall q, d: nat :: (q, d) in c.phis ==> c.phis[(q, d)] != x)
  {
    assert TargetOk(c, b, k);
    TargetNotAvail(c, b, k, AccessAt(c, b, k).result);
  }

  /** The result of a load resolves to what is on top of the stack of its slot. */
  lemma LoadResolves(c: Form, b: nat, k: nat)
    requires SsaOk(c) && LiveOk(c) && Reachable(G(c), 0, b) && InBody(c, b, k) && AccessAt(c, b, k).LoadOf?
    requires TopAt(c, AccessAt(c, b, k).slot, b, k).Some?
    ensures Final(c, Var(AccessAt(c, b, k).result)) == Final(c, TopAt(c, AccessAt(c, b, k).slot, b, k).value)
  {
    LoadNames(c, b, k);
    ReplacementEarlier(c, Var(AccessAt(c, b, k).result));
  }

  /** An instruction that stores to no slot keeps the slots. */
  lemma SlotsUntouched(c: Form, b: nat, k: nat, env: Env, env1: Env, env': Env)
    requires InBody(c, b, k) && SlotsAgree(c, b, k, env, env') && !AccessAt(c, b, k).StoreTo?
    requires forall p :: p in c.promoted ==> Lookup(env1, Var(p)) == Lookup(env, Var(p))
    ensures SlotsAgree(c, b, k + 1, env1, env')
  {
    hide LiveAt, TopAt, Final;
    forall p | p in env1 && p in c.promoted && LiveAt(c, p, b, k + 1)
      ensures SlotAgrees(c, p, TopAt(c, p, b, k + 1), env1, env')
    {
      assert Lookup(env1, Var(p)) == Lookup(env, Var(p));
      TopKept(c, b, k, p);
      assert SlotAgrees(c, p, TopAt(c, p, b, k), env, env');
    }
  }

  lemma StoreStep(c: Form, b: nat, k: nat, w: World, s: State, t: State)
    requires ReadyAt(c, b, k, w, s, t) && AccessAt(c, b, k).StoreTo?
    ensures Stepped(c, b, k, w, s, t)
  {
    hide SsaOk, Avail, Final, LiveAt, Stores;
    var p, v := AccessAt(c, b, k).slot, AccessAt(c, b, k).value;
    var env := Assign(s.env, p, Lookup(s.env, v));
    StoreNames(c, b, k);
    assert forall y :: y != p ==> Lookup(env, Var(y)) == Lookup(s.env, Var(y));
    forall y | y in env && y in c.sites && Avail(c, Var(y), b, k + 1)
      ensures Lookup(t.env, Final(c, Var(y))) == Some(env[y])
    {
      assert y != p;
      assert Lookup(env, Var(y)) == Lookup(s.env, Var(y));
      AvailBefore(c, b, k, y);
    }
    forall q | q in env && q in c.promoted && LiveAt(c, q, b, k + 1)
      ensures SlotAgrees(c, q, TopAt(c, q, b, k + 1), env, t.env)
    {
      if q == p {
        assert Lookup(env, Var(p)) == Lookup(s.env, v);
        OperandAgrees(c, b, k, s.env, t.env, v);
        TopAfterStore(c, b, k);
      } else {
        assert Lookup(env, Var(q)) == Lookup(s.env, Var(q));
        NotStoredHere(c, q, b, k);
        TopKept(c, b, k, q);
        assert SlotAgrees(c, q, TopAt(c, q, b, k), s.env, t.env);
      }
    }
    forall q, d: nat | (q, d) in c.phis
      ensures c.phis[(q, d)] !in env
    {
      PhiNotSlot(c, q, d);
      assert Lookup(env, Var(c.phis[(q, d)])) == Lookup(s.env, Var(c.phis[(q, d)]));
    }
  }

  lemma PhiNotSlot(c: Form, q: Name, d: nat)
    requires SsaOk(c) && (q, d) in c.phis
    ensures c.phis[(q, d)] !in c.promoted && c.phis[(q, d)] in c.sites && c.sites[c.phis[(q, d)]] == (d, 0)
  {
    assert PhiOk(c, q, d);
  }

  lemma StoreNames(c: Form, b: nat, k: nat)
    requires SsaOk(c) && Reachable(G(c), 0, b) && InBody(c, b, k) && AccessAt(c, b, k).StoreTo?
    ensures Target(c.f[b].body[k]).None? && AccessAt(c, b, k).slot in c.promoted && AccessAt(c, b, k).slot !in c.sites
    ensures Avail(c, AccessAt(c, b, k).value, b, k)
  {
    assert UsesOk(c, b, k);
  }

  lemma TopAfterStore(c: Form, b: nat, k: nat)
    requires InBody(c, b, k) && AccessAt(c, b, k).StoreTo?
    ensures TopAt(c, AccessAt(c, b, k).slot, b, k + 1) == Some(AccessAt(c, b, k).value)
  {
    assert Stores(c, AccessAt(c, b, k).slot, b, k);
  }

  lemma AllocaStep(c: Form, b: nat, k: nat, w: World, s: State, t: State)
    requires ReadyAt(c, b, k, w, s, t) && AccessAt(c, b, k).AllocaOf?
    ensures Stepped(c, b, k, w, s, t)
  {
    hide SsaOk, Avail, Final, LiveAt, TopAt, Stores;
    var p := AccessAt(c, b, k).slot;
    EnvEqual(Assign(s.env, p, Lookup(s.env, Var(p))), s.env);
    SlotsUntouched(c, b, k, s.env, s.env, t.env);
    assert p in c.promoted && Target(c.f[b].body[k]) == Some(p);
    forall y | y in s.env && y in c.sites && Avail(c, Var(y), b, k + 1)
      ensures Lookup(t.env, Final(c, Var(y))) == Some(s.env[y])
    {
      SitesNoSlots(c, y);
      AvailBefore(c, b, k, y);
    }
  }

  lemma SitesNoSlots(c: Form, x: Name)
    requires SsaOk(c) && x in c.sites
    ensures x !in c.promoted
  {
  }

  lemma OtherUses(c: Form, b: nat, k: nat)
    requires SsaOk(c) && Reachable(G(c), 0, b) && InBody(c, b, k) && AccessAt(c, b, k).Other?
    ensures forall j :: 0 <= j < |Uses(c.f[b].body[k])| ==> Avail(c, Uses(c.f[b].body[k])[j], b, k)
    ensures SlotInstr(c.f[b].body[k], c.promoted) == c.f[b].body[k]
  {
    assert UsesOk(c, b, k);
  }

  lemma MoveStep(c: Form, b: nat, k: nat, w: World, s: State, t: State)
    requires ReadyAt(c, b, k, w, s, t) && AccessAt(c, b, k).Other? && c.f[b].body[k].Move?
    ensures Stepped(c, b, k, w, s, t)
  {
    hide SsaOk, Avail, Final, LiveAt, TopAt, Stores, Agree;
    OtherUses(c, b, k);
    var i := c.f[b].body[k];
    var x, o := i.result, i.arg;
    assert Uses(i)[0] == o;
    assert Target(i) == Some(x);
    match Lookup(s.env, o) {
      case Some(v) =>
        AgreeValues(c, b, k, s, t);
        OperandAgrees(c, b, k, s.env, t.env, o);
        ResultAgrees(c, b, k, s, t, x, v);
      case None =>
        UndefinedAgrees(c, b, k, s, t, x, Lookup(t.env, Final(c, o)));
    }
  }

  /** A move of an undefined value: the target is undefined, whatever the promoted run copies. */
  lemma UndefinedAgrees(c: Form, b: nat, k: nat, s: State, t: State, z: Name, v: Option<Int32>)
    requires SsaOk(c) && Reachable(G(c), 0, b) && InBody(c, b, k) && AccessAt(c, b, k).Other? &&
        Target(c.f[b].body[k]) == Some(z)
    requires Agree(c, b, k, s, t)
    ensures Agree(c, b, k + 1, s.(env := s.env - {z}), t.(env := Assign(t.env, z, v)))
  {
    hide SsaOk, Avail, Final, LiveAt, TopAt, Stores;
    ResultAgrees(c, b, k, s, t, z, 0);
    var env, env' := s.env - {z}, Assign(t.env, z, v);
    OtherTarget(c, b, k, z);
    TargetNotAvail(c, b, k, z);
    forall x | x in env && x in c.sites && Avail(c, Var(x), b, k + 1)
      ensures Lookup(env', Final(c, Var(x))) == Some(env[x])
    {
      AvailBefore(c, b, k, x);
      OthersKeptAssign(c, b, k, t.env, z, v, Var(x));
    }
    forall p | p in env && p in c.promoted && LiveAt(c, p, b, k + 1)
      ensures SlotAgrees(c, p, TopAt(c, p, b, k + 1), env, env')
    {
      NotStoredHere(c, p, b, k);
      TopKept(c, b, k, p);
      assert SlotAgrees(c, p, TopAt(c, p, b, k), s.env, t.env);
      TopAvail(c, p, b, k);
      OthersKeptAssign(c, b, k, t.env, z, v, TopAt(c, p, b, k).value);
    }
  }

  lemma OthersKeptAssign(c: Form, b: nat, k: nat, env': Env, z: Name, v: Option<Int32>, o: Operand)
    requires SsaOk(c) && Reachable(G(c), 0, b) && b < |c.f| && Avail(c, o, b, k) && !Avail(c, Var(z), b, k)
    ensures Lookup(Assign(env', z, v), Final(c, o)) == Lookup(env', Final(c, o))
  {
    hide SsaOk, Final, Avail;
    FinalAvail(c, o, b, k);
    if Final(c, o).Var? {
      assert Final(c, o) == Var(Final(c, o).name);
    }
  }

  lemma EffectStep(c: Form, b: nat, k: nat, w: World, s: State, t: State)
    requires ReadyAt(c, b, k, w, s, t) && AccessAt(c, b, k).Other? && c.f[b].body[k].Effect?
    ensures Stepped(c, b, k, w, s, t)
  {
    hide SsaOk, Avail, Final, LiveAt, TopAt, Stores, ValuesAgree, SlotsAgree, NoPhiNames;
    OtherUses(c, b, k);
    var i := c.f[b].body[k];
    assert Uses(i) == i.args;
    OperandsAgree(c, b, k, s.env, t.env, i.args);
    var h := s.history + [Event(i.effect, LookupAll(s.env, i.args).value)];
    var s1, t1 := s.(history := h), t.(history := h);
    if i.target.Some? {
      ResultAgrees(c, b, k, s1, t1, i.target.value, w(h));
    } else {
      NoTargetAgrees(c, b, k, s1, t1);
    }
  }

  lemma NoTargetAgrees(c: Form, b: nat, k: nat, s: State, t: State)
    requires SsaOk(c) && InBody(c, b, k) && AccessAt(c, b, k).Other? && Target(c.f[b].body[k]).None? &&
        Agree(c, b, k, s, t)
    ensures Agree(c, b, k + 1, s, t)
  {
    hide SsaOk, Avail, Final, LiveAt, TopAt, Stores;
    SlotsUntouched(c, b, k, s.env, s.env, t.env);
    forall x | x in s.env && x in c.sites && Avail(c, Var(x), b, k + 1)
      ensures Lookup(t.env, Final(c, Var(x))) == Some(s.env[x])
    {
      AvailBefore(c, b, k, x);
    }
  }

  lemma ComputeStep(c: Form, b: nat, k: nat, w: World, s: State, t: State)
    requires ReadyAt(c, b, k, w, s, t) && AccessAt(c, b, k).Other? && !c.f[b].body[k].Effect? && !c.f[b].body[k].Move?
    ensures Stepped(c, b, k, w, s, t)
  {
    hide SsaOk, Avail, Final, LiveAt, TopAt, Stores, ValuesAgree, SlotsAgree, NoPhiNames, Compute;
    OtherUses(c, b, k);
    var i := c.f[b].body[k];
    OperandsAgree(c, b, k, s.env, t.env, Uses(i));
    var vs := LookupAll(s.env, Uses(i)).value;
    SameMapped(i, Resolve(c), vs);
    ResultAgrees(c, b, k, s, t, i.result, Compute(i, vs).value);
  }

  lemma SameMapped(i: Instr, h: Operand -> Operand, vs: seq<Int32>)
    requires !i.Effect? && !i.Move? && |vs| == |Uses(i)|
    ensures Compute(MapUses(i, h), vs) == Compute(i, vs) && !MapUses(i, h).Effect? && !MapUses(i, h).Move? &&
        MapUses(i, h).result == i.result
  {
  }

  lemma InstrStep(c: Form, b: nat, k: nat, w: World, s: State, t: State)
    requires ReadyAt(c, b, k, w, s, t)
    ensures Stepped(c, b, k, w, s, t)
  {
    assert InBody(c, b, k);
    hide ReadyAt, Stepped;
    match AccessAt(c, b, k)
    case LoadOf(_, _) => LoadStep(c, b, k, w, s, t);
    case StoreTo(_, _) => StoreStep(c, b, k, w, s, t);
    case AllocaOf(_) => AllocaStep(c, b, k, w, s, t);
    case Other =>
      match c.f[b].body[k]
      case Move(_, _) => MoveStep(c, b, k, w, s, t);
      case Effect(_, _, _) => EffectStep(c, b, k, w, s, t);
      case _ => ComputeStep(c, b, k, w, s, t);
  }

  // ---- Blocks and runs ----

  lemma {:induction false} BodyStep(c: Form, b: nat, k: nat, w: World, s: State, t: State)
    requires SsaOk(c) && LiveOk(c) && Reachable(G(c), 0, b) && b < |c.f| && k <= |c.f[b].body| && Agree(c, b, k, s, t)
    requires ExecAll(w, WithSlots(c.f, c.promoted)[b].body[k..], s).Some?
    ensures var s', t' := ExecAll(w, WithSlots(c.f, c.promoted)[b].body[k..], s).value,
        ExecAll(w, KeptFrom(c, b, k), t);
      t'.Some? && Agree(c, b, |c.f[b].body|, s', t'.value)
    decreases |c.f[b].body| - k
  {
    hide SsaOk, LiveOk, Agree, Exec, SlotInstr;
    if k < |c.f[b].body| {
      var body := WithSlots(c.f, c.promoted)[b].body;
      assert body[k..][0] == body[k] && body[k..][1..] == body[k + 1..];
      InstrStep(c, b, k, w, s, t);
      var s1 := Exec(w, body[k], s).value;
      if AccessAt(c, b, k).Other? {
        var i := MapUses(c.f[b].body[k], Resolve(c));
        assert ([i] + KeptFrom(c, b, k + 1))[1..] == KeptFrom(c, b, k + 1);
        BodyStep(c, b, k + 1, w, s1, Exec(w, i, t).value);
      } else {
        assert [] + KeptFrom(c, b, k + 1) == KeptFrom(c, b, k + 1);
        BodyStep(c, b, k + 1, w, s1, t);
      }
    }
  }

  lemma TermStep(c: Form, b: nat, env: Env, env': Env)
    requires SsaOk(c) && Reachable(G(c), 0, b) && b < |c.f| && ValuesAgree(c, b, |c.f[b].body|, env, env') &&
        !Follow(c.f[b].term, env).Undefined?
    ensures Follow(MapTermUses(c.f[b].term, Resolve(c)), env') == Follow(c.f[b].term, env)
  {
    hide Final, Avail;
    match c.f[b].term
    case Branch(o, _, _) =>
      assert TermUses(c.f[b].term)[0] == o;
      OperandAgrees(c, b, |c.f[b].body|, env, env', o);
    case Return(Some(o)) =>
      assert TermUses(c.f[b].term)[0] == o;
      OperandAgrees(c, b, |c.f[b].body|, env, env', o);
    case _ =>
  }

  /** The value that copies give to a name which all of them take from one operand. */
  lemma {:induction false} CopiedFrom(env: Env, copies: seq<Copy>, x: Name, from: Operand)
    requires forall j :: 0 <= j < |copies| && copies[j].to == x ==> copies[j].from == from
    ensures (exists j :: 0 <= j < |copies| && copies[j].to == x) ==>
        Lookup(ParallelCopy(env, copies), Var(x)) == Lookup(env, from)
    ensures (forall j :: 0 <= j < |copies| ==> copies[j].to != x) ==>
        Lookup(ParallelCopy(env, copies), Var(x)) == Lookup(env, Var(x))
    decreases |copies|
  {
    if copies != [] {
      CopiedFrom(env, copies[..|copies| - 1], x, from);
      assert copies == copies[..|copies| - 1] + [copies[|copies| - 1]];
    }
  }

  /** The copies on an edge are right: a phi of the target receives what its slot holds at the end of the source. */
  ghost predicate CopyRight(c: Form, u: nat, v: nat, copy: Copy) {
    exists p :: CopyOfSlot(c, u, v, copy, p)
  }

  ghost predicate CopyOfSlot(c: Form, u: nat, v: nat, copy: Copy, p: Name) {
    (p, v) in c.phis && copy.to == c.phis[(p, v)] && ArgRight(c, p, (copy.from, u))
  }

  lemma EdgeCopiesRight(c: Form, phis: seq<Phi>, u: nat, v: nat)
    requires PhisRight(c, phis, v)
    ensures forall i :: 0 <= i < |EdgeCopies(phis, u)| ==> CopyRight(c, u, v, EdgeCopies(phis, u)[i])
  {
    hide ArgRight;
    forall i | 0 <= i < |EdgeCopies(phis, u)|
      ensures CopyRight(c, u, v, EdgeCopies(phis, u)[i])
    {
      var copy := EdgeCopies(phis, u)[i];
      var k, j := CopyOrigin(phis, u, copy);
      assert IsPhiRight(c, phis[k], v);
      var p :| PhiRight(c, phis[k], p, v);
      assert CopyOfSlot(c, u, v, copy, p);
    }
  }

  lemma CopyValue(c: Form, u: nat, v: nat, copy: Copy, p: Name)
    requires SsaOk(c) && (p, v) in c.phis && copy.to == c.phis[(p, v)] && CopyRight(c, u, v, copy)
    ensures TopOut(c, p, u).Some? && copy.from == Final(c, TopOut(c, p, u).value)
  {
    var q :| CopyOfSlot(c, u, v, copy, q);
    assert q == p;
  }

  /** The phi of a slot receives the value that the slot leaves at `u`. */
  lemma PhiReceives(c: Form, phis: seq<Phi>, u: nat, v: nat, p: Name, env': Env)
    requires SsaOk(c) && PhisRight(c, phis, v) && (p, v) in c.phis && Edge(G(c), u, v) && Reachable(G(c), 0, u) &&
        TopOut(c, p, u).Some?
    ensures Lookup(ParallelCopy(env', EdgeCopies(phis, u)), Var(c.phis[(p, v)])) ==
        Lookup(env', Final(c, TopOut(c, p, u).value))
  {
    hide ArgRight, Final;
    var copies, x, from := EdgeCopies(phis, u), c.phis[(p, v)], Final(c, TopOut(c, p, u).value);
    EdgeCopiesRight(c, phis, u, v);
    forall j | 0 <= j < |copies| && copies[j].to == x
      ensures copies[j].from == from
    {
      CopyValue(c, u, v, copies[j], p);
    }
    var i :| 0 <= i < |phis| && phis[i].result == x;
    assert IsPhiRight(c, phis[i], v);
    var q :| PhiRight(c, phis[i], q, v);
    assert q == p;
    var j :| 0 <= j < |phis[i].args| && phis[i].args[j].1 == u;
    CopyMade(phis, u, i, j);
    CopiedFrom(env', copies, x, from);
  }

  /** The phis of `v` change no other variable. */
  lemma PhisChangeOnly(c: Form, phis: seq<Phi>, u: nat, v: nat, o: Operand, env': Env)
    requires SsaOk(c) && PhisRight(c, phis, v) && (o.Var? && o.name in c.sites ==> c.sites[o.name] != (v, 0)) &&
        (o.Var? ==> o.name in c.sites)
    ensures Lookup(ParallelCopy(env', EdgeCopies(phis, u)), o) == Lookup(env', o)
  {
    hide ArgRight, Final;
    EdgeCopiesRight(c, phis, u, v);
    if o.Var? {
      var copies := EdgeCopies(phis, u);
      forall j | 0 <= j < |copies|
        ensures copies[j].to != o.name
      {
        assert CopyRight(c, u, v, copies[j]);
        var q :| CopyOfSlot(c, u, v, copies[j], q);
        assert PhiOk(c, q, v);
      }
      CopiedFrom(env', copies, o.name, o);
    }
  }

  /** What resolves before `v` is reached is no phi of `v`. */
  lemma NotPhiOf(c: Form, o: Operand, b: nat, k: nat, v: nat)
    requires SsaOk(c) && Reachable(G(c), 0, b) && b < |c.f| && v != b && Dominates(G(c), 0, b, v) &&
        Reachable(G(c), 0, v) && Avail(c, o, b, k)
    ensures o.Var? ==> o.name in c.sites && c.sites[o.name].0 != v
  {
    if o.Var? && c.sites[o.name].0 == v {
      DominatesAntisymmetric(G(c), b, v);
    }
  }

  lemma ValuesOverEdge(c: Form, phis: seq<Phi>, u: nat, v: nat, s: State, t: State)
    requires SsaOk(c) && PhisRight(c, phis, v) && Edge(G(c), u, v) && Reachable(G(c), 0, u) && 0 < v < |c.f| &&
        u < |c.f|
    requires ValuesAgree(c, u, |c.f[u].body|, s.env, t.env) && NoPhiNames(c, s.env)
    ensures ValuesAgree(c, v, 0, s.env, ParallelCopy(t.env, EdgeCopies(phis, u)))
  {
    hide Final, PhisRight;
    var env' := ParallelCopy(t.env, EdgeCopies(phis, u));
    SuccessorReachable(G(c), u, v);
    forall x | x in s.env && x in c.sites && Avail(c, Var(x), v, 0)
      ensures Lookup(env', Final(c, Var(x))) == Some(s.env[x])
    {
      assert Genuine(c, x);
      var site := c.sites[x];
      assert site.0 != v;
      DominatesSource(G(c), u, v, site.0);
      assert Avail(c, Var(x), u, |c.f[u].body|);
      DominatorReachable(G(c), site.0, v);
      assert Avail(c, Var(x), site.0, site.1) by {
        DominatesItself(G(c), site.0);
      }
      FinalAvail(c, Var(x), site.0, site.1);
      NotPhiOf(c, Final(c, Var(x)), site.0, site.1, v);
      PhisChangeOnly(c, phis, u, v, Final(c, Var(x)), t.env);
    }
  }

  lemma SlotsOverEdge(c: Form, frontier: seq<set<nat>>, phis: seq<Phi>, u: nat, v: nat, s: State, t: State)
    requires SsaOk(c) && PlacementOk(c, frontier) && PhisRight(c, phis, v)
    requires Edge(G(c), u, v) && Reachable(G(c), 0, u) && 0 < v < |c.f| && u < |c.f|
    requires SlotsAgree(c, u, |c.f[u].body|, s.env, t.env)
    ensures SlotsAgree(c, v, 0, s.env, ParallelCopy(t.env, EdgeCopies(phis, u)))
  {
    hide Final, PhisRight, SsaOk;
    var env' := ParallelCopy(t.env, EdgeCopies(phis, u));
    SuccessorReachable(G(c), u, v);
    forall p | p in s.env && p in c.promoted && LiveAt(c, p, v, 0)
      ensures SlotAgrees(c, p, TopAt(c, p, v, 0), s.env, env')
    {
      assert v in c.live[p];
      LiveOnEdge(c, p, u, v);
      assert SlotAgrees(c, p, TopAt(c, p, u, |c.f[u].body|), s.env, t.env);
      assert TopAt(c, p, u, |c.f[u].body|) == TopOut(c, p, u);
      if (p, v) in c.phis {
        PhiReceives(c, phis, u, v, p, t.env);
        PhiFinal(c, p, v);
      } else {
        TopOverEdge(c, frontier, p, u, v);
        PhisChangeOnly(c, phis, u, v, Final(c, TopIn(c, p, v).value), t.env);
      }
    }
  }

  lemma LiveOnEdge(c: Form, p: Name, u: nat, v: nat)
    requires Edge(G(c), u, v) && u < |c.f| && p in c.live && v in c.live[p]
    ensures LiveAt(c, p, u, |c.f[u].body|)
  {
    assert NotStored(c, p, u, |c.f[u].body|, |c.f[u].body|);
    assert v in Successors(c.f[u].term);
  }

  lemma PhiFinal(c: Form, p: Name, v: nat)
    requires SsaOk(c) && (p, v) in c.phis
    ensures Final(c, Var(c.phis[(p, v)])) == Var(c.phis[(p, v)]) && TopIn(c, p, v) == Some(Var(c.phis[(p, v)]))
  {
    assert PhiOk(c, p, v);
  }

  lemma TopOverEdge(c: Form, frontier: seq<set<nat>>, p: Name, u: nat, v: nat)
    requires Watched(c, frontier, p, v) && Edge(G(c), u, v) && Reachable(G(c), 0, u) && TopOut(c, p, u).Some?
    ensures TopIn(c, p, v) == TopOut(c, p, u)
    ensures var o := Final(c, TopIn(c, p, v).value); o.Var? ==> o.name in c.sites && c.sites[o.name] != (v, 0)
  {
    EdgeTop(c, frontier, p, u, v);
    var z: nat := c.dom[v];
    IdomHasFewer(G(c), z, v);
    var n := |c.f[z].body|;
    assert TopOut(c, p, z) == TopAt(c, p, z, n);
    TopAvail(c, p, z, n);
    FinalAvail(c, TopAt(c, p, z, n).value, z, n);
    assert StrictlyDominates(G(c), 0, z, v);
    NotPhiOf(c, Final(c, TopAt(c, p, z, n).value), z, n, v);
  }

  /** The promoted run next to a run with slots. */
  ghost predicate Corresponds(c: Form, x: Config, y: Config) {
    match x
    case At(b, s) => y.At? && y.block == b && Agree(c, b, 0, s, y.state)
    case Left(_, _) => y == x
    case Stuck => true
  }

  lemma PromotedBlock(c: Form, frontier: seq<set<nat>>, r: Func, w: World, b: nat, s: State, t: State)
    requires SsaOk(c) && PlacementOk(c, frontier) && Promoted(c, r) && Reachable(G(c), 0, b) && b < |c.f| &&
        Agree(c, b, 0, s, t)
    ensures Corresponds(c, StepBlock(w, WithSlots(c.f, c.promoted), At(b, s)), StepBlock(w, r, At(b, t)))
  {
    hide SsaOk, LiveOk, PhisRight, KeptFrom, ValuesAgree, SlotsAgree, NoPhiNames, Avail;
    var f := WithSlots(c.f, c.promoted);
    assert BlockPromoted(c, r[b], b);
    assert f[b].body[0..] == f[b].body;
    if ExecAll(w, f[b].body, s).Some? {
      BodyStep(c, b, 0, w, s, t);
      var s1, t1 := ExecAll(w, f[b].body, s).value, ExecAll(w, r[b].body, t).value;
      if !Follow(f[b].term, s1.env).Undefined? {
        TermStep(c, b, s1.env, t1.env);
        if Follow(f[b].term, s1.env).Goto? {
          var v := Follow(f[b].term, s1.env).block;
          EdgeTaken(c, b, v);
          assert BlockPromoted(c, r[v], v);
          ValuesOverEdge(c, r[v].phis, b, v, s1, t1);
          SlotsOverEdge(c, frontier, r[v].phis, b, v, s1, t1);
          assert f[v].phis == [];
        }
      }
    }
  }

  lemma EdgeTaken(c: Form, b: nat, v: nat)
    requires SsaOk(c) && Reachable(G(c), 0, b) && b < |c.f| && v in Successors(c.f[b].term)
    ensures 0 < v < |c.f| && Edge(G(c), b, v) && Reachable(G(c), 0, v) && c.f[v].phis == []
  {
    assert v in G(c)[b];
    SuccessorReachable(G(c), b, v);
  }

  /** The arguments are the only variables defined at the start. */
  ghost predicate StartsWithParams(c: Form, env: Env) {
    forall x :: x in env ==> x in c.sites && c.sites[x] == (0, 0)
  }

  lemma StartAgrees(c: Form, env: Env)
    requires SsaOk(c) && StartsWithParams(c, env)
    ensures Agree(c, 0, 0, State(env, []), State(env, []))
  {
    forall x | x in env && x in c.sites && Avail(c, Var(x), 0, 0)
      ensures Lookup(env, Final(c, Var(x))) == Some(env[x])
    {
    }
    forall p, b: nat | (p, b) in c.phis
      ensures c.phis[(p, b)] !in env
    {
      assert PhiOk(c, p, b);
    }
  }

  lemma SlotFlow(c: Form)
    ensures Flow(WithSlots(c.f, c.promoted)) == Flow(c.f)
  {
  }

  /** The main result: block by block, the promoted function does what the function with slots does, as long as that
   * is defined. */
  lemma {:induction false} PromotionKeepsRuns(c: Form, frontier: seq<set<nat>>, r: Func, w: World, env: Env, n: nat)
    requires SsaOk(c) && PlacementOk(c, frontier) && Promoted(c, r) && StartsWithParams(c, env)
    ensures Corresponds(c, Runs(w, WithSlots(c.f, c.promoted), Start(env), n), Runs(w, r, Start(env), n))
  {
    hide StepBlock, Promoted, PlacementOk, Agree, WithSlots;
    var f := WithSlots(c.f, c.promoted);
    if n == 0 {
      StartAgrees(c, env);
    } else {
      PromotionKeepsRuns(c, frontier, r, w, env, n - 1);
      var x, y := Runs(w, f, Start(env), n - 1), Runs(w, r, Start(env), n - 1);
      match x
      case At(b, s) =>
        SlotFlow(c);
        VisitedReachable(f, w, env, n - 1);
        ReachableInRange(c, b);
        PromotedBlock(c, frontier, r, w, b, s, y.state);
      case _ =>
        Stopped(w, f, x);
        if !x.Stuck? {
          Stopped(w, r, y);
        }
    }
  }

  lemma ReachableInRange(c: Form, b: nat)
    requires Reachable(G(c), 0, b)
    ensures b < |c.f|
  {
  }
}
