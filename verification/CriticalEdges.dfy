/** Splitting the edges from blocks with two successors to blocks with other predecessors. */
module CriticalEdges {
  import opened Graphs
  import opened IR
  import opened ParallelCopies
  import opened PhiElimination
  import opened PhiSimulation

  const TRANSFER: Name := "%transfer."

  /** The `c`-th transfer name. */
  function Transfer(c: nat): Name {
    TRANSFER + "." + Decimal(c)
  }

  predicate IsTransfer(x: Name) {
    TRANSFER <= x
  }

  lemma TransferInjective(c: nat, d: nat)
    requires Transfer(c) == Transfer(d)
    ensures c == d
  {
    var n := |TRANSFER + "."|;
    assert Transfer(c)[n..] == Decimal(c) && Transfer(d)[n..] == Decimal(d);
    DecimalInjective(c, d);
  }

  // ---- Names in use ----

  ghost predicate FreePhis(phis: seq<Phi>, x: Name) {
    forall k, j :: 0 <= k < |phis| && 0 <= j < |phis[k].args| ==> phis[k].args[j].0 != Var(x)
  }

  /** The block does not read `x`. */
  ghost predicate FreeIn(blk: Block, x: Name) {
    && (forall k, j :: 0 <= k < |blk.body| && 0 <= j < |Uses(blk.body[k])| ==> Uses(blk.body[k])[j] != Var(x))
    && (forall j :: 0 <= j < |TermUses(blk.term)| ==> TermUses(blk.term)[j] != Var(x))
    && FreePhis(blk.phis, x)
  }

  ghost predicate Free(f: Func, x: Name) {
    forall b :: 0 <= b < |f| ==> FreeIn(f[b], x)
  }

  /** Transfer names after the `n`-th are not read yet. */
  ghost predicate FreeAbove(f: Func, n: nat) {
    forall c: nat :: n < c ==> Free(f, Transfer(c))
  }

  // ---- The copies on a split edge ----

  /** The copies into the transfer names, and those out of them. */
  function Into(copies: seq<Copy>, ts: seq<Name>): (r: seq<Copy>)
    requires |ts| == |copies|
    ensures |r| == |copies| && forall k :: 0 <= k < |r| ==> r[k] == Copy(copies[k].from, ts[k])
  {
    seq(|copies|, k requires 0 <= k < |copies| => Copy(copies[k].from, ts[k]))
  }

  function OutOf(copies: seq<Copy>, ts: seq<Name>): (r: seq<Copy>)
    requires |ts| == |copies|
    ensures |r| == |copies| && forall k :: 0 <= k < |r| ==> r[k] == Copy(Var(ts[k]), copies[k].to)
  {
    seq(|copies|, k requires 0 <= k < |copies| => Copy(Var(ts[k]), copies[k].to))
  }

  predicate Distinct(ts: seq<Name>) {
    forall a, b :: 0 <= a < b < |ts| ==> ts[a] != ts[b]
  }

  ghost function Except(ts: seq<Name>): iset<Name> {
    iset x: Name | x !in ts
  }

  /** Copying into fresh names and on from them is copying directly. */
  lemma CopyThrough(env: Env, env': Env, copies: seq<Copy>, ts: seq<Name>)
    requires |ts| == |copies| && Distinct(ts) && AgreeOn(Except(ts), env, env')
    requires forall c, t :: c in copies && t in ts ==> c.from != Var(t)
    ensures AgreeOn(Except(ts), ParallelCopy(env, copies), ParallelCopy(ParallelCopy(env', Into(copies, ts)),
        OutOf(copies, ts)))
  {
    var mid := ParallelCopy(env', Into(copies, ts));
    assert DistinctTargets(Into(copies, ts));
    forall k | 0 <= k < |copies|
      ensures Lookup(mid, Var(ts[k])) == Lookup(env, copies[k].from)
    {
      assert Into(copies, ts)[k] in Into(copies, ts) && copies[k] in copies;
      ParallelCopyAt(env', Into(copies, ts), ts[k]);
      SourceAgrees(env, env', copies, ts, copies[k]);
    }
    forall x | x !in ts
      ensures Lookup(mid, Var(x)) == Lookup(env, Var(x))
    {
      ParallelCopyAt(env', Into(copies, ts), x);
      assert x in Except(ts);
    }
    CopyOn(env, mid, copies, ts, |copies|);
    assert copies[..|copies|] == copies && OutOf(copies, ts)[..|copies|] == OutOf(copies, ts);
  }

  lemma SourceAgrees(env: Env, env': Env, copies: seq<Copy>, ts: seq<Name>, c: Copy)
    requires AgreeOn(Except(ts), env, env') && c in copies && forall d, t :: d in copies && t in ts ==> d.from != Var(t)
    ensures Lookup(env', c.from) == Lookup(env, c.from)
  {
    if c.from.Var? {
      assert c.from.name in Except(ts);
    }
  }

  lemma {:induction false} CopyOn(env: Env, mid: Env, copies: seq<Copy>, ts: seq<Name>, n: nat)
    requires |ts| == |copies| && n <= |copies| && AgreeOn(Except(ts), env, mid)
    requires forall k :: 0 <= k < |copies| ==> Lookup(mid, Var(ts[k])) == Lookup(env, copies[k].from)
    ensures AgreeOn(Except(ts), ParallelCopy(env, copies[..n]), ParallelCopy(mid, OutOf(copies, ts)[..n]))
  {
    hide AgreeOn, Assign, Except, ParallelCopy, Lookup;
    if n > 0 {
      CopyOn(env, mid, copies, ts, n - 1);
      var outs := OutOf(copies, ts);
      LastCopy(env, copies, n);
      LastCopy(mid, outs, n);
      AssignsAgree(Except(ts), ParallelCopy(env, copies[..n - 1]), ParallelCopy(mid, outs[..n - 1]), copies[n - 1].to,
        Lookup(env, copies[n - 1].from));
    } else {
      NoCopies(env, copies);
      NoCopies(mid, OutOf(copies, ts));
    }
  }

  lemma NoCopies(env: Env, copies: seq<Copy>)
    ensures ParallelCopy(env, copies[..0]) == env
  {
  }

  lemma LastCopy(env: Env, copies: seq<Copy>, n: nat)
    requires 0 < n <= |copies|
    ensures ParallelCopy(env, copies[..n]) ==
        Assign(ParallelCopy(env, copies[..n - 1]), copies[n - 1].to, Lookup(env, copies[n - 1].from))
  {
    assert copies[..n][..n - 1] == copies[..n - 1];
  }

  lemma AssignsAgree(names: iset<Name>, a: Env, b: Env, x: Name, v: Option<Int32>)
    requires AgreeOn(names, a, b)
    ensures AgreeOn(names, Assign(a, x, v), Assign(b, x, v))
  {
  }

  lemma {:induction false} CopiesAgree(names: iset<Name>, env: Env, env': Env, copies: seq<Copy>)
    requires AgreeOn(names, env, env') && forall c :: c in copies && c.from.Var? ==> c.from.name in names
    ensures AgreeOn(names, ParallelCopy(env, copies), ParallelCopy(env', copies))
    decreases |copies|
  {
    if copies != [] {
      var k := |copies| - 1;
      assert copies[k] in copies;
      CopiesAgree(names, env, env', copies[..k]);
    }
  }

  lemma {:induction false} ArgsFromAppend(p: Phi, a: seq<(Operand, nat)>, b: seq<(Operand, nat)>, q: nat)
    ensures ArgsFrom(p, a + b, q) == ArgsFrom(p, a, q) + ArgsFrom(p, b, q)
  {
    if a == [] {
      assert a + b == b;
    } else {
      assert (a + b)[1..] == a[1..] + b;
      ArgsFromAppend(p, a[1..], b, q);
    }
  }

  lemma {:induction false} EdgeCopiesAppend(a: seq<Phi>, b: seq<Phi>, q: nat)
    ensures EdgeCopies(a + b, q) == EdgeCopies(a, q) + EdgeCopies(b, q)
  {
    if a == [] {
      assert a + b == b;
    } else {
      assert (a + b)[1..] == a[1..] + b;
      EdgeCopiesAppend(a[1..], b, q);
    }
  }

  // ---- The phis of a split edge ----

  /** The operands `args` with those from `i` now coming from `id`. */
  ghost predicate ArgsSplit(args: seq<(Operand, nat)>, args': seq<(Operand, nat)>, i: nat, id: nat) {
    |args'| == |args| && forall j :: 0 <= j < |args| ==> if args[j].1 == i then args'[j].1 == id
      else args'[j] == args[j]
  }

  /** `phis'` and `news` are the phis of the target and of the new block when the edge from `i` is split by `id`. */
  ghost predicate PhisSplit(phis: seq<Phi>, phis': seq<Phi>, news: seq<Phi>, i: nat, id: nat, ts: seq<Name>) {
    && |phis'| == |phis| && (forall k :: 0 <= k < |phis| ==>
      phis'[k].result == phis[k].result &&
      ArgsSplit(phis[k].args, phis'[k].args, i, id))
    && |ts| == |EdgeCopies(phis, i)|
    && EdgeCopies(phis', id) == OutOf(EdgeCopies(phis, i), ts)
    && EdgeCopies(news, i) == Into(EdgeCopies(phis, i), ts)
    && (forall q :: q != i && q != id ==> EdgeCopies(phis', q) == EdgeCopies(phis, q))
    && (forall k :: 0 <= k < |news| ==> |news[k].args| == 1 && news[k].args[0].1 == i)
    && (forall x :: FreePhis(phis, x) ==> FreePhis(news, x) && (x !in ts ==> FreePhis(phis', x)))
  }

  /** The names with numbers after `n`. */
  function TransfersFrom(n: nat, k: nat): (ts: seq<Name>)
    ensures |ts| == k && forall a :: 0 <= a < k ==> ts[a] == Transfer(n + 1 + a)
  {
    seq(k, a requires 0 <= a < k => Transfer(n + 1 + a))
  }

  lemma TransfersDistinct(n: nat, k: nat)
    ensures Distinct(TransfersFrom(n, k))
  {
    var ts := TransfersFrom(n, k);
    forall a, b | 0 <= a < b < k
      ensures ts[a] != ts[b]
    {
      if ts[a] == ts[b] {
        TransferInjective(n + 1 + a, n + 1 + b);
      }
    }
  }

  // ---- One split ----

  /** The first target of a branch that is `v` becomes `id`. */
  function Retarget(t: Term, v: nat, id: nat): Term {
    match t
    case Branch(c, a, b) => if a == v then Branch(c, id, b) else Branch(c, a, id)
    case _ => t
  }

  /** `g` is `f` with a new block on the edge from `i` to `v`. */
  ghost predicate SplitOf(f: Func, g: Func, i: nat, v: nat, ts: seq<Name>) {
    && i < |f| && v < |f| && |g| == |f| + 1
    && f[i].term.Branch? && f[i].term.onTrue != f[i].term.onFalse && v in Successors(f[i].term)
    && (forall b :: 0 <= b < |f| ==>
      g[b].body == f[b].body && (b != v ==> g[b].phis == f[b].phis) &&
      (b != i ==> g[b].term == f[b].term))
    && g[i].term == Retarget(f[i].term, v, |f|)
    && g[|f|].body == [] && g[|f|].term == Jump(v)
    && PhisSplit(f[v].phis, g[v].phis, g[|f|].phis, i, |f|, ts)
    && Distinct(ts) && forall t :: t in ts ==> Free(f, t)
  }

  /** Same block, same events, same values but for the names `ts`; or the same end. */
  ghost predicate AlikeBut(ts: iset<Name>, c: Config, d: Config) {
    match (c, d)
    case (At(b, s), At(b', t)) => b == b' && s.history == t.history && AgreeOn(ts, s.env, t.env)
    case (Left(v, h), Left(v', h')) => v == v' && h == h'
    case (Stuck, Stuck) => true
    case _ => false
  }

  lemma FreeUses(f: Func, b: nat, ts: seq<Name>)
    requires b < |f| && forall t :: t in ts ==> Free(f, t)
    ensures forall k, j :: 0 <= k < |f[b].body| && 0 <= j < |Uses(f[b].body[k])| ==> Uses(f[b].body[k])[j].Var? ==>
        Uses(f[b].body[k])[j].name in Except(ts)
    ensures forall j :: 0 <= j < |TermUses(f[b].term)| && TermUses(f[b].term)[j].Var? ==>
        TermUses(f[b].term)[j].name in Except(ts)
  {
    forall k, j | 0 <= k < |f[b].body| && 0 <= j < |Uses(f[b].body[k])| && Uses(f[b].body[k])[j].Var?
      ensures Uses(f[b].body[k])[j].name !in ts
    {
      forall t | t in ts
        ensures Uses(f[b].body[k])[j] != Var(t)
      {
        assert FreeIn(f[b], t);
      }
      assert Uses(f[b].body[k])[j] == Var(Uses(f[b].body[k])[j].name);
    }
    forall j | 0 <= j < |TermUses(f[b].term)| && TermUses(f[b].term)[j].Var?
      ensures TermUses(f[b].term)[j].name !in ts
    {
      forall t | t in ts
        ensures TermUses(f[b].term)[j] != Var(t)
      {
        assert FreeIn(f[b], t);
      }
      assert TermUses(f[b].term)[j] == Var(TermUses(f[b].term)[j].name);
    }
  }

  lemma FreeCopies(f: Func, u: nat, b: nat, ts: seq<Name>)
    requires u < |f| && forall t :: t in ts ==> Free(f, t)
    ensures forall c, t :: c in EdgeCopies(f[u].phis, b) && t in ts ==> c.from != Var(t)
  {
    forall c, t | c in EdgeCopies(f[u].phis, b) && t in ts
      ensures c.from != Var(t)
    {
      var k, j := CopyOrigin(f[u].phis, b, c);
      assert FreeIn(f[u], t);
      assert f[u].phis[k].args[j].0 == c.from;
    }
  }

  lemma SameFollowed(f: Func, b: nat, ts: seq<Name>, env: Env, env': Env)
    requires b < |f| && AgreeOn(Except(ts), env, env') && forall t :: t in ts ==> Free(f, t)
    ensures Follow(f[b].term, env') == Follow(f[b].term, env)
  {
    FreeUses(f, b, ts);
    match f[b].term
    case Branch(c, _, _) =>
      assert TermUses(f[b].term)[0] == c;
    case Return(Some(o)) =>
      assert TermUses(f[b].term)[0] == o;
    case _ =>
  }

  /** Block `b` and, on the split edge, the new block do what block `b` did. */
  lemma SplitStep(f: Func, g: Func, i: nat, v: nat, ts: seq<Name>, w: World, b: nat, s: State, t: State)
      returns (more: nat)
    requires SplitOf(f, g, i, v, ts) && ValidTargets(f) && AlikeBut(Except(ts), At(b, s), At(b, t)) && b < |f|
    ensures more > 0 && AlikeBut(Except(ts), StepBlock(w, f, At(b, s)), Runs(w, g, At(b, t), more))
    ensures var c := StepBlock(w, f, At(b, s)); c.At? ==> c.block < |f|
  {
    hide AgreeOn, Free, Except, SplitOf, Follow, EdgeCopies;
    more := 1;
    assert Runs(w, g, At(b, t), 0) == At(b, t);
    SplitFacts(f, g, i, v, ts, b);
    FreeUses(f, b, ts);
    ExecAllAgrees(w, f[b].body, Except(ts), s, t);
    if ExecAll(w, f[b].body, s).Some? {
      var s1, t1 := ExecAll(w, f[b].body, s).value, ExecAll(w, g[b].body, t).value;
      SameFollowed(f, b, ts, s1.env, t1.env);
      NotTaken(f, g, i, v, ts, b, t1.env);
      if Follow(f[b].term, s1.env).Goto? {
        var u := Follow(f[b].term, s1.env).block;
        TakenTarget(f, g, i, v, ts, b, s1.env, t1.env);
        FreeCopies(f, u, b, ts);
        var copies := EdgeCopies(f[u].phis, b);
        if b == i && u == v {
          CopyThrough(s1.env, t1.env, copies, ts);
          var mid := t1.(env := ParallelCopy(t1.env, EdgeCopies(g[|f|].phis, i)));
          assert Runs(w, g, At(b, t), 1) == At(|f|, mid);
          PassOn(w, g, |f|, v, mid);
          more := 2;
        } else {
          NamesKept(ts, copies);
          CopiesAgree(Except(ts), s1.env, t1.env, copies);
        }
      }
    }
  }

  lemma SplitFacts(f: Func, g: Func, i: nat, v: nat, ts: seq<Name>, b: nat)
    requires SplitOf(f, g, i, v, ts) && b < |f|
    ensures |g| == |f| + 1 && g[b].body == f[b].body && (b != i ==> g[b].term == f[b].term) && forall t :: t in ts ==>
        Free(f, t)
    ensures i < |f| && v < |f| && g[|f|].body == [] && g[|f|].term == Jump(v)
    ensures f[b].term.Branch? || b != i
  {
  }

  /** Where the split function goes, and the copies it makes on the way. */
  lemma TakenTarget(f: Func, g: Func, i: nat, v: nat, ts: seq<Name>, b: nat, env: Env, env': Env)
    requires SplitOf(f, g, i, v, ts) && ValidTargets(f) && b < |f| && Follow(f[b].term, env).Goto? &&
        Follow(f[b].term, env') == Follow(f[b].term, env)
    ensures var u := Follow(f[b].term, env).block;
      && u < |f| && Distinct(ts)
      && (if b == i && u == v then
            Follow(g[b].term, env') == Goto(|f|) && |ts| == |EdgeCopies(f[v].phis, i)| &&
            EdgeCopies(g[|f|].phis, i) == Into(EdgeCopies(f[v].phis, i), ts) &&
              EdgeCopies(g[v].phis, |f|) == OutOf(EdgeCopies(f[v].phis, i), ts)
          else Follow(g[b].term, env') == Goto(u) && EdgeCopies(g[u].phis, b) == EdgeCopies(f[u].phis, b))
  {
    hide Free, FreePhis;
    var u := Follow(f[b].term, env).block;
    assert u in Successors(f[b].term) && Successors(f[b].term) == Flow(f)[b];
  }

  lemma NotTaken(f: Func, g: Func, i: nat, v: nat, ts: seq<Name>, b: nat, env: Env)
    requires SplitOf(f, g, i, v, ts) && b < |f|
    ensures !Follow(f[b].term, env).Goto? ==> Follow(g[b].term, env) == Follow(f[b].term, env)
  {
    hide Free, PhisSplit;
  }

  lemma PassOn(w: World, g: Func, id: nat, v: nat, s: State)
    requires id < |g| && v < |g| && g[id].body == [] && g[id].term == Jump(v)
    ensures StepBlock(w, g, At(id, s)) == At(v, s.(env := ParallelCopy(s.env, EdgeCopies(g[v].phis, id))))
  {
    assert ExecAll(w, [], s) == Some(s);
  }

  lemma NamesKept(ts: seq<Name>, copies: seq<Copy>)
    requires forall c, t :: c in copies && t in ts ==> c.from != Var(t)
    ensures forall c :: c in copies && c.from.Var? ==> c.from.name in Except(ts)
  {
    forall c | c in copies && c.from.Var?
      ensures c.from.name !in ts
    {
      assert c.from == Var(c.from.name);
    }
  }

  lemma {:induction false} SplitRuns(f: Func, g: Func, i: nat, v: nat, ts: seq<Name>, w: World, params: Env, n: nat)
      returns (m: nat)
    requires SplitOf(f, g, i, v, ts) && ValidTargets(f)
    ensures m >= n && AlikeBut(Except(ts), Runs(w, f, Start(params), n), Runs(w, g, Start(params), m))
    ensures Runs(w, f, Start(params), n).At? ==> Runs(w, f, Start(params), n).block < |f|
  {
    hide SplitOf, StepBlock, Except;
    if n == 0 {
      m := 0;
    } else {
      m := SplitRuns(f, g, i, v, ts, w, params, n - 1);
      var c, d := Runs(w, f, Start(params), n - 1), Runs(w, g, Start(params), m);
      if c.At? {
        var more := SplitStep(f, g, i, v, ts, w, c.block, c.state, d.state);
        RunsOn(w, g, Start(params), m, more);
        m := m + more;
      } else {
        Stopped(w, f, c);
        Stopped(w, g, d);
        m := m + 1;
      }
    }
  }

  // ---- Several splits ----

  /** Every name but the transfer names. */
  ghost function OwnNames(): iset<Name> {
    iset x: Name | !IsTransfer(x)
  }

  /** After `n` blocks of `f` and at least as many of `g`, the two stand alike. */
  ghost predicate Matched(f: Func, g: Func, w: World, params: Env, n: nat) {
    exists m: nat :: n <= m && AlikeBut(OwnNames(), Runs(w, f, Start(params), n), Runs(w, g, Start(params), m))
  }

  ghost predicate Simulated(f: Func, g: Func) {
    forall w: World, params: Env, n: nat :: Matched(f, g, w, params, n)
  }

  lemma SimulatedSelf(f: Func)
    ensures Simulated(f, f)
  {
    forall w: World, params: Env, n: nat
      ensures Matched(f, f, w, params, n)
    {
      assert AlikeBut(OwnNames(), Runs(w, f, Start(params), n), Runs(w, f, Start(params), n));
    }
  }

  lemma AlikeTwice(names: iset<Name>, c: Config, d: Config, e: Config)
    requires AlikeBut(names, c, d) && AlikeBut(names, d, e)
    ensures AlikeBut(names, c, e)
  {
  }

  lemma AlikeLess(names: iset<Name>, less: iset<Name>, c: Config, d: Config)
    requires AlikeBut(names, c, d) && less <= names
    ensures AlikeBut(less, c, d)
  {
  }

  lemma SimulatedSplit(f: Func, g: Func, h: Func, i: nat, v: nat, ts: seq<Name>)
    requires Simulated(f, g) && ValidTargets(g) && SplitOf(g, h, i, v, ts) && forall t :: t in ts ==> IsTransfer(t)
    ensures Simulated(f, h)
  {
    hide AlikeBut, SplitOf;
    forall w: World, params: Env, n: nat
      ensures Matched(f, h, w, params, n)
    {
      assert Matched(f, g, w, params, n);
      var m: nat :| n <= m && AlikeBut(OwnNames(), Runs(w, f, Start(params), n), Runs(w, g, Start(params), m));
      var k := SplitRuns(g, h, i, v, ts, w, params, m);
      AlikeLess(Except(ts), OwnNames(), Runs(w, g, Start(params), m), Runs(w, h, Start(params), k));
      AlikeTwice(OwnNames(), Runs(w, f, Start(params), n), Runs(w, g, Start(params), m), Runs(w, h, Start(params), k));
    }
  }

  // ---- The pass ----

  /** The lists of successors and predecessors agree with the terminators; no list has a block twice. */
  ghost predicate Linked(f: Func, succs: seq<seq<nat>>, preds: seq<seq<nat>>) {
    && ValidTargets(f) && |succs| == |preds| == |f|
    && (forall b :: 0 <= b < |f| ==> succs[b] == Successors(f[b].term))
    && (forall b :: 0 <= b < |f| && f[b].term.Branch? ==> f[b].term.onTrue != f[b].term.onFalse)
    && (forall v: nat, u: nat {:trigger u in preds[v]} :: v < |f| ==> (u in preds[v] <==> u < |f| && v in succs[u]))
    && (forall v, a, b :: 0 <= v < |f| && 0 <= a < b < |preds[v]| ==> preds[v][a] != preds[v][b])
  }

  /** Phi operands come from predecessors. */
  ghost predicate FromPredecessors(f: Func) {
    forall v, k, j :: 0 <= v < |f| && 0 <= k < |f[v].phis| && 0 <= j < |f[v].phis[k].args| ==>
        IsPredecessor(f, f[v].phis[k].args[j].1, v)
  }

  predicate IsPredecessor(f: Func, b: nat, v: nat) {
    b < |f| && v in Successors(f[b].term)
  }

  ghost predicate HasOne(args: seq<(Operand, nat)>, b: nat) {
    (exists j :: 0 <= j < |args| && args[j].1 == b) && forall j, k :: 0 <= j < k < |args| ==>
      args[j].1 != b ||
      args[k].1 != b
  }

  /** Every phi has exactly one operand from each predecessor. */
  ghost predicate OneEach(f: Func) {
    forall v, k, b :: 0 <= v < |f| && 0 <= k < |f[v].phis| && IsPredecessor(f, b, v) ==> HasOne(f[v].phis[k].args, b)
  }

  /** None of the first `n` blocks branches to a block with another predecessor, and only blocks before `size`
   * branch. */
  ghost predicate NoneBefore(f: Func, preds: seq<seq<nat>>, n: nat, size: nat) {
    && size <= |f| == |preds|
    && (forall b :: size <= b < |f| ==> !f[b].term.Branch?)
    && (forall b, v :: 0 <= b < n && b < |f| && f[b].term.Branch? && v in Successors(f[b].term) && v < |f| ==>
      |preds[v]| <= 1)
  }

  lemma NoneLeft(f: Func, succs: seq<seq<nat>>, preds: seq<seq<nat>>, size: nat)
    requires Linked(f, succs, preds) && NoneBefore(f, preds, size, size)
    ensures NoCriticalEdges(f)
  {
    forall b, c, v | 0 <= b < |f| && 0 <= c < |f| && v in Successors(f[b].term) && v in Successors(f[c].term) &&
        f[b].term.Branch?
      ensures c == b
    {
      assert v in Flow(f)[b];
      assert v in succs[b] && v in succs[c];
      assert b in preds[v] && c in preds[v];
      assert |preds[v]| <= 1;
    }
  }

  lemma CopiesSnoc(a: seq<Phi>, r: Name, args: seq<(Operand, nat)>, x: (Operand, nat), q: nat)
    ensures EdgeCopies(a + [Phi(r, args + [x])], q) == EdgeCopies(a + [Phi(r, args)], q) + (if x.1 == q then
        [Copy(x.0, r)] else [])
  {
    var p, p' := Phi(r, args + [x]), Phi(r, args);
    EdgeCopiesAppend(a, [p], q);
    EdgeCopiesAppend(a, [p'], q);
    LonePhi(p, q);
    LonePhi(p', q);
    hide EdgeCopies;
    ArgsFromAppend(p, args, [x], q);
    SameArgs(p, p', args, q);
    LoneArg(p, x, q);
  }

  lemma LonePhi(p: Phi, q: nat)
    ensures EdgeCopies([p], q) == ArgsFrom(p, p.args, q)
  {
    assert [p][1..] == [];
  }

  lemma LoneArg(p: Phi, x: (Operand, nat), q: nat)
    ensures ArgsFrom(p, [x], q) == if x.1 == q then [Copy(x.0, p.result)] else []
  {
    assert [x][1..] == [];
  }

  lemma {:induction false} SameArgs(p: Phi, p': Phi, args: seq<(Operand, nat)>, q: nat)
    requires p.result == p'.result
    ensures ArgsFrom(p, args, q) == ArgsFrom(p', args, q)
  {
    if args != [] {
      SameArgs(p, p', args[1..], q);
    }
  }

  lemma NextPhi(a: seq<Phi>, a': seq<Phi>, news: seq<Phi>, i: nat, id: nat, ts: seq<Name>, r: Name)
    requires PhisSplit(a, a', news, i, id, ts)
    ensures PhisSplit(a + [Phi(r, [])], a' + [Phi(r, [])], news, i, id, ts)
  {
    hide FreePhis;
    forall q: nat
      ensures EdgeCopies(a + [Phi(r, [])], q) == EdgeCopies(a, q) && EdgeCopies(a' + [Phi(r, [])], q) ==
          EdgeCopies(a', q)
    {
      EdgeCopiesAppend(a, [Phi(r, [])], q);
      EdgeCopiesAppend(a', [Phi(r, [])], q);
    }
    forall x
      ensures FreePhis(a + [Phi(r, [])], x) == FreePhis(a, x) && FreePhis(a' + [Phi(r, [])], x) == FreePhis(a', x)
    {
      FreeSnoc(a, r, [], x);
      FreeSnoc(a', r, [], x);
    }
  }

  lemma FreeSnoc(a: seq<Phi>, r: Name, args: seq<(Operand, nat)>, x: Name)
    ensures FreePhis(a + [Phi(r, args)], x) == (FreePhis(a, x) && forall j :: 0 <= j < |args| ==> args[j].0 != Var(x))
  {
    var b := a + [Phi(r, args)];
    forall k, j | 0 <= k < |a| && 0 <= j < |a[k].args|
      ensures b[k].args[j] == a[k].args[j]
    {
    }
    if FreePhis(b, x) {
      assert b[|a|].args == args;
    }
  }

  /** An operand that does not come over the split edge stays. */
  lemma ArgKept(a: seq<Phi>, a': seq<Phi>, news: seq<Phi>, i: nat, id: nat, ts: seq<Name>, r: Name,
      args: seq<(Operand, nat)>, args': seq<(Operand, nat)>, x: (Operand, nat))
    requires PhisSplit(a + [Phi(r, args)], a' + [Phi(r, args')], news, i, id, ts) && x.1 != i && x.1 != id
    ensures PhisSplit(a + [Phi(r, args + [x])], a' + [Phi(r, args' + [x])], news, i, id, ts)
  {
    hide FreePhis;
    forall q: nat
      ensures EdgeCopies(a + [Phi(r, args + [x])], q) == EdgeCopies(a + [Phi(r, args)], q) + (if x.1 == q then
          [Copy(x.0, r)] else [])
      ensures EdgeCopies(a' + [Phi(r, args' + [x])], q) == EdgeCopies(a' + [Phi(r, args')], q) + (if x.1 == q then
          [Copy(x.0, r)] else [])
    {
      CopiesSnoc(a, r, args, x, q);
      CopiesSnoc(a', r, args', x, q);
    }
    ResultsSnoc(a, a', i, id, r, args, args', x, x);
    forall y
      ensures FreePhis(a + [Phi(r, args + [x])], y) == (FreePhis(a + [Phi(r, args)], y) && x.0 != Var(y))
      ensures FreePhis(a' + [Phi(r, args' + [x])], y) == (FreePhis(a' + [Phi(r, args')], y) && x.0 != Var(y))
    {
      FreeArg(a, r, args, x, y);
      FreeArg(a', r, args', x, y);
    }
  }

  lemma FreeArg(a: seq<Phi>, r: Name, args: seq<(Operand, nat)>, x: (Operand, nat), y: Name)
    ensures FreePhis(a + [Phi(r, args + [x])], y) == (FreePhis(a + [Phi(r, args)], y) && x.0 != Var(y))
  {
    FreeSnoc(a, r, args + [x], y);
    FreeSnoc(a, r, args, y);
    assert (args + [x])[|args|] == x;
    assert forall j :: 0 <= j < |args| ==> (args + [x])[j] == args[j];
  }

  lemma ResultsSnoc(a: seq<Phi>, a': seq<Phi>, i: nat, id: nat, r: Name, args: seq<(Operand, nat)>,
      args': seq<(Operand, nat)>, x: (Operand, nat), x': (Operand, nat))
    requires |a'| == |a|
    requires forall k :: 0 <= k <= |a| ==>
        (a' + [Phi(r, args')])[k].result == (a + [Phi(r, args)])[k].result &&
        ArgsSplit((a + [Phi(r, args)])[k].args, (a' + [Phi(r, args')])[k].args, i, id)
    requires if x.1 == i then x'.1 == id else x' == x
    ensures forall k :: 0 <= k <= |a| ==>
        (a' + [Phi(r, args' + [x'])])[k].result == (a + [Phi(r, args + [x])])[k].result
    ensures forall k :: 0 <= k <= |a| ==>
        ArgsSplit((a + [Phi(r, args + [x])])[k].args, (a' + [Phi(r, args' + [x'])])[k].args, i, id)
  {
    forall k | 0 <= k < |a|
      ensures (a' + [Phi(r, args' + [x'])])[k] == a'[k] && (a + [Phi(r, args + [x])])[k] == a[k]
      ensures a'[k].result == a[k].result && ArgsSplit(a[k].args, a'[k].args, i, id)
    {
      assert (a' + [Phi(r, args')])[k] == a'[k] && (a + [Phi(r, args)])[k] == a[k];
    }
    assert (a' + [Phi(r, args')])[|a|] == Phi(r, args') && (a + [Phi(r, args)])[|a|] == Phi(r, args);
  }

  lemma OnePhi(t: Name, val: Operand, i: nat)
    ensures EdgeCopies([Phi(t, [(val, i)])], i) == [Copy(val, t)]
  {
    LonePhi(Phi(t, [(val, i)]), i);
    LoneArg(Phi(t, [(val, i)]), (val, i), i);
  }

  lemma CopiesOfArg(a: seq<Phi>, a': seq<Phi>, i: nat, id: nat, r: Name, args: seq<(Operand, nat)>,
      args': seq<(Operand, nat)>, val: Operand, t: Name)
    ensures forall q: nat ::
      EdgeCopies(a + [Phi(r, args + [(val, i)])], q) ==
      EdgeCopies(a + [Phi(r, args)], q) + if i == q then [Copy(val, r)] else []
    ensures forall q: nat ::
      EdgeCopies(a' + [Phi(r, args' + [(Var(t), id)])], q) ==
      EdgeCopies(a' + [Phi(r, args')], q) + if id == q then [Copy(Var(t), r)] else []
  {
    hide EdgeCopies;
    forall q: nat
      ensures EdgeCopies(a + [Phi(r, args + [(val, i)])], q) ==
        EdgeCopies(a + [Phi(r, args)], q) + if i == q then [Copy(val, r)] else []
      ensures EdgeCopies(a' + [Phi(r, args' + [(Var(t), id)])], q) ==
        EdgeCopies(a' + [Phi(r, args')], q) + if id == q then [Copy(Var(t), r)] else []
    {
      CopiesSnoc(a, r, args, (val, i), q);
      CopiesSnoc(a', r, args', (Var(t), id), q);
    }
  }

  lemma FreeOfArg(a: seq<Phi>, a': seq<Phi>, news: seq<Phi>, i: nat, id: nat, r: Name, args: seq<(Operand, nat)>,
      args': seq<(Operand, nat)>, val: Operand, t: Name, ts: seq<Name>)
    requires forall x :: FreePhis(a + [Phi(r, args)], x) ==>
        FreePhis(news, x) && (x !in ts ==> FreePhis(a' + [Phi(r, args')], x))
    ensures forall x :: FreePhis(a + [Phi(r, args + [(val, i)])], x) ==>
        FreePhis(news + [Phi(t, [(val, i)])], x) &&
        (x !in ts + [t] ==> FreePhis(a' + [Phi(r, args' + [(Var(t), id)])], x))
  {
    hide FreePhis;
    var n := Phi(t, [(val, i)]);
    forall y | FreePhis(a + [Phi(r, args + [(val, i)])], y)
      ensures FreePhis(news + [n], y) && (y !in ts + [t] ==> FreePhis(a' + [Phi(r, args' + [(Var(t), id)])], y))
    {
      FreeArg(a, r, args, (val, i), y);
      FreeArg(a', r, args', (Var(t), id), y);
      FreeSnoc(news, t, [(val, i)], y);
      assert t in ts + [t] && forall z :: z in ts ==> z in ts + [t];
    }
  }

  /** An operand over the split edge goes through a transfer name. */
  lemma ArgTaken(a: seq<Phi>, a': seq<Phi>, news: seq<Phi>, i: nat, id: nat, ts: seq<Name>, r: Name,
      args: seq<(Operand, nat)>, args': seq<(Operand, nat)>, val: Operand, t: Name)
    requires PhisSplit(a + [Phi(r, args)], a' + [Phi(r, args')], news, i, id, ts) && i != id
    ensures PhisSplit(a + [Phi(r, args + [(val, i)])], a' + [Phi(r, args' + [(Var(t), id)])],
        news + [Phi(t, [(val, i)])], i, id, ts + [t])
  {
    hide FreePhis, EdgeCopies;
    var n := Phi(t, [(val, i)]);
    CopiesOfArg(a, a', i, id, r, args, args', val, t);
    EdgeCopiesAppend(news, [n], i);
    OnePhi(t, val, i);
    ResultsSnoc(a, a', i, id, r, args, args', (val, i), (Var(t), id));
    FreeOfArg(a, a', news, i, id, r, args, args', val, t, ts);
  }

  lemma NothingSplit(i: nat, id: nat)
    ensures PhisSplit([], [], [], i, id, [])
  {
  }

  // ---- Which edges are split ----

  /** The `j`-th edge out of `i` leaves a branch and enters a block with another predecessor. */
  ghost predicate CriticalEdge(f: Func, i: nat, j: nat) {
    i < |f| && f[i].term.Branch? && j < 2 &&
    exists c: nat :: c != i && IsPredecessor(f, c, Successors(f[i].term)[j])
  }

  /** The number of critical edges among the first `j` out of `i`, and among those out of the first `n` blocks. */
  ghost function CriticalOut(f: Func, i: nat, j: nat): nat
    requires i < |f|
    decreases j
  {
    if j == 0 then 0 else CriticalOut(f, i, j - 1) + if CriticalEdge(f, i, j - 1) then 1 else 0
  }

  ghost function CriticalCount(f: Func, n: nat): nat
    requires n <= |f|
    decreases n
  {
    if n == 0 then 0 else CriticalCount(f, n - 1) + CriticalOut(f, n - 1, |Successors(f[n - 1].term)|)
  }

  predicate Before(i: nat, j: nat, n: nat, m: nat) {
    i < n || (i == n && j < m)
  }

  /** The edge leads to a new block that only jumps where it led before, or it is as it was. */
  ghost predicate EdgeSplit(f0: Func, f: Func, i: nat, j: nat, split: bool)
    requires i < |f0| <= |f| && |Successors(f[i].term)| == |Successors(f0[i].term)| && j < |Successors(f0[i].term)|
  {
    var v0, v := Successors(f0[i].term)[j], Successors(f[i].term)[j];
    if split then |f0| <= v < |f| && f[v].body == [] && f[v].term == Jump(v0) else v == v0
  }

  /** Exactly the critical edges before the `m`-th out of block `n` are split; nothing else about the code differs. */
  ghost predicate SplitUpTo(f0: Func, f: Func, n: nat, m: nat) {
    && |f0| <= |f| && (|f| == |f0| ==> f == f0)
    && (forall i: nat :: i < |f0| ==>
      f[i].body == f0[i].body && |Successors(f[i].term)| == |Successors(f0[i].term)| &&
      TermUses(f[i].term) == TermUses(f0[i].term))
    && (forall i: nat, j: nat :: i < |f0| && j < |Successors(f0[i].term)| ==>
      EdgeSplit(f0, f, i, j, Before(i, j, n, m) && CriticalEdge(f0, i, j)))
  }

  lemma SplitNothing(f: Func)
    ensures SplitUpTo(f, f, 0, 0)
  {
  }

  lemma NextSource(f0: Func, f: Func, n: nat)
    requires SplitUpTo(f0, f, n, 0) && n < |f0| && !f0[n].term.Branch?
    ensures SplitUpTo(f0, f, n + 1, 0)
  {
    hide CriticalEdge;
    assert !CriticalEdge(f0, n, 0) && !CriticalEdge(f0, n, 1) by {
      NotCritical(f0, n);
    }
    StillSplit(f0, f, n, 0, n + 1, 0);
  }

  lemma NotCritical(f: Func, n: nat)
    requires n < |f| && !f[n].term.Branch?
    ensures forall j: nat :: !CriticalEdge(f, n, j)
  {
  }

  /** Moving on over edges that are not critical. */
  lemma StillSplit(f0: Func, f: Func, n: nat, m: nat, n': nat, m': nat)
    requires SplitUpTo(f0, f, n, m)
    requires forall i: nat, j: nat :: i < |f0| && j < |Successors(f0[i].term)| && CriticalEdge(f0, i, j) ==>
        (Before(i, j, n, m) <==> Before(i, j, n', m'))
    ensures SplitUpTo(f0, f, n', m')
  {
    hide CriticalEdge, Before;
    forall i: nat, j: nat | i < |f0| && j < |Successors(f0[i].term)|
      ensures EdgeSplit(f0, f, i, j, Before(i, j, n', m') && CriticalEdge(f0, i, j))
    {
      assert EdgeSplit(f0, f, i, j, Before(i, j, n, m) && CriticalEdge(f0, i, j));
    }
  }

  lemma SplitOneMore(f0: Func, f: Func, g: Func, i: nat, j: nat, v: nat, ts: seq<Name>)
    requires SplitUpTo(f0, f, i, j) && i < |f0| && j < 2 && CriticalEdge(f0, i, j) && SplitOf(f, g, i, v, ts)
    requires Successors(f[i].term)[j] == v
    ensures SplitUpTo(f0, g, i, j + 1)
  {
    hide CriticalEdge, Free, PhisSplit;
    RetargetSuccessors(f[i].term, j, |f|);
    forall a: nat, b: nat | a < |f0| && b < |Successors(f0[a].term)|
      ensures EdgeSplit(f0, g, a, b, Before(a, b, i, j + 1) && CriticalEdge(f0, a, b))
    {
      assert EdgeSplit(f0, f, a, b, Before(a, b, i, j) && CriticalEdge(f0, a, b));
    }
  }

  /** Another predecessor makes the list longer than one. */
  lemma PredecessorCount(f: Func, succs: seq<seq<nat>>, preds: seq<seq<nat>>, i: nat, j: nat)
    requires Linked(f, succs, preds) && i < |f| && f[i].term.Branch? && j < 2 && Successors(f[i].term)[j] < |f|
    ensures |preds[Successors(f[i].term)[j]]| > 1 <==> CriticalEdge(f, i, j)
  {
    var v := Successors(f[i].term)[j];
    var ps := preds[v];
    assert v in succs[i];
    assert i in ps;
    if |ps| > 1 {
      assert ps[0] != ps[1];
      var c := if ps[0] == i then ps[1] else ps[0];
      assert c in ps;
      assert IsPredecessor(f, c, v);
    }
    if c: nat :| c != i && IsPredecessor(f, c, v) {
      assert v in succs[c];
      assert c in ps;
    }
  }

  lemma {:induction false} NoneOut(f: Func, i: nat, j: nat)
    requires i < |f| && forall k: nat :: !CriticalEdge(f, i, k)
    ensures CriticalOut(f, i, j) == 0
    decreases j
  {
    hide CriticalEdge;
    if j > 0 {
      NoneOut(f, i, j - 1);
    }
  }

  lemma {:induction false} NothingCritical(f: Func, n: nat)
    requires NoCriticalEdges(f) && n <= |f|
    ensures CriticalCount(f, n) == 0
    decreases n
  {
    if n > 0 {
      var m := n - 1;
      NothingCritical(f, m);
      forall k: nat
        ensures !CriticalEdge(f, m, k)
      {
      }
      NoneOut(f, m, |Successors(f[m].term)|);
    }
  }

  lemma Unsplit(f0: Func, f: Func)
    requires SplitUpTo(f0, f, |f0|, 0) && |f| == |f0|
    ensures f == f0
  {
  }

  lemma CountedBranch(f0: Func, f: Func, i: nat)
    requires i < |f0| <= |f| && f[i].term.Branch? && SplitUpTo(f0, f, i, 0)
    ensures f0[i].term.Branch? && |Successors(f0[i].term)| == 2
    ensures CriticalOut(f0, i, 0) == 0
  {
  }

  lemma OneMoreOut(f: Func, i: nat, j: nat)
    requires i < |f|
    ensures CriticalOut(f, i, j + 1) == CriticalOut(f, i, j) + if CriticalEdge(f, i, j) then 1 else 0
    ensures |Successors(f[i].term)| == j + 1 ==>
        CriticalCount(f, i + 1) == CriticalCount(f, i) + CriticalOut(f, i, j + 1)
  {
    hide CriticalEdge;
  }

  /** The edge has not been touched yet, and its target has as many predecessors as it had. */
  lemma StillThere(f0: Func, f: Func, succs0: seq<seq<nat>>, preds0: seq<seq<nat>>, succs: seq<seq<nat>>,
      preds: seq<seq<nat>>, i: nat, j: nat)
    requires Linked(f0, succs0, preds0) && Linked(f, succs, preds) && SplitUpTo(f0, f, i, j) && i < |f0| && j < 2
    requires SameCounts(preds0, preds, |f0|) && f0[i].term.Branch?
    ensures Successors(f[i].term)[j] == Successors(f0[i].term)[j] == succs[i][j] < |f0|
    ensures |preds[succs[i][j]]| > 1 <==> CriticalEdge(f0, i, j)
  {
    hide CriticalEdge;
    assert EdgeSplit(f0, f, i, j, Before(i, j, i, j) && CriticalEdge(f0, i, j));
    assert Flow(f0)[i][j] < |f0|;
    PredecessorCount(f0, succs0, preds0, i, j);
  }

  lemma NextEdge(f0: Func, f: Func, i: nat, j: nat)
    requires SplitUpTo(f0, f, i, j) && i < |f0| && !CriticalEdge(f0, i, j)
    ensures SplitUpTo(f0, f, i, j + 1)
  {
    hide CriticalEdge, SplitUpTo;
    StillSplit(f0, f, i, j, i, j + 1);
  }

  lemma NoBranch(f0: Func, f: Func, i: nat)
    requires SplitUpTo(f0, f, i, 0) && i < |f0| && |Successors(f[i].term)| < 2
    ensures SplitUpTo(f0, f, i + 1, 0) && CriticalCount(f0, i + 1) == CriticalCount(f0, i)
  {
    assert !f0[i].term.Branch?;
    hide SplitUpTo;
    NextSource(f0, f, i);
    NotCritical(f0, i);
    NoneOut(f0, i, |Successors(f0[i].term)|);
  }

  lemma OutDone(f0: Func, f: Func, i: nat)
    requires SplitUpTo(f0, f, i, 2) && i < |f0|
    ensures SplitUpTo(f0, f, i + 1, 0)
  {
    hide SplitUpTo;
    StillSplit(f0, f, i, 2, i + 1, 0);
  }

  /** The counts of predecessors of the first `size` blocks are the same. */
  ghost predicate SameCounts(preds0: seq<seq<nat>>, preds: seq<seq<nat>>, size: nat) {
    size <= |preds0| && size <= |preds| && forall v :: 0 <= v < size ==> |preds[v]| == |preds0[v]|
  }

  class EdgeSplitter {
    var f: Func
    var succs: seq<seq<nat>>
    var preds: seq<seq<nat>>
    const names: NameAllocator

    constructor (f: Func, succs: seq<seq<nat>>, preds: seq<seq<nat>>)
      ensures this.f == f && this.succs == succs && this.preds == preds && fresh(names) && names.Count(TRANSFER) == 0
    {
      this.f, this.succs, this.preds := f, succs, preds;
      names := new NameAllocator();
    }

    /** The first `i` in a list becomes `id`. */
    static method ReplaceFirst(ps: seq<nat>, i: nat, id: nat) returns (qs: seq<nat>, ghost x: nat)
      requires i in ps
      ensures x < |ps| && ps[x] == i && qs == ps[x := id]
    {
      for k := 0 to |ps|
        invariant i !in ps[..k]
      {
        if ps[k] == i {
          return ps[k := id], k;
        }
      }
    }

    /** The phis of the target and of the new block. */
    method SplitPhis(phis: seq<Phi>, i: nat, id: nat) returns (phis': seq<Phi>, news: seq<Phi>, ghost ts: seq<Name>)
      requires i != id && forall k, j :: 0 <= k < |phis| && 0 <= j < |phis[k].args| ==> phis[k].args[j].1 != id
      modifies names
      ensures PhisSplit(phis, phis', news, i, id, ts)
      ensures ts == TransfersFrom(old(names.Count(TRANSFER)), |ts|) &&
          names.Count(TRANSFER) == old(names.Count(TRANSFER)) + |ts|
    {
      hide PhisSplit;
      ghost var n0 := names.Count(TRANSFER);
      phis', news, ts := [], [], [];
      NothingSplit(i, id);
      for k := 0 to |phis|
        invariant PhisSplit(phis[..k], phis', news, i, id, ts)
        invariant ts == TransfersFrom(n0, |ts|) && names.Count(TRANSFER) == n0 + |ts|
      {
        var phi := phis[k];
        var args: seq<(Operand, nat)> := [];
        NextPhi(phis[..k], phis', news, i, id, ts, phi.result);
        for j := 0 to |phi.args|
          invariant PhisSplit(phis[..k] + [Phi(phi.result, phi.args[..j])], phis' + [Phi(phi.result, args)], news, i,
              id, ts)
          invariant ts == TransfersFrom(n0, |ts|) && names.Count(TRANSFER) == n0 + |ts|
        {
          var val, from := phi.args[j].0, phi.args[j].1;
          assert phi.args[..j + 1] == phi.args[..j] + [(val, from)];
          if from == i {
            var transfer := names.Allocate(TRANSFER);
            ArgTaken(phis[..k], phis', news, i, id, ts, phi.result, phi.args[..j], args, val, transfer);
            news := news + [Phi(transfer, [(val, from)])];
            args := args + [(Var(transfer), id)];
            ts := ts + [transfer];
          } else {
            ArgKept(phis[..k], phis', news, i, id, ts, phi.result, phi.args[..j], args, (val, from));
            args := args + [(val, from)];
          }
        }
        assert phi.args[..|phi.args|] == phi.args && Phi(phi.result, phi.args) == phi;
        assert phis[..k + 1] == phis[..k] + [phi];
        phis' := phis' + [Phi(phi.result, args)];
      }
      assert phis[..|phis|] == phis;
    }

    /** What holds between splits; `f0` is the function before the first. */
    ghost predicate Ready(f0: Func)
      reads this, names
    {
      && Linked(f, succs, preds) && FromPredecessors(f) && FreeAbove(f, names.Count(TRANSFER))
      && Simulated(f0, f) && (OneEach(f0) ==> OneEach(f)) && (EntryHasNoPredecessor(f0) ==> EntryHasNoPredecessor(f))
    }

    /** A new block on the `j`-th edge out of `i`. */
    method SplitEdge(i: nat, j: nat, ghost f0: Func, ghost size: nat)
      requires Ready(f0) && i < |f| && f[i].term.Branch? && j < |succs[i]| && NoneBefore(f, preds, i, size) && i < size
      modifies `f, `succs, `preds, names
      ensures Ready(f0) && |f| == |old(f)| + 1 && f[i].term.Branch? && NoneBefore(f, preds, i, size)
      ensures succs[i] == old(succs)[i][j := |old(f)|] && |preds| == |old(preds)| + 1 && |preds[|old(f)|]| == 1
      ensures forall v :: 0 <= v < |old(f)| ==> |preds[v]| == |old(preds)[v]|
      ensures old(succs)[i][j] == Successors(old(f)[i].term)[j] < |old(f)|
      ensures exists ts :: SplitOf(old(f), f, i, old(succs)[i][j], ts)
    {
      hide Linked, FromPredecessors, FreeAbove, Simulated, OneEach, EntryHasNoPredecessor, NoneBefore, PhisSplit,
        SplitOf;
      ghost var g, s, p, n0 := f, succs, preds, names.Count(TRANSFER);
      EdgeFacts(f, succs, preds, i, j);
      assert Successors(f[i].term)[j] == succs[i][j];
      var id, v := |f|, succs[i][j];
      SourcesBelow(f, v);
      var phis, news;
      ghost var ts;
      phis, news, ts := SplitPhis(f[v].phis, i, id);
      var ps;
      ghost var x;
      ps, x := ReplaceFirst(preds[v], i, id);
      f := f + [Block(news, [], Jump(v))];
      succs := succs + [[v]];
      preds := preds + [[i]];
      var outs: seq<nat> := succs[i][j := id];
      succs := succs[i := outs];
      preds := preds[v := ps];
      f := f[i := f[i].(term := Retarget(f[i].term, v, id))];
      f := f[v := f[v].(phis := phis)];
      assert f == Split(g, i, v, phis, news);
      SplitIsSplit(g, i, v, phis, news, ts, n0);
      TransfersAre(ts, n0);
      SimulatedSplit(f0, g, f, i, v, ts);
      SplitLinked(g, s, p, i, j, v, phis, news, x);
      SplitSources(g, f, i, v, ts);
      SplitFree(g, f, i, v, ts, n0);
      SplitOneEach(g, f, i, v, ts);
      SplitNoneBefore(g, s, p, i, j, v, phis, news, x, size);
    }

    /** The critical edges out of one block. */
    method SplitOut(i: nat, ghost f0: Func, ghost succs0: seq<seq<nat>>, ghost preds0: seq<seq<nat>>)
      requires Ready(f0) && i < |f0| <= |f| && NoneBefore(f, preds, i, |f0|) && f[i].term.Branch?
      requires Linked(f0, succs0, preds0) && SameCounts(preds0, preds, |f0|)
      requires SplitUpTo(f0, f, i, 0) && |f| == |f0| + CriticalCount(f0, i)
      modifies `f, `succs, `preds, names
      ensures Ready(f0) && |f0| <= |f| && NoneBefore(f, preds, i + 1, |f0|) && SameCounts(preds0, preds, |f0|)
      ensures SplitUpTo(f0, f, i + 1, 0) && |f| == |f0| + CriticalCount(f0, i + 1)
    {
      hide Linked, FromPredecessors, FreeAbove, Simulated, OneEach, EntryHasNoPredecessor, NoneBefore, SplitUpTo,
        CriticalEdge, SplitOf, CriticalCount, CriticalOut;
      LinkedSizes(f, succs, preds, i);
      CountedBranch(f0, f, i);
      var suc_size := |succs[i]|;
      for j := 0 to suc_size
        invariant Ready(f0) && i < |f0| <= |f| == |preds| == |succs| && |succs[i]| == suc_size == 2
        invariant f[i].term.Branch? && NoneBefore(f, preds, i, |f0|) && SameCounts(preds0, preds, |f0|)
        invariant SplitUpTo(f0, f, i, j) && |f| == |f0| + CriticalCount(f0, i) + CriticalOut(f0, i, j)
        invariant forall k :: 0 <= k < j ==> succs[i][k] < |preds| && |preds[succs[i][k]]| <= 1
      {
        EdgeFacts(f, succs, preds, i, j);
        var v := succs[i][j];
        ghost var g := f;
        StillThere(f0, f, succs0, preds0, succs, preds, i, j);
        if |preds[v]| > 1 {
          SplitEdge(i, j, f0, |f0|);
          LinkedSizes(f, succs, preds, i);
          ghost var ts :| SplitOf(g, f, i, v, ts);
          SplitOneMore(f0, g, f, i, j, v, ts);
        } else {
          NextEdge(f0, f, i, j);
        }
        OneMoreOut(f0, i, j);
      }
      OneMoreDone(f, succs, preds, i, |f0|);
      OneMoreOut(f0, i, 1);
      OutDone(f0, f, i);
    }

    method EliminateCriticalEdge()
      requires Linked(f, succs, preds) && FromPredecessors(f) && FreeAbove(f, names.Count(TRANSFER))
      modifies `f, `succs, `preds, names
      ensures ValidTargets(f) && NoCriticalEdges(f) && Simulated(old(f), f)
      ensures OneEach(old(f)) ==> OneEach(f)
      ensures EntryHasNoPredecessor(old(f)) ==> EntryHasNoPredecessor(f)
      ensures SplitUpTo(old(f), f, |old(f)|, 0) && |f| == |old(f)| + CriticalCount(old(f), |old(f)|)
      ensures NoCriticalEdges(old(f)) ==> f == old(f)
    {
      hide Linked, FromPredecessors, FreeAbove, Simulated, OneEach, EntryHasNoPredecessor, NoneBefore, SplitUpTo,
        CriticalEdge;
      ghost var f0, succs0, preds0 := f, succs, preds;
      SimulatedSelf(f);
      SplitNothing(f);
      var size := |f|;
      NothingBefore(f, succs, preds);
      for i := 0 to size
        invariant Ready(f0) && size <= |f| && NoneBefore(f, preds, i, size)
        invariant SameCounts(preds0, preds, size) && SplitUpTo(f0, f, i, 0) && |f| == size + CriticalCount(f0, i)
      {
        LinkedSizes(f, succs, preds, i);
        if |succs[i]| > 1 {
          SplitOut(i, f0, succs0, preds0);
        } else {
          OneMoreDone(f, succs, preds, i, size);
          NoBranch(f0, f, i);
        }
      }
      NoneLeft(f, succs, preds, size);
      LinkedTargets(f, succs, preds);
      if NoCriticalEdges(f0) {
        NothingCritical(f0, size);
        Unsplit(f0, f);
      }
    }
  }

  function Split(f: Func, i: nat, v: nat, phis: seq<Phi>, news: seq<Phi>): Func
    requires i < |f| && v < |f|
  {
    var g := f + [Block(news, [], Jump(v))];
    var g1 := g[i := g[i].(term := Retarget(g[i].term, v, |f|))];
    g1[v := g1[v].(phis := phis)]
  }

  lemma LinkedTargets(f: Func, succs: seq<seq<nat>>, preds: seq<seq<nat>>)
    requires Linked(f, succs, preds)
    ensures ValidTargets(f)
  {
  }

  lemma LinkedSizes(f: Func, succs: seq<seq<nat>>, preds: seq<seq<nat>>, i: nat)
    requires Linked(f, succs, preds) && i < |f|
    ensures |succs| == |preds| == |f| && succs[i] == Successors(f[i].term) && (|succs[i]| > 1 <==> f[i].term.Branch?)
  {
  }

  lemma EdgeFacts(f: Func, succs: seq<seq<nat>>, preds: seq<seq<nat>>, i: nat, j: nat)
    requires Linked(f, succs, preds) && i < |f| && j < |succs[i]|
    ensures |succs| == |preds| == |f| && ValidTargets(f) && succs[i] == Successors(f[i].term) && succs[i][j] < |f| &&
        i in preds[succs[i][j]]
    ensures f[i].term.Branch? ==> f[i].term.onTrue != f[i].term.onFalse
  {
    assert Flow(f)[i] == succs[i];
    assert succs[i][j] in succs[i];
  }

  lemma SourcesBelow(f: Func, v: nat)
    requires FromPredecessors(f) && v < |f|
    ensures forall k, j :: 0 <= k < |f[v].phis| && 0 <= j < |f[v].phis[k].args| ==> f[v].phis[k].args[j].1 < |f|
  {
  }

  lemma TransfersAre(ts: seq<Name>, n: nat)
    requires ts == TransfersFrom(n, |ts|)
    ensures Distinct(ts) && forall t :: t in ts ==> IsTransfer(t)
  {
    TransfersDistinct(n, |ts|);
  }

  lemma NothingBefore(f: Func, succs: seq<seq<nat>>, preds: seq<seq<nat>>)
    requires Linked(f, succs, preds)
    ensures NoneBefore(f, preds, 0, |f|)
  {
  }

  lemma OneMoreDone(f: Func, succs: seq<seq<nat>>, preds: seq<seq<nat>>, i: nat, size: nat)
    requires Linked(f, succs, preds) && NoneBefore(f, preds, i, size) && i < |f|
    requires |succs[i]| > 1 ==> forall k :: 0 <= k < |succs[i]| ==> succs[i][k] < |preds| && |preds[succs[i][k]]| <= 1
    ensures NoneBefore(f, preds, i + 1, size)
  {
    forall v | f[i].term.Branch? && v in Successors(f[i].term) && v < |f|
      ensures |preds[v]| <= 1
    {
      var k :| 0 <= k < |succs[i]| && succs[i][k] == v;
    }
  }

  lemma SplitIsSplit(f: Func, i: nat, v: nat, phis: seq<Phi>, news: seq<Phi>, ts: seq<Name>, n: nat)
    requires i < |f| && v < |f| && f[i].term.Branch? && f[i].term.onTrue != f[i].term.onFalse &&
        v in Successors(f[i].term)
    requires PhisSplit(f[v].phis, phis, news, i, |f|, ts) && ts == TransfersFrom(n, |ts|) && FreeAbove(f, n)
    ensures SplitOf(f, Split(f, i, v, phis, news), i, v, ts)
  {
    hide PhisSplit, Free;
    TransfersDistinct(n, |ts|);
    forall t | t in ts
      ensures Free(f, t)
    {
      var a :| 0 <= a < |ts| && ts[a] == t;
    }
  }

  /** The targets after one has been replaced. */
  lemma RetargetSuccessors(t: Term, j: nat, id: nat)
    requires t.Branch? && t.onTrue != t.onFalse && j < 2
    ensures Successors(Retarget(t, Successors(t)[j], id)) == Successors(t)[j := id] &&
        Retarget(t, Successors(t)[j], id).Branch?
  {
  }

  lemma SplitLinked(f: Func, succs: seq<seq<nat>>, preds: seq<seq<nat>>, i: nat, j: nat, v: nat, phis: seq<Phi>,
      news: seq<Phi>, x: nat)
    requires Linked(f, succs, preds) && i < |f| && f[i].term.Branch? && j < |succs[i]| && succs[i][j] == v < |f| &&
        x < |preds[v]| && preds[v][x] == i
    ensures Linked(Split(f, i, v, phis, news), (succs + [[v]])[i := succs[i][j := |f|]],
        (preds + [[i]])[v := preds[v][x := |f|]])
  {
    var g := Split(f, i, v, phis, news);
    var succs', preds' := (succs + [[v]])[i := succs[i][j := |f|]], (preds + [[i]])[v := preds[v][x := |f|]];
    SplitTerms(f, succs, preds, i, j, v, phis, news);
    SplitTargets(f, g, succs, succs', i, j, v);
    hide ValidTargets, Split, Successors;
    forall u: nat, b: nat {:trigger b in preds'[u]} | u < |g|
      ensures b in preds'[u] <==> b < |g| && u in succs'[b]
    {
      SplitMembers(f, succs, preds, i, j, v, x, u, b);
    }
    forall u, a, b | 0 <= u < |g| && 0 <= a < b < |preds'[u]|
      ensures preds'[u][a] != preds'[u][b]
    {
      if u == v {
        assert preds[v][a] in preds[v] && preds[v][b] in preds[v];
      }
    }
  }

  lemma SplitTerms(f: Func, succs: seq<seq<nat>>, preds: seq<seq<nat>>, i: nat, j: nat, v: nat, phis: seq<Phi>,
      news: seq<Phi>)
    requires Linked(f, succs, preds) && i < |f| && f[i].term.Branch? && j < |succs[i]| && succs[i][j] == v < |f|
    ensures var g, succs' := Split(f, i, v, phis, news), (succs + [[v]])[i := succs[i][j := |f|]];
      && |g| == |f| + 1
      && (forall b :: 0 <= b < |g| ==> succs'[b] == Successors(g[b].term))
      && (forall b :: 0 <= b < |g| && g[b].term.Branch? ==> g[b].term.onTrue != g[b].term.onFalse)
      && (forall b :: 0 <= b < |g| ==> succs'[b] == if b == |f| then [v] else if b == i then succs[i][j := |f|]
        else succs[b])
  {
    var g, succs' := Split(f, i, v, phis, news), (succs + [[v]])[i := succs[i][j := |f|]];
    RetargetSuccessors(f[i].term, j, |f|);
    assert Flow(f)[i] == succs[i];
    assert Flow(f)[i][0] < |f| && Flow(f)[i][1] < |f|;
    forall b | 0 <= b < |g|
      ensures g[b].term == if b == |f| then Jump(v) else if b == i then Retarget(f[i].term, v, |f|) else f[b].term
    {
    }
  }

  lemma SplitTargets(f: Func, g: Func, succs: seq<seq<nat>>, succs': seq<seq<nat>>, i: nat, j: nat, v: nat)
    requires ValidTargets(f) && |succs| == |f| && |g| == |succs'| == |f| + 1 && i < |f| && j < |succs[i]| && v < |f|
    requires forall b :: 0 <= b < |f| ==> succs[b] == Successors(f[b].term)
    requires forall b :: 0 <= b < |g| ==> succs'[b] == Successors(g[b].term)
    requires forall b :: 0 <= b < |g| ==> succs'[b] == if b == |f| then [v] else if b == i then succs[i][j := |f|]
        else succs[b]
    ensures ValidTargets(g)
  {
    forall u, k | 0 <= u < |g| && 0 <= k < |Flow(g)[u]|
      ensures Flow(g)[u][k] < |g|
    {
      assert Flow(g)[u] == succs'[u];
      if u < |f| {
        assert Flow(f)[u] == succs[u] && k < |succs[u]| && Flow(f)[u][k] < |f|;
      }
    }
  }

  lemma SplitMembers(f: Func, succs: seq<seq<nat>>, preds: seq<seq<nat>>, i: nat, j: nat, v: nat, x: nat, u: nat,
      b: nat)
    requires Linked(f, succs, preds) && i < |f| && f[i].term.Branch? && j < |succs[i]| && succs[i][j] == v < |f| &&
        x < |preds[v]| && preds[v][x] == i && u <= |f|
    ensures var succs', preds' := (succs + [[v]])[i := succs[i][j := |f|]], (preds + [[i]])[v := preds[v][x := |f|]];
      b in preds'[u] <==> b <= |f| && u in succs'[b]
  {
    var succs', preds' := (succs + [[v]])[i := succs[i][j := |f|]], (preds + [[i]])[v := preds[v][x := |f|]];
    assert |succs[i]| == 2 && succs[i][0] != succs[i][1];
    assert b in succs[i][j := |f|] <==> b == |f| || (b in succs[i] && b != v) by {
      assert |f| !in succs[i] by {
        assert Flow(f)[i] == succs[i];
      }
      assert succs[i][j := |f|][j] == |f| && succs[i][j := |f|][1 - j] == succs[i][1 - j];
    }
    assert u in succs[i][j := |f|] <==> u == |f| || (u in succs[i] && u != v) by {
      assert |f| !in succs[i] by {
        assert Flow(f)[i] == succs[i];
      }
      assert succs[i][j := |f|][j] == |f| && succs[i][j := |f|][1 - j] == succs[i][1 - j];
    }
    if u == |f| {
      assert preds'[u] == [i];
      if b < |f| && b != i {
        assert Flow(f)[b] == succs[b];
      }
    } else if u == v {
      assert b in preds[v][x := |f|] <==> b == |f| || (b in preds[v] && b != i) by {
        MembersReplaced(preds[v], x, |f|, b);
      }
    }
  }

  lemma MembersReplaced(ps: seq<nat>, x: nat, id: nat, b: nat)
    requires x < |ps| && id !in ps && forall a, c :: 0 <= a < c < |ps| ==> ps[a] != ps[c]
    ensures b in ps[x := id] <==> b == id || (b in ps && b != ps[x])
  {
    if b in ps[x := id] {
      var k :| 0 <= k < |ps| && ps[x := id][k] == b;
    }
    if b in ps && b != ps[x] {
      var k :| 0 <= k < |ps| && ps[k] == b;
      assert ps[x := id][k] == b;
    }
    assert ps[x := id][x] == id;
  }

  lemma SplitSources(f: Func, g: Func, i: nat, v: nat, ts: seq<Name>)
    requires SplitOf(f, g, i, v, ts) && FromPredecessors(f)
    ensures FromPredecessors(g)
  {
    hide Free;
    forall u, k, j | 0 <= u < |g| && 0 <= k < |g[u].phis| && 0 <= j < |g[u].phis[k].args|
      ensures IsPredecessor(g, g[u].phis[k].args[j].1, u)
    {
      var q := g[u].phis[k].args[j].1;
      if u == |f| {
        assert q == i;
        RetargetReaches(f[i].term, v, |f|, |f|);
      } else if u == v {
        assert ArgsSplit(f[v].phis[k].args, g[v].phis[k].args, i, |f|);
        assert IsPredecessor(f, f[v].phis[k].args[j].1, v);
      } else {
        assert IsPredecessor(f, q, u);
        RetargetReaches(f[i].term, v, |f|, u);
      }
    }
  }

  lemma RetargetReaches(t: Term, v: nat, id: nat, u: nat)
    requires t.Branch? && t.onTrue != t.onFalse && v in Successors(t)
    ensures u in Successors(Retarget(t, v, id)) <==> u == id || (u in Successors(t) && u != v)
  {
    var r := Retarget(t, v, id);
    assert Successors(r)[0] in Successors(r) && Successors(r)[1] in Successors(r);
    assert Successors(t)[0] in Successors(t) && Successors(t)[1] in Successors(t);
  }

  lemma SplitFree(f: Func, g: Func, i: nat, v: nat, ts: seq<Name>, n: nat)
    requires SplitOf(f, g, i, v, ts) && FreeAbove(f, n) && ts == TransfersFrom(n, |ts|)
    ensures FreeAbove(g, n + |ts|)
  {
    hide FreeIn, SplitOf;
    forall c: nat | n + |ts| < c
      ensures Free(g, Transfer(c))
    {
      forall a | 0 <= a < |ts|
        ensures ts[a] != Transfer(c)
      {
        if ts[a] == Transfer(c) {
          TransferInjective(n + 1 + a, c);
        }
      }
      SplitFreeOf(f, g, i, v, ts, Transfer(c));
    }
  }

  lemma SplitFreeOf(f: Func, g: Func, i: nat, v: nat, ts: seq<Name>, x: Name)
    requires SplitOf(f, g, i, v, ts) && Free(f, x) && x !in ts
    ensures Free(g, x)
  {
    hide FreePhis;
    assert FreeIn(f[v], x);
    forall b | 0 <= b < |g|
      ensures FreeIn(g[b], x)
    {
      if b < |f| {
        assert FreeIn(f[b], x);
        assert TermUses(g[b].term) == TermUses(f[b].term);
      }
    }
  }

  lemma SplitOneEach(f: Func, g: Func, i: nat, v: nat, ts: seq<Name>)
    requires SplitOf(f, g, i, v, ts) && FromPredecessors(f) && ValidTargets(f)
    ensures OneEach(f) ==> OneEach(g)
    ensures EntryHasNoPredecessor(f) ==> EntryHasNoPredecessor(g)
  {
    hide Free;
    forall u, k, b | OneEach(f) && 0 <= u < |g| && 0 <= k < |g[u].phis| && IsPredecessor(g, b, u)
      ensures HasOne(g[u].phis[k].args, b)
    {
      OneStays(f, g, i, v, ts, u, k, b);
    }
    forall b | 0 <= b < |g| && EntryHasNoPredecessor(f)
      ensures 0 !in Successors(g[b].term)
    {
      if b == i {
        RetargetReaches(f[i].term, v, |f|, 0);
      }
    }
  }

  lemma OnlyFromSplit(f: Func, g: Func, i: nat, v: nat, ts: seq<Name>, b: nat)
    requires SplitOf(f, g, i, v, ts) && ValidTargets(f) && IsPredecessor(g, b, |f|)
    ensures b == i
  {
    hide Free, PhisSplit;
    forall c | 0 <= c < |f|
      ensures |f| !in Successors(f[c].term)
    {
      assert Flow(f)[c] == Successors(f[c].term);
    }
  }

  lemma LoneSource(args: seq<(Operand, nat)>, b: nat)
    requires |args| == 1 && args[0].1 == b
    ensures HasOne(args, b)
  {
  }

  lemma OneRenamed(args: seq<(Operand, nat)>, args': seq<(Operand, nat)>, i: nat, id: nat, b: nat)
    requires ArgsSplit(args, args', i, id) && b != i && HasOne(args, if b == id then i else b) && forall j ::
        0 <= j < |args| ==> args[j].1 < id
    ensures HasOne(args', b)
  {
    var q := if b == id then i else b;
    var j :| 0 <= j < |args| && args[j].1 == q;
    assert args'[j].1 == b;
  }

  lemma OneStays(f: Func, g: Func, i: nat, v: nat, ts: seq<Name>, u: nat, k: nat, b: nat)
    requires SplitOf(f, g, i, v, ts) && FromPredecessors(f) && ValidTargets(f) && OneEach(f)
    requires u < |g| && k < |g[u].phis| && IsPredecessor(g, b, u)
    ensures HasOne(g[u].phis[k].args, b)
  {
    hide Free, HasOne, EdgeCopies, FreePhis;
    RetargetReaches(f[i].term, v, |f|, u);
    assert Flow(f)[i] == Successors(f[i].term);
    if u == |f| {
      OnlyFromSplit(f, g, i, v, ts, b);
      LoneSource(g[u].phis[k].args, i);
    } else if u == v {
      var args, args' := f[v].phis[k].args, g[v].phis[k].args;
      assert ArgsSplit(args, args', i, |f|);
      assert b != i && IsPredecessor(f, if b == |f| then i else b, v);
      forall j | 0 <= j < |args|
        ensures args[j].1 < |f|
      {
        assert IsPredecessor(f, args[j].1, v);
      }
      OneRenamed(args, args', i, |f|, b);
    } else {
      assert IsPredecessor(f, b, u);
    }
  }

  lemma SplitNoneBefore(f: Func, succs: seq<seq<nat>>, preds: seq<seq<nat>>, i: nat, j: nat, v: nat, phis: seq<Phi>,
      news: seq<Phi>, x: nat, size: nat)
    requires Linked(f, succs, preds) && NoneBefore(f, preds, i, size) && i < |f| && i < size && f[i].term.Branch? &&
        j < |succs[i]| && succs[i][j] == v < |f| && x < |preds[v]| && preds[v][x] == i
    ensures NoneBefore(Split(f, i, v, phis, news), (preds + [[i]])[v := preds[v][x := |f|]], i, size)
    ensures Split(f, i, v, phis, news)[i].term.Branch?
  {
    var g, preds' := Split(f, i, v, phis, news), (preds + [[i]])[v := preds[v][x := |f|]];
    forall b, u | 0 <= b < i && g[b].term.Branch? && u in Successors(g[b].term) && u < |g|
      ensures |preds'[u]| <= 1
    {
      assert Flow(f)[b] == Successors(f[b].term);
      assert u < |f| && |preds[u]| <= 1;
    }
  }
}
