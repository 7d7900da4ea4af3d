/** The rewrite that follows conditional constant propagation, and why it keeps every defined run. */
module SccpRewrite {
  import opened Graphs
  import opened IR
  import opened SccpLattice

  // ---- The rewritten function ----

  function KnownOperand(lat: Lattice, o: Operand): Operand {
    match o
    case Const(_) => o
    case Var(x) => if GetLattice(lat, o).Constant? then Const(GetLattice(lat, o).value) else o
  }

  function Known(lat: Lattice): Operand -> Operand {
    o => KnownOperand(lat, o)
  }

  function MapArgs(args: seq<(Operand, nat)>, h: Operand -> Operand): (r: seq<(Operand, nat)>)
    ensures |r| == |args| && forall k :: 0 <= k < |args| ==> r[k] == (h(args[k].0), args[k].1)
  {
    seq(|args|, k requires 0 <= k < |args| => (h(args[k].0), args[k].1))
  }

  function MapPhis(phis: seq<Phi>, h: Operand -> Operand): (r: seq<Phi>)
    ensures |r| == |phis| && forall k :: 0 <= k < |phis| ==> r[k] == Phi(phis[k].result, MapArgs(phis[k].args, h))
  {
    seq(|phis|, k requires 0 <= k < |phis| => Phi(phis[k].result, MapArgs(phis[k].args, h)))
  }

  function MapBody(body: seq<Instr>, h: Operand -> Operand): (r: seq<Instr>)
    ensures |r| == |body| && forall k :: 0 <= k < |body| ==> r[k] == MapUses(body[k], h)
  {
    seq(|body|, k requires 0 <= k < |body| => MapUses(body[k], h))
  }

  function MapBlock(blk: Block, h: Operand -> Operand): Block {
    Block(MapPhis(blk.phis, h), MapBody(blk.body, h), MapTermUses(blk.term, h))
  }

  /** An instruction with a foldable operation and only constant operands. */
  predicate AllConstant(i: Instr) {
    match i
    case Arith(_, _, _, a, b) => a.Const? && b.Const?
    case Compare(_, _, a, b) => a.Const? && b.Const?
    case Neg(_, _, _, a) => a.Const?
    case Select(_, a) => a.Const?
    case _ => false
  }

  function WithoutFolded(body: seq<Instr>): (r: seq<Instr>)
    ensures forall i :: i in r ==> i in body && !AllConstant(i)
  {
    if body == [] then []
    else (if AllConstant(body[0]) then [] else [body[0]]) + WithoutFolded(body[1..])
  }

  function ConstantBranchToJump(t: Term): Term {
    match t
    case Branch(Const(v), a, b) => Jump(if v != 0 then a else b)
    case _ => t
  }

  function LiveArgs(args: seq<(Operand, nat)>, exec: seq<bool>): (r: seq<(Operand, nat)>)
    ensures forall a :: a in r <==> a in args && Executable(exec, a.1)
  {
    if args == [] then [] else (if Executable(exec, args[0].1) then [args[0]] else []) + LiveArgs(args[1..], exec)
  }

  function LivePhis(phis: seq<Phi>, exec: seq<bool>): (r: seq<Phi>)
    ensures |r| == |phis| && forall k :: 0 <= k < |phis| ==> r[k] == Phi(phis[k].result, LiveArgs(phis[k].args, exec))
  {
    seq(|phis|, k requires 0 <= k < |phis| => Phi(phis[k].result, LiveArgs(phis[k].args, exec)))
  }

  function RewrittenBlock(blk: Block, lat: Lattice, exec: seq<bool>): Block {
    var k := MapBlock(blk, Known(lat));
    Block(LivePhis(k.phis, exec), WithoutFolded(k.body), ConstantBranchToJump(k.term))
  }

  const EMPTIED := Block([], [], Missing)

  /** What steps A to D leave of every block. */
  ghost predicate Rewritten(f: Func, lat: Lattice, exec: seq<bool>, r: Func) {
    && |r| == |f|
    && forall b :: 0 <= b < |f| ==> r[b] == if Executable(exec, b) then RewrittenBlock(f[b], lat, exec) else EMPTIED
  }

  // ---- Nothing is left to fold ----

  /** An operand that is not known to be constant, or a constant. */
  predicate Unknown(lat: Lattice, o: Operand) {
    o.Var? ==> !GetLattice(lat, o).Constant?
  }

  /** No operand with a known value, no operation or branch on constants alone, no phi operand from a dead block. */
  ghost predicate NothingToFold(lat: Lattice, exec: seq<bool>, blk: Block) {
    && (forall k, j :: 0 <= k < |blk.body| && 0 <= j < |Uses(blk.body[k])| ==> Unknown(lat, Uses(blk.body[k])[j]))
    && (forall k :: 0 <= k < |blk.body| && !blk.body[k].Effect? && !blk.body[k].Move? ==>
      exists o :: o in Uses(blk.body[k]) && o.Var?)
    && (forall j :: 0 <= j < |TermUses(blk.term)| ==> Unknown(lat, TermUses(blk.term)[j]))
    && (blk.term.Branch? ==> blk.term.cond.Var?)
    && (forall i, j :: 0 <= i < |blk.phis| && 0 <= j < |blk.phis[i].args| ==>
      Unknown(lat, blk.phis[i].args[j].0) && Executable(exec, blk.phis[i].args[j].1))
  }

  lemma MappedUnknown(i: Instr, lat: Lattice)
    ensures forall j :: 0 <= j < |Uses(MapUses(i, Known(lat)))| ==> Unknown(lat, Uses(MapUses(i, Known(lat)))[j])
  {
  }

  lemma SomeVariable(i: Instr)
    requires !AllConstant(i) && !i.Effect? && !i.Move?
    ensures exists o :: o in Uses(i) && o.Var?
  {
    assert Uses(i)[0] in Uses(i);
    assert |Uses(i)| == 2 ==> Uses(i)[1] in Uses(i);
  }

  lemma KeptUnknown(body: seq<Instr>, lat: Lattice, i: Instr)
    requires i in WithoutFolded(MapBody(body, Known(lat)))
    ensures forall j :: 0 <= j < |Uses(i)| ==> Unknown(lat, Uses(i)[j])
    ensures !i.Effect? && !i.Move? ==> exists o :: o in Uses(i) && o.Var?
  {
    hide Unknown, AllConstant, MapUses, WithoutFolded;
    var m :| 0 <= m < |body| && MapBody(body, Known(lat))[m] == i;
    MappedUnknown(body[m], lat);
    if !i.Effect? && !i.Move? {
      SomeVariable(i);
    }
  }

  lemma LiveUnknown(args: seq<(Operand, nat)>, lat: Lattice, exec: seq<bool>, a: (Operand, nat))
    requires a in LiveArgs(MapArgs(args, Known(lat)), exec)
    ensures Unknown(lat, a.0) && Executable(exec, a.1)
  {
    hide LiveArgs;
  }

  lemma TermUnknown(t: Term, lat: Lattice)
    ensures var u := ConstantBranchToJump(MapTermUses(t, Known(lat)));
      (forall j :: 0 <= j < |TermUses(u)| ==> Unknown(lat, TermUses(u)[j])) && (u.Branch? ==> u.cond.Var?)
  {
  }

  lemma RewrittenBlockFolded(blk: Block, lat: Lattice, exec: seq<bool>)
    ensures NothingToFold(lat, exec, RewrittenBlock(blk, lat, exec))
  {
    hide Unknown, AllConstant, WithoutFolded, LiveArgs, ConstantBranchToJump, MapTermUses, MapUses;
    var k, r := MapBlock(blk, Known(lat)), RewrittenBlock(blk, lat, exec);
    forall n | 0 <= n < |r.body|
      ensures forall j :: 0 <= j < |Uses(r.body[n])| ==> Unknown(lat, Uses(r.body[n])[j])
      ensures !r.body[n].Effect? && !r.body[n].Move? ==> exists o :: o in Uses(r.body[n]) && o.Var?
    {
      KeptUnknown(blk.body, lat, r.body[n]);
    }
    TermUnknown(blk.term, lat);
    forall i, j | 0 <= i < |r.phis| && 0 <= j < |r.phis[i].args|
      ensures Unknown(lat, r.phis[i].args[j].0) && Executable(exec, r.phis[i].args[j].1)
    {
      LiveUnknown(blk.phis[i].args, lat, exec, r.phis[i].args[j]);
    }
  }

  /** Dead blocks are empty, and the others have nothing left to fold. */
  lemma NothingLeftToFold(f: Func, lat: Lattice, exec: seq<bool>, r: Func)
    requires Rewritten(f, lat, exec, r)
    ensures |r| == |f|
    ensures forall b: nat :: b < |f| && Executable(exec, b) ==> NothingToFold(lat, exec, r[b])
    ensures forall b: nat :: b < |f| && !Executable(exec, b) ==> r[b] == Block([], [], Missing)
  {
    hide NothingToFold, RewrittenBlock;
    forall b: nat | b < |f| && Executable(exec, b)
      ensures NothingToFold(lat, exec, r[b])
    {
      RewrittenBlockFolded(f[b], lat, exec);
    }
  }

  // ---- Runs of the rewritten function ----

  /** The new environment has the value of every variable that is not known to be constant. */
  ghost predicate Carries(lat: Lattice, env: Env, env': Env) {
    forall x :: x in env && !GetLattice(lat, Var(x)).Constant? ==> x in env' && env'[x] == env[x]
  }

  lemma LookupKnown(lat: Lattice, env: Env, env': Env, o: Operand)
    requires Sound(lat, env) && Carries(lat, env, env') && Lookup(env, o).Some?
    ensures Lookup(env', KnownOperand(lat, o)) == Lookup(env, o)
  {
    LookupAdmitted(lat, env, o);
  }

  lemma {:induction false} LookupAllKnown(lat: Lattice, env: Env, env': Env, os: seq<Operand>)
    requires Sound(lat, env) && Carries(lat, env, env') && LookupAll(env, os).Some?
    ensures LookupAll(env', MapOperands(os, Known(lat))) == LookupAll(env, os)
  {
    if os != [] {
      LookupKnown(lat, env, env', os[0]);
      LookupAllKnown(lat, env, env', os[1..]);
      assert MapOperands(os, Known(lat))[1..] == MapOperands(os[1..], Known(lat));
    }
  }

  lemma SameComputation(i: Instr, h: Operand -> Operand, vs: seq<Int32>)
    requires !i.Effect? && !i.Move? && |vs| == |Uses(i)|
    ensures Compute(MapUses(i, h), vs) == Compute(i, vs)
  {
  }

  /** A folded instruction computes a value that is known. */
  lemma FoldedIsKnown(i: Instr, lat: Lattice)
    requires AllConstant(MapUses(i, Known(lat)))
    ensures Transfer(i, lat).Constant? && Target(i).Some? && !i.Effect?
  {
  }

  /** One instruction that is kept. */
  lemma KeptInstruction(w: World, i: Instr, lat: Lattice, s: State, t: State)
    requires Sound(lat, s.env) && Carries(lat, s.env, t.env) && s.history == t.history && Exec(w, i, s).Some?
    ensures var t' := Exec(w, MapUses(i, Known(lat)), t);
      t'.Some? && t'.value.history == Exec(w, i, s).value.history && Carries(lat, Exec(w, i, s).value.env, t'.value.env)
  {
    hide Compute;
    var j := MapUses(i, Known(lat));
    match i
    case Move(x, a) =>
      if Lookup(s.env, a).Some? {
        LookupKnown(lat, s.env, t.env, a);
      }
    case Effect(_, _, _) =>
      LookupAllKnown(lat, s.env, t.env, Uses(i));
    case _ =>
      LookupAllKnown(lat, s.env, t.env, Uses(i));
      SameComputation(i, Known(lat), LookupAll(s.env, Uses(i)).value);
  }

  function Kept(body: seq<Instr>, lat: Lattice): seq<Instr> {
    WithoutFolded(MapBody(body, Known(lat)))
  }

  lemma KeptCons(i: Instr, body: seq<Instr>, lat: Lattice)
    ensures AllConstant(MapUses(i, Known(lat))) ==> Kept([i] + body, lat) == Kept(body, lat)
    ensures !AllConstant(MapUses(i, Known(lat))) ==> Kept([i] + body, lat) == [MapUses(i, Known(lat))] + Kept(body, lat)
  {
    assert MapBody([i] + body, Known(lat))[1..] == MapBody(body, Known(lat));
  }

  lemma ExecAllCons(w: World, i: Instr, body: seq<Instr>, s: State)
    ensures ExecAll(w, [i] + body, s) == match Exec(w, i, s) case None => None case Some(s') => ExecAll(w, body, s')
  {
    assert ([i] + body)[1..] == body;
  }

  /** The first instruction, kept or folded. */
  lemma FirstKeepsRun(w: World, i: Instr, body: seq<Instr>, lat: Lattice, s: State, t: State) returns (t': State)
    requires Sound(lat, s.env) && Carries(lat, s.env, t.env) && s.history == t.history && Exec(w, i, s).Some?
    requires Target(i).Some? ==> GetLattice(lat, Var(Target(i).value)) == Transfer(i, lat)
    requires !FoldedNot(i, lat)
    ensures var s' := Exec(w, i, s).value;
      Sound(lat, s'.env) && Carries(lat, s'.env, t'.env) && s'.history == t'.history
    ensures ExecAll(w, Kept([i] + body, lat), t) == ExecAll(w, Kept(body, lat), t')
  {
    hide Transfer, Exec, AllConstant, Kept, ExecAll, FoldedNot;
    var j := MapUses(i, Known(lat));
    ExecSound(w, i, lat, s);
    KeptCons(i, body, lat);
    if AllConstant(j) {
      FoldedIsKnown(i, lat);
      FoldedWrites(w, i, s);
      t' := t;
    } else {
      KeptInstruction(w, i, lat, s, t);
      t' := Exec(w, j, t).value;
      ExecAllCons(w, j, Kept(body, lat), t);
    }
  }

  lemma KeptNone(lat: Lattice)
    ensures Kept([], lat) == []
  {
  }

  /** A whole body, with its constant instructions left out. */
  lemma {:induction false} BodyKeepsRun(w: World, body: seq<Instr>, lat: Lattice, s: State, t: State)
    requires Sound(lat, s.env) && Carries(lat, s.env, t.env) && s.history == t.history && ExecAll(w, body, s).Some?
    requires forall k :: 0 <= k < |body| && Target(body[k]).Some? ==>
        GetLattice(lat, Var(Target(body[k]).value)) ==
        Transfer(body[k], lat)
    requires forall k :: 0 <= k < |body| ==> !FoldedNot(body[k], lat)
    ensures var s', t' := ExecAll(w, body, s).value, ExecAll(w, Kept(body, lat), t);
      Sound(lat, s'.env) && t'.Some? && t'.value.history == s'.history && Carries(lat, s'.env, t'.value.env)
  {
    hide Transfer, Exec, Sound, Carries, Target, Kept, FoldedNot;
    if body == [] {
      KeptNone(lat);
    } else {
      var i := body[0];
      assert body == [i] + body[1..];
      ExecAllCons(w, i, body[1..], s);
      var t1 := FirstKeepsRun(w, i, body[1..], lat, s, t);
      BodyKeepsRun(w, body[1..], lat, Exec(w, i, s).value, t1);
    }
  }

  /** A constant-foldable instruction changes nothing but its result. */
  lemma FoldedWrites(w: World, i: Instr, s: State)
    requires Exec(w, i, s).Some? && Target(i).Some? && !i.Effect?
    ensures var s' := Exec(w, i, s).value;
      s'.history == s.history && forall x :: x in s'.env && x != Target(i).value ==> x in s.env && s'.env[x] == s.env[x]
  {
  }

  // ---- Phis ----

  /** The meet is at or below the cell of every operand from an executable block. */
  lemma {:induction false} MeetBelow(lat: Lattice, exec: seq<bool>, args: seq<(Operand, nat)>, k: nat)
    requires k < |args| && Executable(exec, args[k].1)
    ensures AtOrBelow(MeetArgs(lat, exec, args), GetLattice(lat, args[k].0))
    decreases |args|
  {
    if k < |args| - 1 {
      MeetBelow(lat, exec, args[..|args| - 1], k);
    }
  }

  /** Every copy writes a value that the cell of its target admits. */
  ghost predicate CopiesAdmitted(lat: Lattice, env: Env, copies: seq<Copy>) {
    forall k :: 0 <= k < |copies| ==>
      Lookup(env, copies[k].from).Some? ==>
        Admits(GetLattice(lat, Var(copies[k].to)), Lookup(env, copies[k].from).value)
  }

  function MapCopies(copies: seq<Copy>, lat: Lattice): (r: seq<Copy>)
    ensures |r| == |copies| && forall k :: 0 <= k < |r| ==>
        r[k] == Copy(KnownOperand(lat, copies[k].from), copies[k].to)
  {
    seq(|copies|, k requires 0 <= k < |copies| => Copy(KnownOperand(lat, copies[k].from), copies[k].to))
  }

  lemma {:induction false} CopiesKeepRun(lat: Lattice, env: Env, env': Env, copies: seq<Copy>)
    requires Sound(lat, env) && Carries(lat, env, env') && CopiesAdmitted(lat, env, copies)
    ensures Sound(lat, ParallelCopy(env, copies))
    ensures Carries(lat, ParallelCopy(env, copies), ParallelCopy(env', MapCopies(copies, lat)))
    decreases |copies|
  {
    if copies != [] {
      var k := |copies| - 1;
      CopiesKeepRun(lat, env, env', copies[..k]);
      assert MapCopies(copies, lat)[..k] == MapCopies(copies[..k], lat);
      if Lookup(env, copies[k].from).Some? {
        LookupKnown(lat, env, env', copies[k].from);
      }
    }
  }

  lemma MapCopiesAppend(a: seq<Copy>, b: seq<Copy>, lat: Lattice)
    ensures MapCopies(a + b, lat) == MapCopies(a, lat) + MapCopies(b, lat)
  {
  }

  lemma LiveArgsCons(a: (Operand, nat), args: seq<(Operand, nat)>, exec: seq<bool>)
    ensures Executable(exec, a.1) ==> LiveArgs([a] + args, exec) == [a] + LiveArgs(args, exec)
    ensures !Executable(exec, a.1) ==> LiveArgs([a] + args, exec) == LiveArgs(args, exec)
  {
    assert ([a] + args)[1..] == args;
  }

  lemma ArgsFromCons(p: Phi, a: (Operand, nat), args: seq<(Operand, nat)>, b: nat)
    ensures a.1 == b ==> ArgsFrom(p, [a] + args, b) == [Copy(a.0, p.result)] + ArgsFrom(p, args, b)
    ensures a.1 != b ==> ArgsFrom(p, [a] + args, b) == ArgsFrom(p, args, b)
  {
    assert ([a] + args)[1..] == args;
  }

  /** The copies that a rewritten phi makes on an edge from an executable block. */
  lemma {:induction false} ArgsRewritten(p: Phi, q: Phi, args: seq<(Operand, nat)>, lat: Lattice, exec: seq<bool>,
      b: nat)
    requires Executable(exec, b) && p.result == q.result
    ensures ArgsFrom(q, LiveArgs(MapArgs(args, Known(lat)), exec), b) == MapCopies(ArgsFrom(p, args, b), lat)
  {
    if args != [] {
      hide LiveArgs, ArgsFrom, Executable;
      var a, rest := args[0], args[1..];
      var a' := (KnownOperand(lat, a.0), a.1);
      assert args == [a] + rest && MapArgs(args, Known(lat)) == [a'] + MapArgs(rest, Known(lat));
      LiveArgsCons(a', MapArgs(rest, Known(lat)), exec);
      ArgsFromCons(p, a, rest, b);
      ArgsRewritten(p, q, rest, lat, exec, b);
      var live := LiveArgs(MapArgs(rest, Known(lat)), exec);
      ArgsFromCons(q, a', live, b);
      if a.1 == b {
        MapCopiesAppend([Copy(a.0, p.result)], ArgsFrom(p, rest, b), lat);
        assert MapCopies([Copy(a.0, p.result)], lat) == [Copy(a'.0, q.result)];
      }
    }
  }

  lemma EdgeCopiesCons(p: Phi, phis: seq<Phi>, b: nat)
    ensures EdgeCopies([p] + phis, b) == ArgsFrom(p, p.args, b) + EdgeCopies(phis, b)
  {
    assert ([p] + phis)[1..] == phis;
  }

  function RewrittenPhis(phis: seq<Phi>, lat: Lattice, exec: seq<bool>): (r: seq<Phi>)
    ensures |r| == |phis|
    ensures forall k :: 0 <= k < |phis| ==> r[k] == RewrittenPhi(phis[k], lat, exec)
  {
    LivePhis(MapPhis(phis, Known(lat)), exec)
  }

  function RewrittenPhi(p: Phi, lat: Lattice, exec: seq<bool>): Phi {
    Phi(p.result, LiveArgs(MapArgs(p.args, Known(lat)), exec))
  }

  lemma RewrittenPhisCons(p: Phi, phis: seq<Phi>, lat: Lattice, exec: seq<bool>)
    ensures RewrittenPhis([p] + phis, lat, exec) == [RewrittenPhi(p, lat, exec)] + RewrittenPhis(phis, lat, exec)
  {
    hide RewrittenPhi, RewrittenPhis;
    var a, b := RewrittenPhis([p] + phis, lat, exec), RewrittenPhis(phis, lat, exec);
    forall k | 0 <= k < |a|
      ensures a[k] == ([RewrittenPhi(p, lat, exec)] + b)[k]
    {
    }
  }

  lemma {:induction false} CopiesRewritten(phis: seq<Phi>, lat: Lattice, exec: seq<bool>, b: nat)
    requires Executable(exec, b)
    ensures EdgeCopies(RewrittenPhis(phis, lat, exec), b) == MapCopies(EdgeCopies(phis, b), lat)
  {
    if phis != [] {
      hide EdgeCopies, ArgsFrom, LiveArgs, RewrittenPhis;
      var p, rest := phis[0], phis[1..];
      var q := RewrittenPhi(p, lat, exec);
      assert phis == [p] + rest;
      RewrittenPhisCons(p, rest, lat, exec);
      EdgeCopiesCons(p, rest, b);
      EdgeCopiesCons(q, RewrittenPhis(rest, lat, exec), b);
      ArgsRewritten(p, q, p.args, lat, exec, b);
      CopiesRewritten(rest, lat, exec, b);
      MapCopiesAppend(ArgsFrom(p, p.args, b), EdgeCopies(rest, b), lat);
    }
  }

  lemma PhiCopiesAdmitted(f: Func, params: set<Name>, lat: Lattice, exec: seq<bool>, b: nat, v: nat, env: Env)
    requires Solution(f, params, lat, exec) && Sound(lat, env) && Executable(exec, b) && Executable(exec, v)
    ensures CopiesAdmitted(lat, env, EdgeCopies(f[v].phis, b))
  {
    var copies := EdgeCopies(f[v].phis, b);
    forall i | 0 <= i < |copies| && Lookup(env, copies[i].from).Some?
      ensures Admits(GetLattice(lat, Var(copies[i].to)), Lookup(env, copies[i].from).value)
    {
      var k, j := CopyOrigin(f[v].phis, b, copies[i]);
      assert ValidSite(f, v, PhiAt(k)) && Settled(f, lat, exec, v, PhiAt(k));
      MeetBelow(lat, exec, f[v].phis[k].args, j);
      LookupAdmitted(lat, env, copies[i].from);
    }
  }

  // ---- Whole runs ----

  /** What the rewritten run must look like next to a run that is defined. */
  ghost predicate Matches(lat: Lattice, exec: seq<bool>, c: Config, d: Config) {
    match c
    case At(b, s) => Executable(exec, b) && Sound(lat, s.env) && d.At? && d.block == b &&
      d.state.history == s.history && Carries(lat, s.env, d.state.env)
    case Left(_, _) => d == c
    case Stuck => true
  }

  /** The terminator goes to an executable block, and the rewritten one goes to the same. */
  lemma FollowMatches(t: Term, lat: Lattice, exec: seq<bool>, env: Env, env': Env)
    requires TakenExecutable(t, lat, exec) && Sound(lat, env) && Carries(lat, env, env') && !Follow(t, env).Undefined?
    ensures Follow(ConstantBranchToJump(MapTermUses(t, Known(lat))), env') == Follow(t, env)
    ensures Follow(t, env).Goto? ==> Executable(exec, Follow(t, env).block)
  {
    match t
    case Branch(c, _, _) =>
      LookupAdmitted(lat, env, c);
      LookupKnown(lat, env, env', c);
    case Return(Some(o)) =>
      LookupKnown(lat, env, env', o);
    case _ =>
  }

  lemma MappedParts(blk: Block, h: Operand -> Operand)
    ensures MapBlock(blk, h).body == MapBody(blk.body, h) && MapBlock(blk, h).term == MapTermUses(blk.term, h) &&
        |MapBlock(blk, h).body| == |blk.body|
  {
  }

  lemma RewrittenParts(blk: Block, lat: Lattice, exec: seq<bool>)
    ensures var r := RewrittenBlock(blk, lat, exec);
      r.body == Kept(blk.body, lat) && r.term == ConstantBranchToJump(MapTermUses(blk.term, Known(lat))) &&
        r.phis == RewrittenPhis(blk.phis, lat, exec)
  {
  }

  /** No executable `not` on i1 has a known operand. */
  ghost predicate NoFoldedNots(f: Func, lat: Lattice, exec: seq<bool>) {
    forall b: nat, k: nat :: b < |f| && Executable(exec, b) && k < |f[b].body| ==> !FoldedNot(f[b].body[k], lat)
  }

  /** In an executable block every instruction has the cell of its value, and the terminator's targets are
   * executable. */
  lemma SettledBlock(f: Func, params: set<Name>, lat: Lattice, exec: seq<bool>, b: nat)
    requires Solution(f, params, lat, exec) && Executable(exec, b)
    ensures b < |f| && TakenExecutable(f[b].term, lat, exec)
    ensures forall k :: 0 <= k < |f[b].body| && Target(f[b].body[k]).Some? ==>
        GetLattice(lat, Var(Target(f[b].body[k]).value)) == Transfer(f[b].body[k], lat)
  {
    hide TakenExecutable, Transfer, GetLattice;
    assert ValidSite(f, b, TermAt) && Settled(f, lat, exec, b, TermAt);
    forall k | 0 <= k < |f[b].body| && Target(f[b].body[k]).Some?
      ensures GetLattice(lat, Var(Target(f[b].body[k]).value)) == Transfer(f[b].body[k], lat)
    {
      assert ValidSite(f, b, InsAt(k)) && Settled(f, lat, exec, b, InsAt(k));
    }
  }

  lemma StepMatches(f: Func, r: Func, params: set<Name>, w: World, lat: Lattice, exec: seq<bool>, b: nat, s: State,
      t: State)
    requires Solution(f, params, lat, exec) && Rewritten(f, lat, exec, r) && NoFoldedNots(f, lat, exec)
    requires Matches(lat, exec, At(b, s), At(b, t))
    ensures Matches(lat, exec, StepBlock(w, f, At(b, s)), StepBlock(w, r, At(b, t)))
  {
    hide RewrittenBlock, ConstantBranchToJump, TakenExecutable, Sound, Carries, Solution, Follow, RewrittenPhis,
      MapTermUses, EdgeCopies, Transfer, GetLattice, FoldedNot;
    SettledBlock(f, params, lat, exec, b);
    RewrittenParts(f[b], lat, exec);
    if ExecAll(w, f[b].body, s).Some? {
      BodyKeepsRun(w, f[b].body, lat, s, t);
      var s1, t1 := ExecAll(w, f[b].body, s).value, ExecAll(w, r[b].body, t).value;
      if !Follow(f[b].term, s1.env).Undefined? {
        FollowMatches(f[b].term, lat, exec, s1.env, t1.env);
        if Follow(f[b].term, s1.env).Goto? {
          var v := Follow(f[b].term, s1.env).block;
          SettledBlock(f, params, lat, exec, v);
          PhiCopiesAdmitted(f, params, lat, exec, b, v, s1.env);
          CopiesKeepRun(lat, s1.env, t1.env, EdgeCopies(f[v].phis, b));
          RewrittenParts(f[v], lat, exec);
          CopiesRewritten(f[v].phis, lat, exec, b);
        }
      }
    }
  }

  lemma StartMatches(f: Func, params: set<Name>, lat: Lattice, exec: seq<bool>, env: Env)
    requires Solution(f, params, lat, exec) && env.Keys <= params
    ensures Matches(lat, exec, Start(env), Start(env))
  {
    forall x | x in env
      ensures Admits(GetLattice(lat, Var(x)), env[x])
    {
      assert x in env.Keys;
    }
  }

  /** The main result: as long as no executable `not` on i1 is folded and the run of `f` is defined, the run of the
   * rewritten function is the same. */
  lemma {:induction false} RewriteKeepsRuns(f: Func, r: Func, params: set<Name>, w: World, lat: Lattice,
      exec: seq<bool>, env: Env, n: nat)
    requires Solution(f, params, lat, exec) && Rewritten(f, lat, exec, r) && NoFoldedNots(f, lat, exec) &&
        env.Keys <= params
    ensures Matches(lat, exec, Runs(w, f, Start(env), n), Runs(w, r, Start(env), n))
  {
    hide StepBlock, Rewritten, Solution, Sound, Carries, NoFoldedNots;
    if n == 0 {
      StartMatches(f, params, lat, exec, env);
    } else {
      RewriteKeepsRuns(f, r, params, w, lat, exec, env, n - 1);
      var c, d := Runs(w, f, Start(env), n - 1), Runs(w, r, Start(env), n - 1);
      match c
      case At(b, s) => StepMatches(f, r, params, w, lat, exec, b, s, d.state);
      case _ =>
        Stopped(w, f, c);
        if c.Left? {
          Stopped(w, r, d);
        }
    }
  }

  // ---- The four steps ----

  /** Phi operands come from predecessors of the block. */
  predicate PhiSources(f: Func) {
    forall v, k, j :: 0 <= v < |f| && 0 <= k < |f[v].phis| && 0 <= j < |f[v].phis[k].args| ==>
      var p := f[v].phis[k].args[j].1;
      p < |f| && v in Successors(f[p].term)
  }

  function Renaming(old_: Name, new_: Operand): Operand -> Operand {
    o => if o == Var(old_) then new_ else o
  }

  function ReplaceAllUses(blocks: Func, old_: Name, new_: Operand): (r: Func)
    ensures |r| == |blocks| && forall b :: 0 <= b < |blocks| ==> r[b] == MapBlock(blocks[b], Renaming(old_, new_))
  {
    seq(|blocks|, b requires 0 <= b < |blocks| => MapBlock(blocks[b], Renaming(old_, new_)))
  }

  /** The value of an instruction with constant operands. */
  function FoldInstr(i: Instr): Int32
    requires AllConstant(i)
  {
    match i
    case Arith(_, op, u, Const(a), Const(b)) => FoldArithmetic(a, b, op, u)
    case Compare(_, op, Const(a), Const(b)) => if CmpHolds(op, a, b) then 1 else 0
    case Neg(_, isMinus, _, Const(a)) => if isMinus then Signed((0 - Unsigned(a)) % WORD)
      else Signed(WORD - 1 - Unsigned(a))
    case Select(_, Const(a)) => a
  }

  /** Folding gives the value of the instruction, wherever that is defined, except for a `not` on i1. */
  lemma FoldExact(i: Instr, vs: seq<Int32>)
    requires AllConstant(i) && |vs| == |Uses(i)| && (forall k :: 0 <= k < |vs| ==> Uses(i)[k] == Const(vs[k])) &&
        Compute(i, vs).Some?
    ensures Compute(i, vs) == Some(FoldInstr(i)) <==> !(i.Neg? && !i.isMinus && i.i1)
  {
    hide FoldArithmetic, ArithValue, CmpHolds, FlipLow, Wrap, Signed;
    match i
    case Arith(_, op, u, _, _) =>
      assert Uses(i)[0] == Const(vs[0]) && Uses(i)[1] == Const(vs[1]);
      FoldIsValue(vs[0], vs[1], op, u);
    case Compare(_, _, _, _) => assert Uses(i)[0] == Const(vs[0]) && Uses(i)[1] == Const(vs[1]);
    case Neg(_, _, _, _) =>
      assert Uses(i)[0] == Const(vs[0]);
      Complement(vs[0]);
      NotIsWrong(vs[0]);
    case Select(_, _) => assert Uses(i)[0] == Const(vs[0]);
  }

  /** Replacing the uses of a variable that is known already changes nothing. */
  lemma NoUsesLeft(blk: Block, lat: Lattice, x: Name, c: Operand)
    requires GetLattice(lat, Var(x)).Constant?
    ensures MapBlock(MapBlock(blk, Known(lat)), Renaming(x, c)) == MapBlock(blk, Known(lat))
  {
    hide MapUses;
    var k, r := MapBlock(blk, Known(lat)), MapBlock(MapBlock(blk, Known(lat)), Renaming(x, c));
    forall i | 0 <= i < |k.body|
      ensures r.body[i] == k.body[i]
    {
      NoUseLeft(blk.body[i], lat, x, c);
    }
    forall i | 0 <= i < |k.phis|
      ensures r.phis[i] == k.phis[i]
    {
      assert r.phis[i].args == k.phis[i].args;
    }
    assert r.body == k.body && r.phis == k.phis;
  }

  lemma NoUseLeft(i: Instr, lat: Lattice, x: Name, c: Operand)
    requires GetLattice(lat, Var(x)).Constant?
    ensures MapUses(MapUses(i, Known(lat)), Renaming(x, c)) == MapUses(i, Known(lat))
  {
    if i.Effect? {
      assert MapOperands(MapOperands(i.args, Known(lat)), Renaming(x, c)) == MapOperands(i.args, Known(lat));
    }
  }

  /** The result of a folded instruction is known. */
  lemma FoldedResult(f: Func, params: set<Name>, lat: Lattice, exec: seq<bool>, b: nat, k: nat)
    requires Solution(f, params, lat, exec) && Executable(exec, b) && k < |f[b].body|
    requires AllConstant(MapUses(f[b].body[k], Known(lat)))
    ensures Target(f[b].body[k]).Some? && GetLattice(lat, Var(Target(f[b].body[k]).value)).Constant?
  {
    hide Transfer, AllConstant;
    assert ValidSite(f, b, InsAt(k)) && Settled(f, lat, exec, b, InsAt(k));
    FoldedIsKnown(f[b].body[k], lat);
  }

  /** During folding: executable blocks are as step A left them, and only constant instructions are removed. */
  ghost predicate Folding(f: Func, lat: Lattice, exec: seq<bool>, blocks: Func, removed: seq<seq<bool>>) {
    && |blocks| == |f| && |removed| == |f| && |exec| == |f|
    && (forall b :: 0 <= b < |f| ==> |removed[b]| == |blocks[b].body|)
    && (forall b :: 0 <= b < |f| && exec[b] ==> blocks[b] == MapBlock(f[b], Known(lat)))
    && (forall b, k :: 0 <= b < |f| && 0 <= k < |removed[b]| && removed[b][k] ==>
      exec[b] && AllConstant(blocks[b].body[k]))
  }

  ghost predicate AllFolded(exec: seq<bool>, blocks: Func, removed: seq<seq<bool>>, n: nat) {
    forall b :: 0 <= b < n && n <= |blocks| && n <= |exec| && n <= |removed| && exec[b] ==>
        FoldedUpTo(blocks[b].body, removed[b], |blocks[b].body|)
  }

  ghost predicate FoldedUpTo(body: seq<Instr>, removed: seq<bool>, n: nat) {
    n <= |body| == |removed| && forall k :: 0 <= k < n && AllConstant(body[k]) ==> removed[k]
  }

  ghost function Unremoved(removed: seq<seq<bool>>): (s: set<(nat, nat)>) {
    set b: nat, k: nat | b < |removed| && k < |removed[b]| && !removed[b][k] :: (b, k)
  }

  /** Step B for one instruction. */
  lemma FoldOne(f: Func, params: set<Name>, lat: Lattice, exec: seq<bool>, blocks: Func, removed: seq<seq<bool>>,
      b: nat, k: nat)
    requires Solution(f, params, lat, exec) && Folding(f, lat, exec, blocks, removed) && Executable(exec, b)
    requires k < |blocks[b].body| && AllConstant(blocks[b].body[k]) && !removed[b][k] && Target(blocks[b].body[k]).Some?
    ensures var i := blocks[b].body[k];
      Folding(f, lat, exec, ReplaceAllUses(blocks, Target(i).value, Const(FoldInstr(i))),
        removed[b := removed[b][k := true]])
    ensures Unremoved(removed[b := removed[b][k := true]]) < Unremoved(removed)
  {
    hide AllConstant, FoldInstr, MapUses, Solution, MapBlock;
    var i := blocks[b].body[k];
    var removed' := removed[b := removed[b][k := true]];
    MappedParts(f[b], Known(lat));
    FoldedResult(f, params, lat, exec, b, k);
    var x, c := Target(i).value, Const(FoldInstr(i));
    var blocks' := ReplaceAllUses(blocks, x, c);
    forall v | 0 <= v < |f|
      ensures exec[v] ==> blocks'[v] == blocks[v]
      ensures |blocks'[v].body| == |blocks[v].body|
    {
      if exec[v] {
        NoUsesLeft(f[v], lat, x, c);
      }
      MappedParts(blocks[v], Renaming(x, c));
    }
    forall v, j | 0 <= v < |f| && 0 <= j < |removed'[v]| && removed'[v][j]
      ensures exec[v] && AllConstant(blocks'[v].body[j])
    {
      assert v != b ==> removed[v][j];
      assert (v, j) != (b, k) ==> removed[v][j];
    }
    assert (b, k) in Unremoved(removed) && (b, k) !in Unremoved(removed');
    forall p | p in Unremoved(removed')
      ensures p in Unremoved(removed)
    {
      assert !removed[p.0][p.1];
    }
  }

  ghost predicate StepADone(f: Func, lat: Lattice, exec: seq<bool>, blocks: Func, n: nat) {
    && |blocks| == |f| == |exec|
    && (forall b :: 0 <= b < n && b < |f| && exec[b] ==> blocks[b] == MapBlock(f[b], Known(lat)))
    && (forall b :: 0 <= b < |f| && (n <= b || !exec[b]) ==> blocks[b] == f[b])
  }

  /** Step A: known operands become constants. */
  method ReplaceKnownOperands(f: Func, lat: Lattice, exec: seq<bool>) returns (blocks: Func)
    requires |exec| == |f|
    ensures StepADone(f, lat, exec, blocks, |f|)
  {
    hide MapBlock;
    blocks := f;
    for b := 0 to |f|
      invariant StepADone(f, lat, exec, blocks, b)
    {
      if exec[b] {
        blocks := blocks[b := MapBlock(blocks[b], Known(lat))];
      }
    }
  }

  /** Step B: instructions with constant operands are folded into their uses, until none is left. */
  method FoldConstants(f: Func, ghost params: set<Name>, lat: Lattice, exec: seq<bool>, blocks0: Func)
      returns (blocks: Func, removed: seq<seq<bool>>)
    requires Solution(f, params, lat, exec) && StepADone(f, lat, exec, blocks0, |f|)
    ensures Folding(f, lat, exec, blocks, removed) && AllFolded(exec, blocks, removed, |f|)
  {
    hide MapBlock, AllConstant, FoldInstr, Target;
    blocks := blocks0;
    removed := seq(|f|, b requires 0 <= b < |f| => seq(|blocks0[b].body|, _ => false));
    var changed := true;
    while changed
      invariant Folding(f, lat, exec, blocks, removed)
      invariant !changed ==> AllFolded(exec, blocks, removed, |f|)
      decreases Unremoved(removed), changed
    {
      changed := false;
      ghost var todo := Unremoved(removed);
      for b := 0 to |f|
        invariant Folding(f, lat, exec, blocks, removed)
        invariant if changed then Unremoved(removed) < todo else Unremoved(removed) == todo
        invariant !changed ==> AllFolded(exec, blocks, removed, b)
      {
        if exec[b] {
          blocks, removed, changed := FoldBlock(f, params, lat, exec, blocks, removed, changed, b);
        }
      }
    }
  }

  method FoldBlock(f: Func, ghost params: set<Name>, lat: Lattice, exec: seq<bool>, blocks0: Func,
      removed0: seq<seq<bool>>, changed0: bool, b: nat)
    returns (blocks: Func, removed: seq<seq<bool>>, changed: bool)
    requires Solution(f, params, lat, exec) && Folding(f, lat, exec, blocks0, removed0) && Executable(exec, b)
    ensures Folding(f, lat, exec, blocks, removed)
    ensures changed0 ==> changed
    ensures (Unremoved(removed) < Unremoved(removed0) && changed) ||
        (blocks == blocks0 && removed == removed0 && changed == changed0)
    ensures !changed ==> FoldedUpTo(blocks[b].body, removed[b], |blocks[b].body|)
  {
    hide MapBlock, AllConstant, FoldInstr, Target;
    blocks, removed, changed := blocks0, removed0, changed0;
    for k := 0 to |blocks0[b].body|
      invariant Folding(f, lat, exec, blocks, removed) && |blocks[b].body| == |blocks0[b].body|
      invariant changed0 ==> changed
      invariant (Unremoved(removed) < Unremoved(removed0) && changed) ||
          (blocks == blocks0 && removed == removed0 && changed == changed0)
      invariant !changed ==> FoldedUpTo(blocks[b].body, removed[b], k)
    {
      var i := blocks[b].body[k];
      if !removed[b][k] && AllConstant(i) {
        FoldableHasResult(i);
        FoldOne(f, params, lat, exec, blocks, removed, b, k);
        blocks := ReplaceAllUses(blocks, Target(i).value, Const(FoldInstr(i)));
        removed := removed[b := removed[b][k := true]];
        changed := true;
      }
    }
  }

  lemma FoldableHasResult(i: Instr)
    requires AllConstant(i)
    ensures Target(i).Some?
  {
  }

  /** The instructions whose flag is not set. */
  function Present(body: seq<Instr>, removed: seq<bool>): seq<Instr>
    requires |body| == |removed|
  {
    if body == [] then [] else (if removed[0] then [] else [body[0]]) + Present(body[1..], removed[1..])
  }

  lemma {:induction false} PresentIsUnfolded(body: seq<Instr>, removed: seq<bool>)
    requires |body| == |removed| && forall k :: 0 <= k < |body| ==> (removed[k] <==> AllConstant(body[k]))
    ensures Present(body, removed) == WithoutFolded(body)
  {
    if body != [] {
      PresentIsUnfolded(body[1..], removed[1..]);
    }
  }

  /** Operands from the dead block `d` taken out. */
  function DropArgs(args: seq<(Operand, nat)>, d: nat): (r: seq<(Operand, nat)>) {
    if args == [] then [] else (if args[0].1 == d then [] else [args[0]]) + DropArgs(args[1..], d)
  }

  function DropPhis(phis: seq<Phi>, d: nat): (r: seq<Phi>)
    ensures |r| == |phis| && forall k :: 0 <= k < |phis| ==> r[k] == Phi(phis[k].result, DropArgs(phis[k].args, d))
  {
    seq(|phis|, k requires 0 <= k < |phis| => Phi(phis[k].result, DropArgs(phis[k].args, d)))
  }

  /** The flags as far as step D has come: dead blocks from `n` on still count as alive. */
  function AliveUpTo(exec: seq<bool>, n: nat): (r: seq<bool>)
    ensures |r| == |exec| && forall b :: 0 <= b < |exec| ==> r[b] == (exec[b] || n <= b)
  {
    seq(|exec|, b requires 0 <= b < |exec| => exec[b] || n <= b)
  }

  lemma DropArgsCons(a: (Operand, nat), args: seq<(Operand, nat)>, d: nat)
    ensures a.1 == d ==> DropArgs([a] + args, d) == DropArgs(args, d)
    ensures a.1 != d ==> DropArgs([a] + args, d) == [a] + DropArgs(args, d)
  {
    assert ([a] + args)[1..] == args;
  }

  /** Step D for one dead block, on the operands of one phi. */
  lemma {:induction false} DropOneMore(args: seq<(Operand, nat)>, exec: seq<bool>, d: nat)
    requires d < |exec| && !exec[d]
    ensures DropArgs(LiveArgs(args, AliveUpTo(exec, d)), d) == LiveArgs(args, AliveUpTo(exec, d + 1))
    ensures DropArgs(LiveArgs(args, AliveUpTo(exec, d + 1)), d) == LiveArgs(args, AliveUpTo(exec, d + 1))
    ensures (forall j :: 0 <= j < |args| ==> args[j].1 != d) ==>
        LiveArgs(args, AliveUpTo(exec, d + 1)) == LiveArgs(args, AliveUpTo(exec, d))
  {
    if args != [] {
      hide LiveArgs, DropArgs;
      var a, rest, now, next := args[0], args[1..], AliveUpTo(exec, d), AliveUpTo(exec, d + 1);
      assert args == [a] + rest;
      DropOneMore(rest, exec, d);
      LiveArgsCons(a, rest, now);
      LiveArgsCons(a, rest, next);
      DropArgsCons(a, LiveArgs(rest, now), d);
      DropArgsCons(a, LiveArgs(rest, next), d);
      assert Executable(next, a.1) <==> Executable(now, a.1) && a.1 != d;
    }
  }

  lemma {:induction false} AllAlive(args: seq<(Operand, nat)>, exec: seq<bool>)
    requires forall j :: 0 <= j < |args| ==> args[j].1 < |exec|
    ensures LiveArgs(args, AliveUpTo(exec, 0)) == args
  {
    if args != [] {
      AllAlive(args[1..], exec);
    }
  }

  lemma DropDead(phis: seq<Phi>, lat: Lattice, exec: seq<bool>, d: nat)
    requires d < |exec| && !exec[d]
    ensures DropPhis(RewrittenPhis(phis, lat, AliveUpTo(exec, d)), d) ==
        RewrittenPhis(phis, lat, AliveUpTo(exec, d + 1))
    ensures DropPhis(RewrittenPhis(phis, lat, AliveUpTo(exec, d + 1)), d) ==
        RewrittenPhis(phis, lat, AliveUpTo(exec, d + 1))
    ensures (forall k, j :: 0 <= k < |phis| && 0 <= j < |phis[k].args| ==> phis[k].args[j].1 != d) ==>
      RewrittenPhis(phis, lat, AliveUpTo(exec, d + 1)) == RewrittenPhis(phis, lat, AliveUpTo(exec, d))
  {
    hide LiveArgs, DropArgs, RewrittenPhis, MapArgs;
    var now, next := AliveUpTo(exec, d), AliveUpTo(exec, d + 1);
    forall k | 0 <= k < |phis|
      ensures DropPhis(RewrittenPhis(phis, lat, now), d)[k] == RewrittenPhi(phis[k], lat, next)
      ensures DropPhis(RewrittenPhis(phis, lat, next), d)[k] == RewrittenPhi(phis[k], lat, next)
      ensures (forall j :: 0 <= j < |phis[k].args| ==> phis[k].args[j].1 != d) ==>
          RewrittenPhi(phis[k], lat, next) == RewrittenPhi(phis[k], lat, now)
    {
      DropOneMore(MapArgs(phis[k].args, Known(lat)), exec, d);
      MapArgsSources(phis[k].args, Known(lat), d);
    }
  }

  lemma MapArgsSources(args: seq<(Operand, nat)>, h: Operand -> Operand, d: nat)
    ensures (forall j :: 0 <= j < |args| ==> args[j].1 != d) ==> forall j :: 0 <= j < |args| ==>
        MapArgs(args, h)[j].1 != d
  {
  }

  lemma AllPhisAlive(f: Func, v: nat, lat: Lattice, exec: seq<bool>)
    requires PhiSources(f) && v < |f| == |exec|
    ensures RewrittenPhis(f[v].phis, lat, AliveUpTo(exec, 0)) == MapPhis(f[v].phis, Known(lat))
  {
    hide LiveArgs, RewrittenPhis;
    var phis := f[v].phis;
    forall k | 0 <= k < |phis|
      ensures RewrittenPhi(phis[k], lat, AliveUpTo(exec, 0)) == MapPhis(phis, Known(lat))[k]
    {
      AllAlive(MapArgs(phis[k].args, Known(lat)), exec);
    }
  }

  /** After steps A to C: executable blocks lack only the removal of dead phi operands. */
  ghost predicate Folded(f: Func, lat: Lattice, exec: seq<bool>, blocks: Func, n: nat) {
    && |blocks| == |f| == |exec|
    && forall b :: 0 <= b < n && b < |f| && exec[b] ==>
      blocks[b] == Block(MapPhis(f[b].phis, Known(lat)), Kept(f[b].body, lat),
        ConstantBranchToJump(MapTermUses(f[b].term, Known(lat))))
  }

  lemma PresentIsKept(f: Func, lat: Lattice, exec: seq<bool>, blocks: Func, removed: seq<seq<bool>>, b: nat)
    requires Folding(f, lat, exec, blocks, removed) && AllFolded(exec, blocks, removed, |f|) && b < |f| && exec[b]
    ensures blocks[b].phis == MapPhis(f[b].phis, Known(lat)) && blocks[b].term == MapTermUses(f[b].term, Known(lat))
    ensures Present(blocks[b].body, removed[b]) == Kept(f[b].body, lat)
  {
    hide AllConstant, MapTermUses;
    assert FoldedUpTo(blocks[b].body, removed[b], |blocks[b].body|);
    PresentIsUnfolded(blocks[b].body, removed[b]);
  }

  /** Step C: a branch on a constant becomes a jump; flagged instructions go. */
  method FoldBranches(f: Func, lat: Lattice, exec: seq<bool>, blocks0: Func, removed: seq<seq<bool>>)
      returns (blocks: Func)
    requires Folding(f, lat, exec, blocks0, removed) && AllFolded(exec, blocks0, removed, |f|)
    ensures Folded(f, lat, exec, blocks, |f|)
  {
    hide ConstantBranchToJump, MapTermUses, Present, Kept, AllFolded;
    blocks := blocks0;
    for b := 0 to |f|
      invariant |blocks| == |f|
      invariant forall v :: b <= v < |f| ==> blocks[v] == blocks0[v]
      invariant Folded(f, lat, exec, blocks, b)
    {
      if exec[b] {
        PresentIsKept(f, lat, exec, blocks0, removed, b);
        blocks := blocks[b := Block(blocks[b].phis, Present(blocks[b].body, removed[b]),
          ConstantBranchToJump(blocks[b].term))];
      }
    }
  }

  /** Step D so far: dead blocks below `n` are empty and no phi operand comes from them. */
  ghost predicate Cleared(f: Func, lat: Lattice, exec: seq<bool>, blocks: Func, n: nat) {
    && |blocks| == |f| == |exec|
    && (forall v :: 0 <= v < |f| && exec[v] ==> ClearedBlock(f, lat, exec, blocks, v, n))
    && (forall v :: 0 <= v < n && v < |f| && !exec[v] ==> blocks[v] == EMPTIED)
  }

  ghost predicate ClearedBlock(f: Func, lat: Lattice, exec: seq<bool>, blocks: Func, v: nat, n: nat) {
    && v < |f| == |blocks|
    && blocks[v] == Block(RewrittenPhis(f[v].phis, lat, AliveUpTo(exec, n)), Kept(f[v].body, lat),
      ConstantBranchToJump(MapTermUses(f[v].term, Known(lat))))
  }

  method DropDeadOperands(f: Func, lat: Lattice, exec: seq<bool>, blocks0: Func, d: nat) returns (blocks: Func)
    requires ValidTargets(f) && PhiSources(f) && Cleared(f, lat, exec, blocks0, d) && d < |f| && !exec[d] &&
        blocks0[d] == EMPTIED
    ensures |blocks| == |f| && Cleared(f, lat, exec, blocks, d + 1)
  {
    hide RewrittenPhis, Kept, MapTermUses, ConstantBranchToJump, AliveUpTo, DropPhis;
    blocks := blocks0;
    var succs := Successors(f[d].term);
    assert succs == Flow(f)[d];
    for j := 0 to |succs|
      invariant |blocks| == |f|
      invariant forall v :: 0 <= v < |f| && exec[v] ==> ClearedBlock(f, lat, exec, blocks, v, if v in succs[..j] then
          d + 1 else d)
      invariant forall v :: 0 <= v <= d && !exec[v] ==> blocks[v] == EMPTIED
    {
      var s := succs[j];
      assert succs[..j + 1] == succs[..j] + [s];
      if exec[s] {
        DropDead(f[s].phis, lat, exec, d);
        assert ClearedBlock(f, lat, exec, blocks, s, if s in succs[..j] then d + 1 else d);
      }
      ghost var before := blocks;
      blocks := blocks[s := blocks[s].(phis := DropPhis(blocks[s].phis, d))];
      forall v | 0 <= v < |f| && exec[v] && v != s
        ensures ClearedBlock(f, lat, exec, blocks, v, if v in succs[..j + 1] then d + 1 else d)
      {
        assert ClearedBlock(f, lat, exec, before, v, if v in succs[..j] then d + 1 else d);
      }
    }
    assert succs[..|succs|] == succs;
    forall v | 0 <= v < |f| && exec[v]
      ensures ClearedBlock(f, lat, exec, blocks, v, d + 1)
    {
      assert ClearedBlock(f, lat, exec, blocks, v, if v in succs then d + 1 else d);
      DropDead(f[v].phis, lat, exec, d);
    }
  }

  lemma EmptyOne(f: Func, lat: Lattice, exec: seq<bool>, blocks: Func, b: nat)
    requires Cleared(f, lat, exec, blocks, b) && b < |f| && !exec[b]
    ensures Cleared(f, lat, exec, blocks[b := EMPTIED], b)
  {
    hide RewrittenPhis, Kept, MapTermUses, ConstantBranchToJump, AliveUpTo;
    forall v | 0 <= v < |f| && exec[v]
      ensures ClearedBlock(f, lat, exec, blocks[b := EMPTIED], v, b)
    {
      assert ClearedBlock(f, lat, exec, blocks, v, b);
    }
  }

  lemma ClearedIsRewritten(f: Func, lat: Lattice, exec: seq<bool>, blocks: Func)
    requires Cleared(f, lat, exec, blocks, |f|)
    ensures Rewritten(f, lat, exec, blocks)
  {
    hide MapTermUses, ConstantBranchToJump, LiveArgs, WithoutFolded, MapPhis, MapBody;
    assert AliveUpTo(exec, |f|) == exec;
    forall b | 0 <= b < |f| && exec[b]
      ensures blocks[b] == RewrittenBlock(f[b], lat, exec)
    {
      assert ClearedBlock(f, lat, exec, blocks, b, |f|);
    }
  }

  lemma StartClearing(f: Func, lat: Lattice, exec: seq<bool>, blocks: Func)
    requires PhiSources(f) && Folded(f, lat, exec, blocks, |f|)
    ensures |blocks| == |f| == |exec| && Cleared(f, lat, exec, blocks, 0)
  {
    hide RewrittenPhis, Kept, MapTermUses, ConstantBranchToJump, MapPhis;
    forall v | 0 <= v < |f| && exec[v]
      ensures ClearedBlock(f, lat, exec, blocks, v, 0)
    {
      AllPhisAlive(f, v, lat, exec);
    }
  }

  lemma BlockAlive(f: Func, lat: Lattice, exec: seq<bool>, blocks: Func, b: nat)
    requires Cleared(f, lat, exec, blocks, b) && Executable(exec, b)
    ensures Cleared(f, lat, exec, blocks, b + 1)
  {
    assert AliveUpTo(exec, b + 1) == AliveUpTo(exec, b);
    hide RewrittenPhis, Kept, MapTermUses, ConstantBranchToJump;
    forall v | 0 <= v < |f| && exec[v]
      ensures ClearedBlock(f, lat, exec, blocks, v, b + 1)
    {
      assert ClearedBlock(f, lat, exec, blocks, v, b);
    }
  }

  /** Step D: dead blocks lose their instructions, and phis lose the operands that come from them. */
  method RemoveDeadBlocks(f: Func, lat: Lattice, exec: seq<bool>, blocks0: Func) returns (blocks: Func)
    requires ValidTargets(f) && PhiSources(f) && Folded(f, lat, exec, blocks0, |f|)
    ensures Rewritten(f, lat, exec, blocks)
  {
    hide RewrittenPhis, Kept, MapTermUses, ConstantBranchToJump, AliveUpTo, Rewritten, Cleared, Folded;
    blocks := blocks0;
    StartClearing(f, lat, exec, blocks);
    for b := 0 to |f|
      invariant |blocks| == |f| == |exec| && Cleared(f, lat, exec, blocks, b)
    {
      if exec[b] {
        BlockAlive(f, lat, exec, blocks, b);
      } else {
        EmptyOne(f, lat, exec, blocks, b);
        blocks := blocks[b := EMPTIED];
        blocks := DropDeadOperands(f, lat, exec, blocks, b);
      }
    }
    ClearedIsRewritten(f, lat, exec, blocks);
  }

  method Rewrite(f: Func, ghost params: set<Name>, lat: Lattice, exec: seq<bool>) returns (r: Func)
    requires ValidTargets(f) && PhiSources(f) && Solution(f, params, lat, exec)
    ensures Rewritten(f, lat, exec, r)
  {
    hide Rewritten, Folded, Folding, AllFolded, StepADone;
    var blocks := ReplaceKnownOperands(f, lat, exec);
    var removed;
    blocks, removed := FoldConstants(f, params, lat, exec, blocks);
    blocks := FoldBranches(f, lat, exec, blocks, removed);
    r := RemoveDeadBlocks(f, lat, exec, blocks);
  }
}
