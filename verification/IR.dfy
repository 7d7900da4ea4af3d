/** The three-address code shared by the passes, and its meaning. */
module IR {
  import opened Graphs

  type Name = string

  datatype Option<+T> = None | Some(value: T)

  // ---- 32-bit values ----

  const WORD: int := 0x1_0000_0000
  const INT_MIN: int := -0x8000_0000

  type Int32 = v: int | -0x8000_0000 <= v < 0x8000_0000

  /** The value with the same 32 bits read as unsigned, and back. */
  function Unsigned(v: int): (u: int)
    ensures 0 <= u < WORD
  {
    v % WORD
  }

  function Signed(u: int): (v: Int32)
    requires 0 <= u < WORD
  {
    if u < 0x8000_0000 then u else u - WORD
  }

  function Wrap(v: int): Int32 {
    Signed(v % WORD)
  }

  /** The call-clobbered register t5. */
  const T5: nat := 30

  // ---- Code ----

  /** An operand string: a variable (it starts with '%') or a decimal constant. */
  datatype Operand = Var(name: Name) | Const(value: Int32)

  datatype BinOp = Add | Sub | Mul | Div | Rem | Shl | Shr | And | Or | Xor
  datatype CmpOp = Eq | Ne | Ugt | Uge | Ult | Ule | Sgt | Sge | Slt | Sle

  /** Operations whose outcome depends on memory or on a callee. */
  datatype EffectOp = Alloca | Load | Store | Gep | Call(callee: Name)

  datatype Instr =
    | Arith(result: Name, op: BinOp, isUnsigned: bool, lhs: Operand, rhs: Operand)
    | Neg(result: Name, isMinus: bool, i1: bool, arg: Operand)
    | Compare(result: Name, cmp: CmpOp, lhs: Operand, rhs: Operand)
    | Select(result: Name, arg: Operand)
    | Move(result: Name, arg: Operand)
    | Effect(target: Option<Name>, effect: EffectOp, args: seq<Operand>)

  /** `Missing`: every instruction of the block has been removed, the terminator included. */
  datatype Term =
    | Branch(cond: Operand, onTrue: nat, onFalse: nat)
    | Jump(dest: nat)
    | Return(value: Option<Operand>)
    | Missing

  /** One operand for each predecessor block. */
  datatype Phi = Phi(result: Name, args: seq<(Operand, nat)>)

  datatype Block = Block(phis: seq<Phi>, body: seq<Instr>, term: Term)

  /** Block `i` has id `i`; block 0 is the entry. */
  type Func = seq<Block>

  function Successors(t: Term): (s: seq<nat>) {
    match t
    case Branch(_, a, b) => [a, b]
    case Jump(d) => [d]
    case _ => []
  }

  function Flow(f: Func): (g: Graph)
    ensures |g| == |f| && forall b :: 0 <= b < |f| ==> g[b] == Successors(f[b].term)
  {
    seq(|f|, b requires 0 <= b < |f| => Successors(f[b].term))
  }

  predicate ValidTargets(f: Func) {
    0 < |f| && WellFormed(Flow(f))
  }

  /** No edge leads from a block with two successors to a block with another predecessor. */
  predicate NoCriticalEdges(f: Func) {
    forall b, c, v ::
      0 <= b < |f| && 0 <= c < |f| && v in Successors(f[b].term) && v in Successors(f[c].term) && f[b].term.Branch? ==>
      c == b
  }

  predicate EntryHasNoPredecessor(f: Func) {
    forall b :: 0 <= b < |f| ==> 0 !in Successors(f[b].term)
  }

  function Target(i: Instr): Option<Name> {
    match i
    case Effect(t, _, _) => t
    case _ => Some(i.result)
  }

  function Uses(i: Instr): (s: seq<Operand>) {
    match i
    case Arith(_, _, _, a, b) => [a, b]
    case Neg(_, _, _, a) => [a]
    case Compare(_, _, a, b) => [a, b]
    case Select(_, a) => [a]
    case Move(_, a) => [a]
    case Effect(_, _, args) => args
  }

  function TermUses(t: Term): (s: seq<Operand>) {
    match t
    case Branch(c, _, _) => [c]
    case Return(Some(v)) => [v]
    case _ => []
  }

  // ---- Replacing operands ----

  function MapOperands(os: seq<Operand>, h: Operand -> Operand): (r: seq<Operand>)
    ensures |r| == |os| && forall k :: 0 <= k < |os| ==> r[k] == h(os[k])
  {
    seq(|os|, k requires 0 <= k < |os| => h(os[k]))
  }

  /** The instruction with `h` applied to every operand. */
  function MapUses(i: Instr, h: Operand -> Operand): (r: Instr)
    ensures Target(r) == Target(i)
    ensures Uses(r) == MapOperands(Uses(i), h)
  {
    match i
    case Arith(x, op, u, a, b) => Arith(x, op, u, h(a), h(b))
    case Neg(x, m, t, a) => Neg(x, m, t, h(a))
    case Compare(x, op, a, b) => Compare(x, op, h(a), h(b))
    case Select(x, a) => Select(x, h(a))
    case Move(x, a) => Move(x, h(a))
    case Effect(t, op, args) => Effect(t, op, MapOperands(args, h))
  }

  /** The instruction with other operands. */
  function WithUses(i: Instr, os: seq<Operand>): Instr
    requires |os| == |Uses(i)|
  {
    match i
    case Arith(x, op, u, _, _) => Arith(x, op, u, os[0], os[1])
    case Neg(x, m, t, _) => Neg(x, m, t, os[0])
    case Compare(x, op, _, _) => Compare(x, op, os[0], os[1])
    case Select(x, _) => Select(x, os[0])
    case Move(x, _) => Move(x, os[0])
    case Effect(t, op, _) => Effect(t, op, os)
  }

  function WithTarget(i: Instr, x: Name): (r: Instr)
    requires Target(i).Some?
    ensures Target(r) == Some(x) && Uses(r) == Uses(i) && (r.Effect? <==> i.Effect?) && (r.Move? <==> i.Move?)
  {
    match i
    case Arith(_, op, u, a, b) => Arith(x, op, u, a, b)
    case Neg(_, m, t, a) => Neg(x, m, t, a)
    case Compare(_, op, a, b) => Compare(x, op, a, b)
    case Select(_, a) => Select(x, a)
    case Move(_, a) => Move(x, a)
    case Effect(_, op, args) => Effect(Some(x), op, args)
  }

  lemma WithMappedUses(i: Instr, h: Operand -> Operand, os: seq<Operand>)
    requires os == MapOperands(Uses(i), h)
    ensures WithUses(i, os) == MapUses(i, h)
  {
  }

  function MapTermUses(t: Term, h: Operand -> Operand): Term {
    match t
    case Branch(c, a, b) => Branch(h(c), a, b)
    case Return(Some(o)) => Return(Some(h(o)))
    case _ => t
  }

  // ---- Values ----

  /** Variable values; a variable without an entry is undefined. */
  type Env = map<Name, Int32>

  function Lookup(env: Env, o: Operand): (v: Option<Int32>)
  {
    match o
    case Const(c) => Some(c)
    case Var(x) => if x in env then Some(env[x]) else None
  }

  /** Copying an undefined value leaves the target undefined. */
  function Assign(env: Env, x: Name, v: Option<Int32>): (r: Env)
    ensures Lookup(r, Var(x)) == v
    ensures forall y :: y != x ==> Lookup(r, Var(y)) == Lookup(env, Var(y))
  {
    match v
    case Some(n) => env[x := n]
    case None => env - {x}
  }

  lemma EnvEqual(a: Env, b: Env)
    requires forall x :: Lookup(a, Var(x)) == Lookup(b, Var(x))
    ensures a == b
  {
    forall x
      ensures x in a <==> x in b
      ensures x in a ==> a[x] == b[x]
    {
      assert Lookup(a, Var(x)) == Lookup(b, Var(x));
    }
  }

  function Pow2(k: nat): (p: int)
    ensures p >= 1
  {
    if k == 0 then 1 else 2 * Pow2(k - 1)
  }

  /** Division rounding toward zero, and its remainder. */
  function TruncDiv(a: int, b: int): int
    requires b != 0
  {
    if (a < 0) == (b < 0) then Abs(a) / Abs(b) else -(Abs(a) / Abs(b))
  }

  function TruncRem(a: int, b: int): int
    requires b != 0
  {
    a - b * TruncDiv(a, b)
  }

  function Abs(a: int): nat {
    if a < 0 then -a else a
  }

  /** The low 32 bits as a bit vector. */
  function Bits(v: int): bv32 {
    Unsigned(v) as bv32
  }

  /** The mathematical result, brought back into 32 bits; division by zero and overflow are undefined. */
  function ArithValue(op: BinOp, isUnsigned: bool, a: Int32, b: Int32): Option<Int32> {
    match op
    case Add => Some(Wrap(a + b))
    case Sub => Some(Wrap(a - b))
    case Mul => Some(Wrap(a * b))
    case Div =>
      if b == 0 || (!isUnsigned && a == INT_MIN && b == -1) then None
      else if isUnsigned then Some(Wrap(Unsigned(a) / Unsigned(b)))
      else Some(Wrap(TruncDiv(a, b)))
    case Rem =>
      if b == 0 || (!isUnsigned && a == INT_MIN && b == -1) then None
      else if isUnsigned then Some(Wrap(Unsigned(a) % Unsigned(b)))
      else Some(Wrap(TruncRem(a, b)))
    case Shl => Some(Wrap(a * Pow2(b % 32)))
    case Shr => Some(Wrap((if isUnsigned then Unsigned(a) else a) / Pow2(b % 32)))
    case And => Some(Wrap((Bits(a) & Bits(b)) as int))
    case Or => Some(Wrap((Bits(a) | Bits(b)) as int))
    case Xor => Some(Wrap((Bits(a) ^ Bits(b)) as int))
  }

  /** Exclusive or with 1, the `not` of a truth value. */
  function FlipLow(v: Int32): Int32 {
    if v % 2 == 0 then v + 1 else v - 1
  }

  predicate CmpHolds(op: CmpOp, a: Int32, b: Int32) {
    match op
    case Eq => a == b
    case Ne => a != b
    case Ugt => Unsigned(a) > Unsigned(b)
    case Uge => Unsigned(a) >= Unsigned(b)
    case Ult => Unsigned(a) < Unsigned(b)
    case Ule => Unsigned(a) <= Unsigned(b)
    case Sgt => a > b
    case Sge => a >= b
    case Slt => a < b
    case Sle => a <= b
  }

  // ---- Runs ----

  /** One interaction with memory or a callee: the operation and the values passed to it. */
  datatype Event = Event(op: EffectOp, args: seq<Int32>)

  /** The surroundings: the answer to each event depends on everything that happened before. */
  type World = seq<Event> -> Int32

  datatype State = State(env: Env, history: seq<Event>)

  function LookupAll(env: Env, os: seq<Operand>): (r: Option<seq<Int32>>)
    ensures r.Some? ==> |r.value| == |os|
  {
    if os == [] then Some([])
    else match (Lookup(env, os[0]), LookupAll(env, os[1..]))
      case (Some(v), Some(vs)) => Some([v] + vs)
      case _ => None
  }

  /** The value an instruction computes from the operand values; no value when it is undefined. */
  function Compute(i: Instr, vs: seq<Int32>): Option<Int32>
    requires !i.Effect? && !i.Move? && |vs| == |Uses(i)|
  {
    match i
    case Arith(_, op, u, _, _) => ArithValue(op, u, vs[0], vs[1])
    case Neg(_, isMinus, i1, _) => var v: int := vs[0]; Some(if isMinus then Wrap(-v) else if i1 then FlipLow(vs[0])
      else Wrap(-1 - v))
    case Compare(_, op, _, _) => Some(if CmpHolds(op, vs[0], vs[1]) then 1 else 0)
    case Select(_, _) => if vs[0] == 0 || vs[0] == 1 then Some(vs[0]) else None
  }

  /** One instruction; no next state when it uses an undefined value or has no defined result. */
  function Exec(w: World, i: Instr, s: State): Option<State> {
    match i
    case Move(x, a) => Some(s.(env := Assign(s.env, x, Lookup(s.env, a))))
    case Effect(t, op, args) =>
      (match LookupAll(s.env, args)
       case None => None
       case Some(vs) =>
         var h := s.history + [Event(op, vs)];
         Some(State(if t.Some? then s.env[t.value := w(h)] else s.env, h)))
    case _ =>
      (match LookupAll(s.env, Uses(i))
       case None => None
       case Some(vs) =>
         match Compute(i, vs)
         case None => None
         case Some(v) => Some(s.(env := s.env[i.result := v])))
  }

  function ExecAll(w: World, body: seq<Instr>, s: State): Option<State> {
    if body == [] then Some(s)
    else match Exec(w, body[0], s)
      case None => None
      case Some(s') => ExecAll(w, body[1..], s')
  }

  /** Where a terminator goes. */
  datatype Next = Goto(block: nat) | Leave(result: Option<Int32>) | Undefined

  function Follow(t: Term, env: Env): Next {
    match t
    case Jump(d) => Goto(d)
    case Branch(c, a, b) =>
      (match Lookup(env, c)
       case None => Undefined
       case Some(v) => Goto(if v != 0 then a else b))
    case Return(None) => Leave(None)
    case Return(Some(o)) =>
      (match Lookup(env, o)
       case None => Undefined
       case Some(v) => Leave(Some(v)))
    case Missing => Undefined
  }

  /** `to` receives the value of `from`. */
  datatype Copy = Copy(from: Operand, to: Name)

  /** Write the values that the sources have in `env`, all read before any write. */
  function ParallelCopy(env: Env, copies: seq<Copy>): Env
    decreases |copies|
  {
    if copies == [] then env
    else
      var c := copies[|copies| - 1];
      Assign(ParallelCopy(env, copies[..|copies| - 1]), c.to, Lookup(env, c.from))
  }

  predicate DistinctTargets(copies: seq<Copy>) {
    forall i, j :: 0 <= i < j < |copies| ==> copies[i].to != copies[j].to
  }

  /** The operands that a phi offers to predecessor `p`. */
  function ArgsFrom(phi: Phi, args: seq<(Operand, nat)>, p: nat): (s: seq<Copy>)
    ensures forall c :: c in s ==> c.to == phi.result && (c.from, p) in args
  {
    if args == [] then []
    else (if args[0].1 == p then [Copy(args[0].0, phi.result)] else []) + ArgsFrom(phi, args[1..], p)
  }

  /** The copies that the phis of a block make on the edge from `p`. */
  function EdgeCopies(phis: seq<Phi>, p: nat): (s: seq<Copy>)
  {
    if phis == [] then [] else ArgsFrom(phis[0], phis[0].args, p) + EdgeCopies(phis[1..], p)
  }

  /** A run stands at the start of a block's body, or has left the function, or is undefined. */
  datatype Config = At(block: nat, state: State) | Left(result: Option<Int32>, history: seq<Event>) | Stuck

  /** One whole block: its body, its terminator, and the phis of the block it goes to. */
  function StepBlock(w: World, f: Func, c: Config): Config {
    match c
    case At(b, s) =>
      if b >= |f| then Stuck
      else
        (match ExecAll(w, f[b].body, s)
         case None => Stuck
         case Some(s') =>
           match Follow(f[b].term, s'.env)
           case Undefined => Stuck
           case Leave(r) => Left(r, s'.history)
           case Goto(v) => if v >= |f| then Stuck
             else At(v, s'.(env := ParallelCopy(s'.env, EdgeCopies(f[v].phis, b)))))
    case _ => c
  }

  /** The configuration after `n` blocks. */
  function Runs(w: World, f: Func, c: Config, n: nat): Config {
    if n == 0 then c else StepBlock(w, f, Runs(w, f, c, n - 1))
  }

  function Start(params: Env): Config {
    At(0, State(params, []))
  }

  /** Runs compose: `a` steps and then `b` more are `a + b` steps. */
  lemma {:induction false} RunsOn(w: World, f: Func, c: Config, a: nat, b: nat)
    ensures Runs(w, f, Runs(w, f, c, a), b) == Runs(w, f, c, a + b)
  {
    hide StepBlock;
    if b > 0 {
      RunsOn(w, f, c, a, b - 1);
    }
  }

  lemma NextReachable(f: Func, b: nat, v: nat)
    requires ValidTargets(f) && b < |f| && Reachable(Flow(f), 0, b) && v in Successors(f[b].term)
    ensures v < |f| && Reachable(Flow(f), 0, v)
  {
    assert v in Flow(f)[b];
    SuccessorReachable(Flow(f), b, v);
  }

  /** Every block that a run visits is reachable. */
  lemma {:induction false} VisitedReachable(f: Func, w: World, params: Env, n: nat)
    requires ValidTargets(f)
    ensures Runs(w, f, Start(params), n).At? ==> Reachable(Flow(f), 0, Runs(w, f, Start(params), n).block)
  {
    if n == 0 {
      SinglePath(Flow(f), 0);
    } else if Runs(w, f, Start(params), n).At? {
      VisitedReachable(f, w, params, n - 1);
      var b, v := Runs(w, f, Start(params), n - 1).block, Runs(w, f, Start(params), n).block;
      var p :| PathFromTo(Flow(f), 0, b, p);
      assert v in Flow(f)[b];
      ExtendPath(Flow(f), 0, b, v, p);
    }
  }

  lemma Stopped(w: World, f: Func, c: Config)
    requires !c.At?
    ensures StepBlock(w, f, c) == c
  {
  }

  /** What a transformed function must do next to a run of the original: the same, unless that is undefined. */
  predicate SameOutcome(c: Config, d: Config) {
    match c
    case At(b, s) => d.At? && d.block == b && d.state.history == s.history
    case Left(_, _) => d == c
    case Stuck => true
  }

  /** Where a copy comes from. */
  lemma {:induction false} CopyOrigin(phis: seq<Phi>, b: nat, c: Copy) returns (k: nat, j: nat)
    requires c in EdgeCopies(phis, b)
    ensures k < |phis| && phis[k].result == c.to && j < |phis[k].args| && phis[k].args[j] == (c.from, b)
  {
    if c in ArgsFrom(phis[0], phis[0].args, b) {
      k := 0;
      j :| 0 <= j < |phis[0].args| && phis[0].args[j] == (c.from, b);
    } else {
      k, j := CopyOrigin(phis[1..], b, c);
      k := k + 1;
    }
  }

  /** Every operand from `b` makes a copy. */
  lemma {:induction false} CopyMade(phis: seq<Phi>, b: nat, k: nat, j: nat)
    requires k < |phis| && j < |phis[k].args| && phis[k].args[j].1 == b
    ensures Copy(phis[k].args[j].0, phis[k].result) in EdgeCopies(phis, b)
  {
    if k == 0 {
      ArgMade(phis[0], phis[0].args, b, j);
    } else {
      CopyMade(phis[1..], b, k - 1, j);
    }
  }

  lemma {:induction false} ArgMade(phi: Phi, args: seq<(Operand, nat)>, b: nat, j: nat)
    requires j < |args| && args[j].1 == b
    ensures Copy(args[j].0, phi.result) in ArgsFrom(phi, args, b)
  {
    if j > 0 {
      ArgMade(phi, args[1..], b, j - 1);
    }
  }
}
