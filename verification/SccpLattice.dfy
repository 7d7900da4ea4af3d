/** The lattice of conditional constant propagation, its equations, and what a solution says about runs. */
module SccpLattice {
  import opened Graphs
  import opened IR

  datatype Cell = Top | Constant(value: Int32) | Bottom

  type Lattice = map<Name, Cell>

  // ---- Constant folding ----

  /** Arithmetic on the 32-bit patterns, as the compiler folds it. */
  function FoldArithmetic(a: Int32, b: Int32, op: BinOp, isUnsigned: bool): Int32 {
    var ua, ub := Unsigned(a), Unsigned(b);
    match op
    case Add => Signed((ua + ub) % WORD)
    case Sub => Signed((ua - ub) % WORD)
    case Mul => Signed((ua * ub) % WORD)
    case Div => if b == 0 then a else if isUnsigned then Signed((ua / ub) % WORD) else Wrap(TruncDiv(a, b))
    case Rem => if b == 0 then 0 else if isUnsigned then Signed((ua % ub) % WORD) else Wrap(TruncRem(a, b))
    case Shl => Signed((ua * Pow2(ub % 32)) % WORD)
    case Shr => if isUnsigned then Signed((ua / Pow2(ub % 32)) % WORD) else Wrap(a / Pow2(ub % 32))
    case And => Wrap((Bits(a) & Bits(b)) as int)
    case Or => Wrap((Bits(a) | Bits(b)) as int)
    case Xor => Wrap((Bits(a) ^ Bits(b)) as int)
  }

  /** The word of a product is determined by the word of a factor. */
  lemma WordOfProduct(x: int, y: int)
    ensures (Unsigned(x) * y) % WORD == (x * y) % WORD
  {
    var q := x / WORD;
    var t := q * y;
    assert x == WORD * q + Unsigned(x);
    assert x * y == WORD * t + Unsigned(x) * y by {
      Distribute(WORD * q, Unsigned(x), y);
      Associate(WORD, q, y);
    }
  }

  lemma Distribute(a: int, b: int, y: int)
    ensures (a + b) * y == a * y + b * y
  {
  }

  lemma Commute(a: int, b: int)
    ensures a * b == b * a
  {
  }

  lemma Associate(a: int, b: int, y: int)
    ensures (a * b) * y == a * (b * y)
  {
  }

  /** Folding agrees with the meaning of the operation wherever that is defined. */
  lemma FoldIsValue(a: Int32, b: Int32, op: BinOp, isUnsigned: bool)
    requires ArithValue(op, isUnsigned, a, b).Some?
    ensures ArithValue(op, isUnsigned, a, b) == Some(FoldArithmetic(a, b, op, isUnsigned))
  {
    match op
    case Mul => FoldMul(a, b, isUnsigned);
    case Shl => FoldShift(a, b, op, isUnsigned);
    case Shr => FoldShift(a, b, op, isUnsigned);
    case And => FoldBits(a, b, op, isUnsigned);
    case Or => FoldBits(a, b, op, isUnsigned);
    case Xor => FoldBits(a, b, op, isUnsigned);
    case _ => FoldLinear(a, b, op, isUnsigned);
  }

  lemma FoldMul(a: Int32, b: Int32, isUnsigned: bool)
    ensures ArithValue(Mul, isUnsigned, a, b) == Some(FoldArithmetic(a, b, Mul, isUnsigned))
  {
    hide Signed;
    var ua, ub := Unsigned(a), Unsigned(b);
    WordOfProduct(a, b);
    WordOfProduct(b, ua);
    Commute(ua, b);
    Commute(ua, ub);
  }

  lemma FoldShift(a: Int32, b: Int32, op: BinOp, isUnsigned: bool)
    requires op.Shl? || op.Shr?
    ensures ArithValue(op, isUnsigned, a, b) == Some(FoldArithmetic(a, b, op, isUnsigned))
  {
    hide Signed, Pow2;
    var ua, ub := Unsigned(a), Unsigned(b);
    assert ub % 32 == b % 32;
    WordOfProduct(a, Pow2(b % 32));
  }

  lemma FoldBits(a: Int32, b: Int32, op: BinOp, isUnsigned: bool)
    requires op.And? || op.Or? || op.Xor?
    ensures ArithValue(op, isUnsigned, a, b) == Some(FoldArithmetic(a, b, op, isUnsigned))
  {
    hide Bits, Wrap;
  }

  lemma FoldLinear(a: Int32, b: Int32, op: BinOp, isUnsigned: bool)
    requires op.Add? || op.Sub? || op.Div? || op.Rem?
    requires ArithValue(op, isUnsigned, a, b).Some?
    ensures ArithValue(op, isUnsigned, a, b) == Some(FoldArithmetic(a, b, op, isUnsigned))
  {
    hide TruncDiv, TruncRem, Signed;
    match op
    case Add =>
    case Sub =>
    case Div =>
    case Rem =>
    case _ =>
  }

  // ---- Lattice values ----

  function GetLattice(lat: Lattice, o: Operand): Cell {
    match o
    case Const(v) => Constant(v)
    case Var(x) => if x in lat then lat[x] else Top
  }

  function MeetCells(cur: Cell, other: Cell): Cell {
    if cur.Top? then other
    else if other.Top? then cur
    else if cur.Constant? && other.Constant? && cur.value == other.value then cur
    else Bottom
  }

  /** `a` is at or below `b`: Bottom is lowest, Top highest, constants in between. */
  predicate AtOrBelow(a: Cell, b: Cell) {
    a == b || a.Bottom? || b.Top?
  }

  function Lift(a: Cell, b: Cell, v: Int32): Cell {
    if a.Bottom? || b.Bottom? then Bottom else if a.Constant? && b.Constant? then Constant(v) else Top
  }

  /** What an instruction makes of the cells of its operands. */
  function Transfer(i: Instr, lat: Lattice): Cell {
    match i
    case Arith(_, op, u, l, r) =>
      var a, b := GetLattice(lat, l), GetLattice(lat, r);
      Lift(a, b, if a.Constant? && b.Constant? then FoldArithmetic(a.value, b.value, op, u) else 0)
    case Neg(_, isMinus, _, o) =>
      var a := GetLattice(lat, o);
      Lift(a, a, if a.Constant? then (if isMinus then Signed((0 - Unsigned(a.value)) % WORD)
        else Signed(WORD - 1 - Unsigned(a.value))) else 0)
    case Compare(_, op, l, r) =>
      var a, b := GetLattice(lat, l), GetLattice(lat, r);
      Lift(a, b, if a.Constant? && b.Constant? && CmpHolds(op, a.value, b.value) then 1 else 0)
    case Select(_, o) => GetLattice(lat, o)
    case Move(_, o) => GetLattice(lat, o)
    case Effect(_, _, _) => Bottom
  }

  predicate Executable(exec: seq<bool>, b: nat) {
    b < |exec| && exec[b]
  }

  /** The meet of the operands that come from executable blocks. */
  function MeetArgs(lat: Lattice, exec: seq<bool>, args: seq<(Operand, nat)>): Cell
    decreases |args|
  {
    if args == [] then Top
    else
      var rest, last := MeetArgs(lat, exec, args[..|args| - 1]), args[|args| - 1];
      if Executable(exec, last.1) then MeetCells(rest, GetLattice(lat, last.0)) else rest
  }

  // ---- Places that are evaluated ----

  datatype Site = PhiAt(phi: nat) | InsAt(ins: nat) | TermAt

  predicate ValidSite(f: Func, b: nat, s: Site) {
    b < |f| &&
    match s
    case PhiAt(k) => k < |f[b].phis|
    case InsAt(k) => k < |f[b].body|
    case TermAt => true
  }

  function PhiOperands(args: seq<(Operand, nat)>): (os: seq<Operand>)
    ensures |os| == |args| && forall k :: 0 <= k < |args| ==> os[k] == args[k].0
  {
    seq(|args|, k requires 0 <= k < |args| => args[k].0)
  }

  function SiteOperands(f: Func, b: nat, s: Site): seq<Operand>
    requires ValidSite(f, b, s)
  {
    match s
    case PhiAt(k) => PhiOperands(f[b].phis[k].args)
    case InsAt(k) => Uses(f[b].body[k])
    case TermAt => TermUses(f[b].term)
  }

  function SiteResult(f: Func, b: nat, s: Site): Option<Name>
    requires ValidSite(f, b, s)
  {
    match s
    case PhiAt(k) => Some(f[b].phis[k].result)
    case InsAt(k) => Target(f[b].body[k])
    case TermAt => None
  }

  function SiteValue(f: Func, lat: Lattice, exec: seq<bool>, b: nat, s: Site): Cell
    requires ValidSite(f, b, s)
  {
    match s
    case PhiAt(k) => MeetArgs(lat, exec, f[b].phis[k].args)
    case InsAt(k) => Transfer(f[b].body[k], lat)
    case TermAt => Bottom
  }

  /** The successors that the cell of the condition lets through. */
  predicate TakenExecutable(t: Term, lat: Lattice, exec: seq<bool>) {
    match t
    case Branch(c, a, b) =>
      var cond := GetLattice(lat, c);
      if cond.Constant? then Executable(exec, if cond.value != 0 then a else b)
      else Executable(exec, a) && Executable(exec, b)
    case Jump(d) => Executable(exec, d)
    case _ => true
  }

  predicate Settled(f: Func, lat: Lattice, exec: seq<bool>, b: nat, s: Site)
    requires ValidSite(f, b, s)
  {
    if s.TermAt? then TakenExecutable(f[b].term, lat, exec)
    else SiteResult(f, b, s).Some? ==> GetLattice(lat, Var(SiteResult(f, b, s).value)) == SiteValue(f, lat, exec, b, s)
  }

  /** A solution: the entry is executable, parameters are unknown, and every place in an executable block is settled. */
  ghost predicate Solution(f: Func, params: set<Name>, lat: Lattice, exec: seq<bool>) {
    && |exec| == |f| && Executable(exec, 0)
    && (forall x :: x in params ==> GetLattice(lat, Var(x)) == Bottom)
    && (forall b: nat, s :: Executable(exec, b) && ValidSite(f, b, s) ==> Settled(f, lat, exec, b, s))
  }

  // ---- What a solution says about every run ----

  /** `c` may hold the value `v`. */
  predicate Admits(c: Cell, v: Int32) {
    c.Bottom? || c == Constant(v)
  }

  /** Every defined variable has a value that its cell admits. */
  ghost predicate Sound(lat: Lattice, env: Env) {
    forall x :: x in env ==> Admits(GetLattice(lat, Var(x)), env[x])
  }

  lemma LookupAdmitted(lat: Lattice, env: Env, o: Operand)
    requires Sound(lat, env) && Lookup(env, o).Some?
    ensures Admits(GetLattice(lat, o), Lookup(env, o).value)
  {
  }

  lemma {:induction false} LookupAllAdmitted(lat: Lattice, env: Env, os: seq<Operand>, k: nat)
    requires Sound(lat, env) && LookupAll(env, os).Some? && k < |os|
    ensures Admits(GetLattice(lat, os[k]), LookupAll(env, os).value[k])
  {
    if k == 0 {
      LookupAdmitted(lat, env, os[0]);
    } else {
      LookupAllAdmitted(lat, env, os[1..], k - 1);
    }
  }

  /** A `not` on i1 with a known operand: it is folded by complementing all 32 bits. */
  predicate FoldedNot(i: Instr, lat: Lattice) {
    i.Neg? && !i.isMinus && i.i1 && GetLattice(lat, i.arg).Constant?
  }

  /** What an instruction computes is admitted by what it makes of the cells, unless it is a folded `not` on i1. */
  lemma TransferAdmits(i: Instr, lat: Lattice, vs: seq<Int32>)
    requires !i.Effect? && !i.Move? && |vs| == |Uses(i)| && Compute(i, vs).Some? && !FoldedNot(i, lat)
    requires forall k :: 0 <= k < |vs| ==> Admits(GetLattice(lat, Uses(i)[k]), vs[k])
    ensures Admits(Transfer(i, lat), Compute(i, vs).value)
  {
    hide FoldArithmetic, ArithValue, CmpHolds, FlipLow, Wrap, Signed;
    var os := Uses(i);
    assert Admits(GetLattice(lat, os[0]), vs[0]);
    assert |vs| == 2 ==> Admits(GetLattice(lat, os[1]), vs[1]);
    if i.Arith? {
      FoldIsValue(vs[0], vs[1], i.op, i.isUnsigned);
    } else if i.Neg? {
      Complement(vs[0]);
    }
  }

  /** Negation and complement on 32-bit patterns. */
  lemma Complement(v: int)
    ensures Wrap(-v) == Signed((0 - Unsigned(v)) % WORD) && Wrap(-1 - v) == Signed(WORD - 1 - Unsigned(v))
  {
    hide Signed;
    WordOfDifference(0, v);
    WordOfDifference(WORD - 1, v);
  }

  lemma WordOfDifference(a: int, v: int)
    ensures (a - v) % WORD == (a - Unsigned(v)) % WORD
  {
    var q := v / WORD;
    assert v == WORD * q + Unsigned(v);
    assert a - v == (a - Unsigned(v)) + WORD * (-q);
  }

  /** Complementing all bits is never what flipping the lowest one gives. */
  lemma NotIsWrong(v: Int32)
    ensures Signed(WORD - 1 - Unsigned(v)) != FlipLow(v)
  {
  }

  lemma OneLookup(env: Env, o: Operand)
    ensures LookupAll(env, [o]) == match Lookup(env, o) case None => None case Some(v) => Some([v])
  {
    assert [o][1..] == [] && LookupAll(env, []) == Some([]);
    assert Lookup(env, o).Some? ==> [Lookup(env, o).value] + [] == [Lookup(env, o).value];
  }

  /** The exact condition: an instruction keeps the cells right just when it is not a folded `not` on i1. */
  lemma ExecSoundExactly(w: World, i: Instr, lat: Lattice, s: State)
    requires Sound(lat, s.env) && Exec(w, i, s).Some?
    requires Target(i).Some? ==> GetLattice(lat, Var(Target(i).value)) == Transfer(i, lat)
    ensures Sound(lat, Exec(w, i, s).value.env) <==> !FoldedNot(i, lat)
  {
    if FoldedNot(i, lat) {
      hide FlipLow, Signed;
      OneLookup(s.env, i.arg);
      LookupAdmitted(lat, s.env, i.arg);
      NotIsWrong(Lookup(s.env, i.arg).value);
      assert !Admits(GetLattice(lat, Var(i.result)), Exec(w, i, s).value.env[i.result]);
    } else {
      ExecSound(w, i, lat, s);
    }
  }

  lemma ExecSound(w: World, i: Instr, lat: Lattice, s: State)
    requires Sound(lat, s.env) && Exec(w, i, s).Some? && !FoldedNot(i, lat)
    requires Target(i).Some? ==> GetLattice(lat, Var(Target(i).value)) == Transfer(i, lat)
    ensures Sound(lat, Exec(w, i, s).value.env)
  {
    assert i.Move? ==> Transfer(i, lat) == GetLattice(lat, i.arg);
    assert i.Effect? ==> Transfer(i, lat) == Bottom;
    hide Transfer, Compute;
    match i
    case Move(x, a) =>
    case Effect(_, _, _) =>
    case _ =>
      var vs := LookupAll(s.env, Uses(i)).value;
      forall k | 0 <= k < |vs|
        ensures Admits(GetLattice(lat, Uses(i)[k]), vs[k])
      {
        LookupAllAdmitted(lat, s.env, Uses(i), k);
      }
      TransferAdmits(i, lat, vs);
  }
}
