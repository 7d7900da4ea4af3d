/** Lazy saving of caller-saved registers around calls, against saving and restoring everything. */
module CallerSave {
  import opened IR

  // ---- The hardware ----

  const RA: nat := 1
  const T0: nat := 5
  const T1: nat := 6
  const T2: nat := 7
  const A0: nat := 10

  /** Registers that a callee preserves: sp, gp, tp and the s-registers; x0 is constant. */
  predicate CalleeSaved(r: nat) {
    r == 0 || r == 2 || r == 3 || r == 4 || r == 8 || r == 9 || 18 <= r <= 27
  }

  /** Where an argument is handed over: an argument register or the outgoing stack area. */
  datatype ArgPlace = InReg(reg: nat) | OnStack(offset: nat)

  datatype CallEvent = CallEvent(callee: Name, args: seq<int>)

  /** What a callee does to its caller: a result, and arbitrary values in the registers it need not preserve. */
  datatype Outcome = Outcome(result: int, junk: nat -> int)

  type Surroundings = seq<CallEvent> -> Outcome

  /** Registers, the save area, the frame, the outgoing arguments, and the calls made so far. */
  datatype Hw = Hw(regs: seq<int>, save: map<nat, int>, frame: map<nat, int>, out: map<nat, int>, trace: seq<CallEvent>)

  predicate HwOk(h: Hw) {
    |h.regs| == 32
  }

  datatype Op =
    | SaveReg(rs: nat, slot: nat)
    | LoadSaved(rd: nat, slot: nat)
    | Mv(rd: nat, rs: nat)
    | Li(rd: nat, value: int)
    | LoadVar(rd: nat, address: nat)
    | StoreVar(rs: nat, address: nat)
    | StoreArg(rs: nat, offset: nat)
    | Alu(op: nat, rd: nat, rs1: nat, rs2: nat)
    | CallFn(callee: Name, places: seq<ArgPlace>)

  function Reg(h: Hw, r: nat): int {
    if r == 0 then 0 else if r < |h.regs| then h.regs[r] else 0
  }

  function SetReg(h: Hw, r: nat, v: int): Hw {
    if r == 0 || r >= |h.regs| then h else h.(regs := h.regs[r := v])
  }

  function Cell(m: map<nat, int>, k: nat): int {
    if k in m then m[k] else 0
  }

  function ArgValue(h: Hw, p: ArgPlace): int {
    match p
    case InReg(r) => Reg(h, r)
    case OnStack(o) => Cell(h.out, o)
  }

  function ArgValues(h: Hw, places: seq<ArgPlace>): (vs: seq<int>)
    ensures |vs| == |places| && forall i :: 0 <= i < |vs| ==> vs[i] == ArgValue(h, places[i])
  {
    seq(|places|, i requires 0 <= i < |places| => ArgValue(h, places[i]))
  }

  function AfterCall(regs: seq<int>, o: Outcome): (r: seq<int>)
    ensures |r| == |regs| && forall i :: 0 <= i < |r| ==> r[i] == if CalleeSaved(i) then regs[i] else if i == A0 then
        o.result else o.junk(i)
  {
    seq(|regs|, i requires 0 <= i < |regs| => if CalleeSaved(i) then regs[i] else if i == A0 then o.result
      else o.junk(i))
  }

  /** One machine instruction; `alu` is the meaning of the arithmetic operations. */
  function DoOp(w: Surroundings, alu: (nat, int, int) -> int, h: Hw, op: Op): Hw {
    match op
    case SaveReg(rs, s) => h.(save := h.save[s := Reg(h, rs)])
    case LoadSaved(rd, s) => SetReg(h, rd, Cell(h.save, s))
    case Mv(rd, rs) => SetReg(h, rd, Reg(h, rs))
    case Li(rd, v) => SetReg(h, rd, v)
    case LoadVar(rd, a) => SetReg(h, rd, Cell(h.frame, a))
    case StoreVar(rs, a) => h.(frame := h.frame[a := Reg(h, rs)])
    case StoreArg(rs, o) => h.(out := h.out[o := Reg(h, rs)])
    case Alu(o, rd, rs1, rs2) => SetReg(h, rd, alu(o, Reg(h, rs1), Reg(h, rs2)))
    case CallFn(f, places) =>
      var trace := h.trace + [CallEvent(f, ArgValues(h, places))];
      h.(regs := AfterCall(h.regs, w(trace)), trace := trace)
  }

  function RunOps(w: Surroundings, alu: (nat, int, int) -> int, h: Hw, ops: seq<Op>): Hw
    decreases |ops|
  {
    if ops == [] then h else DoOp(w, alu, RunOps(w, alu, h, ops[..|ops| - 1]), ops[|ops| - 1])
  }

  lemma {:induction false} RunAppend(w: Surroundings, alu: (nat, int, int) -> int, h: Hw, a: seq<Op>, b: seq<Op>)
    ensures RunOps(w, alu, h, a + b) == RunOps(w, alu, RunOps(w, alu, h, a), b)
    decreases |b|
  {
    if b == [] {
      assert a + b == a;
    } else {
      var n := |b| - 1;
      assert (a + b)[..|a + b| - 1] == a + b[..n];
      RunAppend(w, alu, h, a, b[..n]);
    }
  }

  // ---- The reference: every call saves and restores everything ----

  /** Where a variable lives; constants are operands only. */
  datatype Place = Imm(value: int) | InRegister(reg: nat) | InFrame(address: nat)

  datatype Ins =
    | Binary(op: nat, dst: Place, lhs: Place, rhs: Place)
    | Transfer(dst: Place, src: Place)
    | Invoke(callee: Name, args: seq<Place>, params: seq<ArgPlace>, target: Option<Place>)

  /** Variable registers, ra and the frame, as the program sees them. */
  datatype Log = Log(regs: seq<int>, frame: map<nat, int>, trace: seq<CallEvent>)

  function Read(l: Log, p: Place): int {
    match p
    case Imm(v) => v
    case InRegister(r) => if r < |l.regs| then l.regs[r] else 0
    case InFrame(a) => Cell(l.frame, a)
  }

  function Write(l: Log, p: Place, v: int): Log {
    match p
    case Imm(_) => l
    case InRegister(r) => if r < |l.regs| then l.(regs := l.regs[r := v]) else l
    case InFrame(a) => l.(frame := l.frame[a := v])
  }

  function ReadAll(l: Log, ps: seq<Place>): (vs: seq<int>)
    ensures |vs| == |ps| && forall i :: 0 <= i < |vs| ==> vs[i] == Read(l, ps[i])
  {
    seq(|ps|, i requires 0 <= i < |ps| => Read(l, ps[i]))
  }

  /** A call with everything saved before and restored after: only t5 and the result change. */
  function Step(w: Surroundings, alu: (nat, int, int) -> int, l: Log, i: Ins): Log {
    match i
    case Binary(o, d, a, b) => Write(l, d, alu(o, Read(l, a), Read(l, b)))
    case Transfer(d, s) => Write(l, d, Read(l, s))
    case Invoke(f, args, _, d) =>
      var trace := l.trace + [CallEvent(f, ReadAll(l, args))];
      var o := w(trace);
      var after := Log(if T5 < |l.regs| then l.regs[T5 := o.junk(T5)] else l.regs, l.frame, trace);
      if d.Some? then Write(after, d.value, o.result) else after
  }

  function Steps(w: Surroundings, alu: (nat, int, int) -> int, l: Log, block: seq<Ins>): Log
    decreases |block|
  {
    if block == [] then l else Step(w, alu, Steps(w, alu, l, block[..|block| - 1]), block[|block| - 1])
  }

  // ---- The flags of the generator ----

  /** Whether the function makes calls; for each argument register in use whether the hardware or the save slot holds
   * its value, and the same for ra. */
  datatype Flags = Flags(used: nat, calls: bool, valid: seq<bool>, slotValid: seq<bool>, raSaved: bool,
    raSlotValid: bool)

  predicate FlagsOk(f: Flags) {
    && f.used <= 8 && |f.valid| == |f.slotValid| == 8
    && (forall i :: 0 <= i < f.used && !f.valid[i] ==> f.slotValid[i])
    && (f.raSaved ==> f.raSlotValid)
    && (!f.calls ==> forall i :: 0 <= i < f.used ==> f.valid[i])
  }

  /** A register that may hold a variable: an s-register, t5, or an argument register in use. */
  predicate VarReg(used: nat, r: nat) {
    r == 9 || 18 <= r <= 27 || r == T5 || A0 <= r < A0 + used
  }

  /** In a function with calls a variable in the frame ends above the save area. */
  predicate VarPlace(used: nat, calls: bool, p: Place) {
    match p
    case Imm(_) => true
    case InRegister(r) => VarReg(used, r)
    case InFrame(a) => calls ==> a > 8 + 8 * used
  }

  predicate Writable(used: nat, calls: bool, p: Place) {
    !p.Imm? && VarPlace(used, calls, p)
  }

  /** The hardware or the slot holds the value of argument register `i`. */
  predicate ARegHeld(f: Flags, h: Hw, l: Log, i: nat)
    requires FlagsOk(f) && HwOk(h) && |l.regs| == 32 && i < f.used
  {
    l.regs[A0 + i] == if f.valid[i] then h.regs[A0 + i] else Cell(h.save, i)
  }

  ghost predicate Represents(f: Flags, h: Hw, l: Log) {
    && FlagsOk(f) && HwOk(h) && |l.regs| == 32
    && (forall i :: 0 <= i < f.used ==> ARegHeld(f, h, l, i))
    && l.regs[RA] == (if f.raSaved then Cell(h.save, f.used) else h.regs[RA])
    && (forall r :: (r == 9 || 18 <= r <= 27 || r == T5) ==> l.regs[r] == h.regs[r])
    && l.frame == h.frame && l.trace == h.trace
  }

  lemma RepresentsFacts(f: Flags, h: Hw, l: Log)
    requires Represents(f, h, l)
    ensures FlagsOk(f) && |h.regs| == |l.regs| == 32 && l.frame == h.frame && l.trace == h.trace
  {
  }

  /** Register `rs` will keep the value of `p` while another operand is fetched: it is x0, the scratch register, or
   * the variable's own. */
  predicate Stable(f: Flags, rs: nat, scratch: nat, p: Place) {
    rs == 0 || rs == scratch || (p == InRegister(rs) && FetchedReg(f, rs))
  }

  predicate FetchedReg(f: Flags, r: nat) {
    VarReg(f.used, r) && (A0 <= r < A0 + 8 ==> |f.valid| == 8 && f.valid[r - A0])
  }

  // ---- One machine instruction at a time ----

  lemma SaveOne(w: Surroundings, alu: (nat, int, int) -> int, f: Flags, h: Hw, l: Log, i: nat)
    requires Represents(f, h, l) && f.calls && i < f.used && f.valid[i]
    ensures Represents(f.(valid := f.valid[i := false], slotValid := f.slotValid[i := true]),
        DoOp(w, alu, h, SaveReg(A0 + i, i)), l)
  {
    var f', h' := f.(valid := f.valid[i := false], slotValid := f.slotValid[i := true]),
      DoOp(w, alu, h, SaveReg(A0 + i, i));
    forall j | 0 <= j < f.used
      ensures ARegHeld(f', h', l, j)
    {
      assert ARegHeld(f, h, l, j);
    }
  }

  lemma SaveRa(w: Surroundings, alu: (nat, int, int) -> int, f: Flags, h: Hw, l: Log)
    requires Represents(f, h, l) && !f.raSaved
    ensures Represents(f.(raSaved := true, raSlotValid := true), DoOp(w, alu, h, SaveReg(RA, f.used)), l)
  {
    var f', h' := f.(raSaved := true, raSlotValid := true), DoOp(w, alu, h, SaveReg(RA, f.used));
    forall j | 0 <= j < f.used
      ensures ARegHeld(f', h', l, j)
    {
      assert ARegHeld(f, h, l, j);
    }
  }

  lemma RestoreOne(w: Surroundings, alu: (nat, int, int) -> int, f: Flags, h: Hw, l: Log, i: nat)
    requires Represents(f, h, l) && i < f.used && !f.valid[i]
    ensures Represents(f.(valid := f.valid[i := true]), DoOp(w, alu, h, LoadSaved(A0 + i, i)), l)
  {
    var f', h' := f.(valid := f.valid[i := true]), DoOp(w, alu, h, LoadSaved(A0 + i, i));
    forall j | 0 <= j < f.used
      ensures ARegHeld(f', h', l, j)
    {
      assert ARegHeld(f, h, l, j);
    }
  }

  lemma RestoreRa(w: Surroundings, alu: (nat, int, int) -> int, f: Flags, h: Hw, l: Log)
    requires Represents(f, h, l) && f.raSaved
    ensures Represents(f.(raSaved := false), DoOp(w, alu, h, LoadSaved(RA, f.used)), l)
  {
    var f', h' := f.(raSaved := false), DoOp(w, alu, h, LoadSaved(RA, f.used));
    forall j | 0 <= j < f.used
      ensures ARegHeld(f', h', l, j)
    {
      assert ARegHeld(f, h, l, j);
    }
  }

  /** Writing a scratch register changes no variable. */
  lemma SetScratch(f: Flags, h: Hw, l: Log, r: nat, v: int)
    requires Represents(f, h, l) && (r == T0 || r == T1 || r == T2)
    ensures Represents(f, SetReg(h, r, v), l)
  {
    forall j | 0 <= j < f.used
      ensures ARegHeld(f, SetReg(h, r, v), l, j)
    {
      assert ARegHeld(f, h, l, j);
    }
  }

  /** Writing a variable register writes the variable, and makes an argument register valid. */
  lemma SetVariable(f: Flags, h: Hw, l: Log, r: nat, v: int)
    requires Represents(f, h, l) && VarReg(f.used, r)
    ensures Represents(Marked(f, r), SetReg(h, r, v), Write(l, InRegister(r), v))
  {
    forall j | 0 <= j < f.used
      ensures ARegHeld(Marked(f, r), SetReg(h, r, v), Write(l, InRegister(r), v), j)
    {
      assert ARegHeld(f, h, l, j);
    }
  }

  /** The flags after a write to address `r`. */
  function Marked(f: Flags, r: nat): Flags {
    if A0 <= r <= A0 + 7 && |f.valid| == 8 then f.(valid := f.valid[r - A0 := true]) else f
  }

  lemma SetFrame(f: Flags, h: Hw, l: Log, a: nat, v: int)
    requires Represents(f, h, l) && VarPlace(f.used, f.calls, InFrame(a))
    ensures Represents(Marked(f, a), h.(frame := h.frame[a := v]), Write(l, InFrame(a), v))
  {
    var h' := h.(frame := h.frame[a := v]);
    forall j | 0 <= j < f.used
      ensures ARegHeld(Marked(f, a), h', Write(l, InFrame(a), v), j)
    {
      assert ARegHeld(f, h, l, j);
    }
  }

  // ---- The generator ----

  ghost predicate AllInvalid(f: Flags) {
    FlagsOk(f) && f.raSaved && forall i :: 0 <= i < f.used ==> !f.valid[i]
  }

  lemma AllInvalidFacts(f: Flags)
    requires AllInvalid(f)
    ensures FlagsOk(f)
  {
  }

  ghost predicate AllValid(f: Flags) {
    FlagsOk(f) && !f.raSaved && forall i :: 0 <= i < f.used ==> f.valid[i]
  }

  /** Code that only moves values between registers and slots. */
  ghost predicate Emits(w: Surroundings, alu: (nat, int, int) -> int, f: Flags, ops: seq<Op>, f': Flags) {
    forall h: Hw, l: Log :: Represents(f, h, l) ==> Represents(f', RunOps(w, alu, h, ops), l)
  }

  /** Code that brings the value of `p` into register `rs`. */
  ghost predicate Fetches(w: Surroundings, alu: (nat, int, int) -> int, f: Flags, ops: seq<Op>, f': Flags, rs: nat,
      p: Place) {
    forall h: Hw, l: Log :: Represents(f, h, l) ==>
      Represents(f', RunOps(w, alu, h, ops), l) && Reg(RunOps(w, alu, h, ops), rs) == Read(l, p)
  }

  /** Code for one instruction of the program. */
  ghost predicate Implements(w: Surroundings, alu: (nat, int, int) -> int, f: Flags, ops: seq<Op>, f': Flags, i: Ins) {
    forall h: Hw, l: Log :: Represents(f, h, l) ==> Represents(f', RunOps(w, alu, h, ops), Step(w, alu, l, i))
  }

  lemma NothingEmitted(w: Surroundings, alu: (nat, int, int) -> int, f: Flags)
    ensures Emits(w, alu, f, [], f)
  {
  }

  lemma RunOne(w: Surroundings, alu: (nat, int, int) -> int, h: Hw, ops: seq<Op>, op: Op)
    ensures RunOps(w, alu, h, ops + [op]) == DoOp(w, alu, RunOps(w, alu, h, ops), op)
  {
    assert (ops + [op])[..|ops|] == ops;
  }

  lemma RunNone(w: Surroundings, alu: (nat, int, int) -> int, h: Hw)
    ensures RunOps(w, alu, h, []) == h
  {
  }

  /** Code that only loads, and never into t0 or x0. */
  predicate Gentle(ops: seq<Op>) {
    forall i :: 0 <= i < |ops| ==>
      match ops[i]
      case LoadSaved(rd, _) => rd != T0 && rd != 0
      case Li(rd, _) => rd != T0 && rd != 0
      case LoadVar(rd, _) => rd != T0 && rd != 0
      case _ => false
  }

  lemma {:induction false} GentleKeeps(w: Surroundings, alu: (nat, int, int) -> int, h: Hw, ops: seq<Op>)
    requires Gentle(ops)
    ensures Reg(RunOps(w, alu, h, ops), T0) == Reg(h, T0) && |RunOps(w, alu, h, ops).regs| == |h.regs|
    decreases |ops|
  {
    if ops != [] {
      GentleKeeps(w, alu, h, ops[..|ops| - 1]);
      assert ops[|ops| - 1] == ops[..|ops|][|ops| - 1];
    }
  }

  lemma FetchedValue(f: Flags, h: Hw, l: Log, r: nat)
    requires Represents(f, h, l) && FetchedReg(f, r)
    ensures Reg(h, r) == Read(l, InRegister(r))
  {
    if A0 <= r < A0 + 8 {
      assert ARegHeld(f, h, l, r - A0);
    }
  }

  /** A fetched operand keeps its register while the next is fetched. */
  lemma StillThere(w: Surroundings, alu: (nat, int, int) -> int, f: Flags, f': Flags, h: Hw, l: Log, ops: seq<Op>,
      rs: nat, p: Place)
    requires Represents(f, h, l) && Represents(f', RunOps(w, alu, h, ops), l) && Gentle(ops) && Stable(f, rs, T0, p) &&
        Reg(h, rs) == Read(l, p)
    requires f'.used == f.used && f'.calls == f.calls && forall i :: 0 <= i < 8 && f.valid[i] ==> f'.valid[i]
    ensures Reg(RunOps(w, alu, h, ops), rs) == Read(l, p)
  {
    hide Represents;
    GentleKeeps(w, alu, h, ops);
    if rs != 0 && rs != T0 {
      assert FetchedReg(f', rs) by {
        RepresentsFacts(f, h, l);
        RepresentsFacts(f', RunOps(w, alu, h, ops), l);
      }
      FetchedValue(f', RunOps(w, alu, h, ops), l, rs);
    }
  }

  /** The arithmetic instruction and what follows it write the destination. */
  lemma WriteResult(w: Surroundings, alu: (nat, int, int) -> int, f: Flags, h: Hw, l: Log, dst: Place, op: nat,
      rs1: nat, rs2: nat, ops: seq<Op>)
    requires Represents(f, h, l) && Writable(f.used, f.calls, dst)
    requires var rd := if dst.InFrame? then T2 else dst.reg;
      ops == if dst.InFrame? then [StoreVar(rd, dst.address)] else []
    ensures var rd := if dst.InFrame? then T2 else dst.reg;
      Represents(Marked(f, if dst.InFrame? then dst.address else dst.reg),
        RunOps(w, alu, h, [Alu(op, rd, rs1, rs2)] + ops), Write(l, dst, alu(op, Reg(h, rs1), Reg(h, rs2))))
  {
    hide Represents;
    var v := alu(op, Reg(h, rs1), Reg(h, rs2));
    var rd := if dst.InFrame? then T2 else dst.reg;
    RunOne(w, alu, h, [], Alu(op, rd, rs1, rs2));
    assert [] + [Alu(op, rd, rs1, rs2)] == [Alu(op, rd, rs1, rs2)];
    var h1 := SetReg(h, rd, v);
    if dst.InFrame? {
      RunOne(w, alu, h, [Alu(op, rd, rs1, rs2)], StoreVar(T2, dst.address));
      SetScratch(f, h, l, T2, v);
      RepresentsFacts(f, h, l);
      SetFrame(f, h1, l, dst.address, v);
    } else {
      assert [Alu(op, rd, rs1, rs2)] + ops == [Alu(op, rd, rs1, rs2)];
      SetVariable(f, h, l, dst.reg, v);
    }
  }

  /** The code of a scalar move. */
  function MoveCode(dst: Place, src: Place): seq<Op> {
    match (dst, src)
    case (InRegister(d), Imm(v)) => [Li(d, v)]
    case (InRegister(d), InFrame(a)) => [LoadVar(d, a)]
    case (InRegister(d), InRegister(r)) => if d != r then [Mv(d, r)] else []
    case (InFrame(d), Imm(v)) => [Li(T0, v), StoreVar(T0, d)]
    case (InFrame(d), InFrame(a)) => [LoadVar(T0, a), StoreVar(T0, d)]
    case (InFrame(d), InRegister(r)) => [StoreVar(r, d)]
    case (Imm(_), _) => []
  }

  /** A scalar move between two places, the source register being valid. */
  lemma MoveValue(w: Surroundings, alu: (nat, int, int) -> int, f: Flags, h: Hw, l: Log, dst: Place, src: Place)
    requires Represents(f, h, l) && Writable(f.used, f.calls, dst) && VarPlace(f.used, f.calls, src) &&
        (src.InRegister? ==> FetchedReg(f, src.reg))
    ensures Represents(Marked(f, if dst.InFrame? then dst.address else dst.reg), RunOps(w, alu, h, MoveCode(dst, src)),
        Write(l, dst, Read(l, src)))
  {
    hide Represents, Write, RunOps, DoOp, Marked;
    if src.InRegister? {
      FetchedValue(f, h, l, src.reg);
    }
    RepresentsFacts(f, h, l);
    if dst.InRegister? {
      MoveToRegister(w, alu, f, h, l, dst.reg, src);
    } else {
      MoveToFrame(w, alu, f, h, l, dst.address, src);
    }
  }

  lemma MoveToRegister(w: Surroundings, alu: (nat, int, int) -> int, f: Flags, h: Hw, l: Log, d: nat, src: Place)
    requires Represents(f, h, l) && VarReg(f.used, d) && |h.regs| == 32 && l.frame == h.frame
    requires src.InRegister? ==> FetchedReg(f, src.reg) && Reg(h, src.reg) == Read(l, src)
    ensures Represents(Marked(f, d), RunOps(w, alu, h, MoveCode(InRegister(d), src)),
        Write(l, InRegister(d), Read(l, src)))
  {
    hide Represents, Write, RunOps, Marked;
    var ops := MoveCode(InRegister(d), src);
    SetVariable(f, h, l, d, Read(l, src));
    if ops == [] {
      SameValue(f, h, l, d);
      RunNone(w, alu, h);
    } else {
      RunTwo(w, alu, h, ops[0], ops[0]);
      assert ops == [ops[0]];
    }
  }

  lemma MoveToFrame(w: Surroundings, alu: (nat, int, int) -> int, f: Flags, h: Hw, l: Log, a: nat, src: Place)
    requires Represents(f, h, l) && VarPlace(f.used, f.calls, InFrame(a)) && |h.regs| == 32 && l.frame == h.frame
    requires src.InRegister? ==> Reg(h, src.reg) == Read(l, src)
    ensures Represents(Marked(f, a), RunOps(w, alu, h, MoveCode(InFrame(a), src)), Write(l, InFrame(a), Read(l, src)))
  {
    hide Represents, Write, RunOps, Marked;
    var ops, v := MoveCode(InFrame(a), src), Read(l, src);
    if src.InRegister? {
      RunTwo(w, alu, h, ops[0], ops[0]);
      SetFrame(f, h, l, a, v);
    } else {
      SetScratch(f, h, l, T0, v);
      RunTwo(w, alu, h, ops[0], ops[1]);
      SetFrame(f, SetReg(h, T0, v), l, a, v);
    }
  }

  lemma SameValue(f: Flags, h: Hw, l: Log, r: nat)
    requires Represents(f, h, l) && VarReg(f.used, r) && FetchedReg(f, r)
    ensures SetReg(h, r, Read(l, InRegister(r))) == h
  {
    FetchedValue(f, h, l, r);
  }

  /** Writing a frame variable leaves the flags as they were: its address is no register number in use, or nothing is
   * ever saved. */
  lemma FrameMarksNothing(f: Flags, dst: Place)
    requires FlagsOk(f) && Writable(f.used, f.calls, dst)
    ensures forall h: Hw, l: Log :: dst.InFrame? && Represents(Marked(f, dst.address), h, l) ==> Represents(f, h, l)
  {
    forall h: Hw, l: Log | dst.InFrame? && Represents(Marked(f, dst.address), h, l)
      ensures Represents(f, h, l)
    {
      forall j | 0 <= j < f.used
        ensures ARegHeld(f, h, l, j)
      {
        assert ARegHeld(Marked(f, dst.address), h, l, j);
      }
    }
  }

  /** Bringing the source register back and then moving implements the move. */
  lemma Moved(w: Surroundings, alu: (nat, int, int) -> int, f0: Flags, fetch: seq<Op>, f: Flags, dst: Place,
      src: Place, f': Flags)
    requires Emits(w, alu, f0, fetch, f) && FlagsOk(f)
    requires Writable(f.used, f.calls, dst) && VarPlace(f.used, f.calls, src) &&
        (src.InRegister? ==> FetchedReg(f, src.reg))
    requires f' == if dst.InRegister? then Marked(f, dst.reg) else f
    ensures Implements(w, alu, f0, fetch + MoveCode(dst, src), f', Transfer(dst, src))
  {
    hide Represents, MoveCode;
    var rest := MoveCode(dst, src);
    forall h: Hw, l: Log | Represents(f0, h, l)
      ensures Represents(f', RunOps(w, alu, h, fetch + rest), Step(w, alu, l, Transfer(dst, src)))
    {
      RunAppend(w, alu, h, fetch, rest);
      MoveValue(w, alu, f, RunOps(w, alu, h, fetch), l, dst, src);
      FrameMarksNothing(f, dst);
    }
  }

  // ---- Calls ----

  /** Argument places are different argument registers and stack offsets; sources are variables or constants. */
  predicate CallOk(used: nat, calls: bool, args: seq<Place>, params: seq<ArgPlace>, target: Option<Place>) {
    && calls && |args| == |params| && (target.Some? ==> Writable(used, calls, target.value))
    && (forall i :: 0 <= i < |args| ==>
      VarPlace(used, calls, args[i]) &&
      (params[i].InReg? ==> A0 <= params[i].reg <= A0 + 7))
    && (forall i, j :: 0 <= i < j < |params| ==> params[i] != params[j])
  }

  predicate InsOk(used: nat, calls: bool, i: Ins) {
    match i
    case Binary(_, d, a, b) => Writable(used, calls, d) && VarPlace(used, calls, a) && VarPlace(used, calls, b)
    case Transfer(d, s) => Writable(used, calls, d) && VarPlace(used, calls, s)
    case Invoke(_, args, params, target) => CallOk(used, calls, args, params, target)
  }

  /** The code for one argument after everything has been saved; argument registers come from their save slots. */
  function ArgCode(src: Place, para: ArgPlace): seq<Op> {
    match (src, para)
    case (Imm(v), InReg(p)) => [Li(p, v)]
    case (Imm(v), OnStack(o)) => [Li(T0, v), StoreArg(T0, o)]
    case (InRegister(r), InReg(p)) => if A0 <= r < A0 + 8 then [LoadSaved(p, r - A0)] else if p != r then [Mv(p, r)]
      else []
    case (InRegister(r), OnStack(o)) => if A0 <= r < A0 + 8 then [LoadSaved(T0, r - A0), StoreArg(T0, o)]
      else [StoreArg(r, o)]
    case (InFrame(a), InReg(p)) => [LoadVar(p, a)]
    case (InFrame(_), OnStack(_)) => []
  }

  /** Frame-to-stack arguments before `n` and all other arguments before `m` hold the values the program passes. */
  ghost predicate ArgsReady(w: Surroundings, alu: (nat, int, int) -> int, f: Flags, ops: seq<Op>, args: seq<Place>,
      params: seq<ArgPlace>, n: nat, m: nat) {
    |args| == |params| && n <= |args| && m <= |args| &&
    forall h: Hw, l: Log :: Represents(f, h, l) ==>
        Represents(f, RunOps(w, alu, h, ops), l) &&
        ArgsHold(RunOps(w, alu, h, ops), l, args, params, n, m)
  }

  predicate ArgsHold(h: Hw, l: Log, args: seq<Place>, params: seq<ArgPlace>, n: nat, m: nat) {
    |args| == |params| &&
    forall i :: 0 <= i < |args| && i < (if args[i].InFrame? && params[i].OnStack? then n else m) ==>
        ArgValue(h, params[i]) == Read(l, args[i])
  }

  /** Writing an argument place while every argument register is saved. */
  lemma SetArg(f: Flags, h: Hw, l: Log, p: ArgPlace, v: int, args: seq<Place>, params: seq<ArgPlace>, n: nat, m: nat,
      i: nat)
    requires Represents(f, h, l) && AllInvalid(f) && ArgsHold(h, l, args, params, n, m) && i < |params| &&
        params[i] == p && v == Read(l, args[i])
    requires (p.InReg? ==> A0 <= p.reg <= A0 + 7) && forall a, b :: 0 <= a < b < |params| ==> params[a] != params[b]
    requires n <= |args| && m <= |args|
    ensures var h' := if p.InReg? then SetReg(h, p.reg, v) else h.(out := h.out[p.offset := v]);
      && Represents(f, h', l)
      && (args[i].InFrame? && p.OnStack? && i == n ==> ArgsHold(h', l, args, params, n + 1, m))
      && (!(args[i].InFrame? && p.OnStack?) && i == m ==> ArgsHold(h', l, args, params, n, m + 1))
  {
    var h' := if p.InReg? then SetReg(h, p.reg, v) else h.(out := h.out[p.offset := v]);
    forall j | 0 <= j < f.used
      ensures ARegHeld(f, h', l, j)
    {
      assert ARegHeld(f, h, l, j);
    }
    forall j | 0 <= j < |args| && j != i
      ensures ArgValue(h', params[j]) == ArgValue(h, params[j])
    {
      assert params[j] != params[i];
    }
    assert ArgValue(h', params[i]) == v;
  }

  lemma FrameArgReady(w: Surroundings, alu: (nat, int, int) -> int, f: Flags, ops: seq<Op>, args: seq<Place>,
      params: seq<ArgPlace>, i: nat)
    requires AllInvalid(f) && CallOk(f.used, f.calls, args, params, None) && i < |args| && args[i].InFrame? &&
        params[i].OnStack? && ArgsReady(w, alu, f, ops, args, params, i, 0)
    ensures ArgsReady(w, alu, f, ops + [LoadVar(T0, args[i].address), StoreArg(T0, params[i].offset)], args, params,
        i + 1, 0)
  {
    hide Represents;
    var more := [LoadVar(T0, args[i].address), StoreArg(T0, params[i].offset)];
    forall h: Hw, l: Log | Represents(f, h, l)
      ensures Represents(f, RunOps(w, alu, h, ops + more), l) &&
          ArgsHold(RunOps(w, alu, h, ops + more), l, args, params, i + 1, 0)
    {
      var h1 := RunOps(w, alu, h, ops);
      var v := Cell(h1.frame, args[i].address);
      RunAppend(w, alu, h, ops, more);
      RunTwo(w, alu, h1, more[0], more[1]);
      assert Represents(f, h1, l) && ArgsHold(h1, l, args, params, i, 0);
      RepresentsFacts(f, h1, l);
      SetScratch(f, h1, l, T0, v);
      ScratchKeepsArgs(h1, l, args, params, i, 0, v);
      SetArg(f, SetReg(h1, T0, v), l, params[i], v, args, params, i, 0, i);
    }
  }

  lemma NoArgsYet(w: Surroundings, alu: (nat, int, int) -> int, f: Flags, args: seq<Place>, params: seq<ArgPlace>)
    requires |args| == |params|
    ensures ArgsReady(w, alu, f, [], args, params, 0, 0)
  {
  }

  lemma RunTwo(w: Surroundings, alu: (nat, int, int) -> int, h: Hw, a: Op, b: Op)
    ensures RunOps(w, alu, h, [a, b]) == DoOp(w, alu, DoOp(w, alu, h, a), b)
    ensures RunOps(w, alu, h, [a]) == DoOp(w, alu, h, a)
  {
    RunOne(w, alu, h, [], a);
    RunOne(w, alu, h, [a], b);
    assert [] + [a] == [a] && [a] + [b] == [a, b];
  }

  lemma ScratchKeepsArgs(h: Hw, l: Log, args: seq<Place>, params: seq<ArgPlace>, n: nat, m: nat, v: int)
    requires ArgsHold(h, l, args, params, n, m) && forall i :: 0 <= i < |params| && params[i].InReg? ==>
        A0 <= params[i].reg <= A0 + 7
    ensures ArgsHold(SetReg(h, T0, v), l, args, params, n, m)
  {
    forall i | 0 <= i < |params|
      ensures ArgValue(SetReg(h, T0, v), params[i]) == ArgValue(h, params[i])
    {
    }
  }

  lemma SkipArg(w: Surroundings, alu: (nat, int, int) -> int, f: Flags, ops: seq<Op>, args: seq<Place>,
      params: seq<ArgPlace>, i: nat)
    requires ArgsReady(w, alu, f, ops, args, params, i, 0) && i < |args| && !(args[i].InFrame? && params[i].OnStack?)
    ensures ArgsReady(w, alu, f, ops, args, params, i + 1, 0)
  {
    hide Represents;
    forall h: Hw, l: Log | Represents(f, h, l)
      ensures ArgsHold(RunOps(w, alu, h, ops), l, args, params, i + 1, 0)
    {
      assert ArgsHold(RunOps(w, alu, h, ops), l, args, params, i, 0);
    }
  }

  lemma ArgWasReady(w: Surroundings, alu: (nat, int, int) -> int, f: Flags, ops: seq<Op>, args: seq<Place>,
      params: seq<ArgPlace>, i: nat)
    requires ArgsReady(w, alu, f, ops, args, params, |args|, i) && i < |args| && args[i].InFrame? && params[i].OnStack?
    ensures ArgsReady(w, alu, f, ops, args, params, |args|, i + 1)
  {
    hide Represents;
    forall h: Hw, l: Log | Represents(f, h, l)
      ensures ArgsHold(RunOps(w, alu, h, ops), l, args, params, |args|, i + 1)
    {
      assert ArgsHold(RunOps(w, alu, h, ops), l, args, params, |args|, i);
    }
  }

  lemma ArgReady(w: Surroundings, alu: (nat, int, int) -> int, f: Flags, ops: seq<Op>, args: seq<Place>,
      params: seq<ArgPlace>, i: nat)
    requires AllInvalid(f) && CallOk(f.used, f.calls, args, params, None) && i < |args| &&
        !(args[i].InFrame? && params[i].OnStack?)
    requires ArgsReady(w, alu, f, ops, args, params, |args|, i)
    ensures ArgsReady(w, alu, f, ops + ArgCode(args[i], params[i]), args, params, |args|, i + 1)
  {
    hide Represents, ArgCode;
    var more := ArgCode(args[i], params[i]);
    forall h: Hw, l: Log | Represents(f, h, l)
      ensures Represents(f, RunOps(w, alu, h, ops + more), l) &&
          ArgsHold(RunOps(w, alu, h, ops + more), l, args, params, |args|, i + 1)
    {
      var h1 := RunOps(w, alu, h, ops);
      RunAppend(w, alu, h, ops, more);
      OneArg(w, alu, f, h1, l, args, params, i);
    }
  }

  lemma OneArg(w: Surroundings, alu: (nat, int, int) -> int, f: Flags, h: Hw, l: Log, args: seq<Place>,
      params: seq<ArgPlace>, i: nat)
    requires AllInvalid(f) && CallOk(f.used, f.calls, args, params, None) && i < |args| &&
        !(args[i].InFrame? && params[i].OnStack?)
    requires Represents(f, h, l) && ArgsHold(h, l, args, params, |args|, i)
    ensures var h' := RunOps(w, alu, h, ArgCode(args[i], params[i]));
      Represents(f, h', l) && ArgsHold(h', l, args, params, |args|, i + 1)
  {
    hide Represents, ArgsHold, RunOps, AllInvalid;
    var src, para, v := args[i], params[i], Read(l, args[i]);
    var ops := ArgCode(src, para);
    SavedValue(f, h, l, src);
    if para.InReg? {
      SetArg(f, h, l, para, v, args, params, |args|, i, i);
      assert |ops| == 1;
      RunTwo(w, alu, h, ops[0], ops[0]);
    } else if src.InRegister? && !(A0 <= src.reg < A0 + 8) {
      SetArg(f, h, l, para, v, args, params, |args|, i, i);
      RunTwo(w, alu, h, ops[0], ops[0]);
    } else {
      SetScratch(f, h, l, T0, v);
      ScratchKeepsArgs(h, l, args, params, |args|, i, v);
      SetArg(f, SetReg(h, T0, v), l, para, v, args, params, |args|, i, i);
      RunTwo(w, alu, h, ops[0], ops[1]);
      RepresentsFacts(f, h, l);
    }
  }

  /** Where the value of an argument is when all argument registers are saved. */
  lemma SavedValue(f: Flags, h: Hw, l: Log, p: Place)
    requires Represents(f, h, l) && AllInvalid(f) && VarPlace(f.used, f.calls, p)
    ensures match p
      case Imm(_) => true
      case InFrame(a) => Cell(h.frame, a) == Read(l, p)
      case InRegister(r) => if A0 <= r < A0 + 8 then Cell(h.save, r - A0) == Read(l, p) else
        Reg(h, r) == Read(l, p) &&
        r != 0
  {
    if p.InRegister? && A0 <= p.reg < A0 + 8 {
      assert ARegHeld(f, h, l, p.reg - A0);
    }
  }

  /** The call and its result. */
  lemma CallDone(w: Surroundings, alu: (nat, int, int) -> int, f: Flags, h: Hw, l: Log, argOps: seq<Op>, callee: Name,
      args: seq<Place>, params: seq<ArgPlace>, target: Option<Place>, resultOps: seq<Op>)
    requires Represents(f, h, l) && AllInvalid(f) && CallOk(f.used, f.calls, args, params, target) &&
        ArgsReady(w, alu, f, argOps, args, params, |args|, |args|)
    requires resultOps ==
      if target.None? then [] else if target.value.InFrame? then [StoreVar(A0, target.value.address)]
      else if target.value.reg != A0 then [Mv(target.value.reg, A0)] else []
    ensures var h' := RunOps(w, alu, RunOps(w, alu, h, argOps), [CallFn(callee, params)] + resultOps);
      var f' := if target.None? then f else Marked(f, if target.value.InFrame? then target.value.address
        else target.value.reg);
      Represents(f', h', Step(w, alu, l, Invoke(callee, args, params, target)))
  {
    hide Represents, AllInvalid;
    var h1 := RunOps(w, alu, h, argOps);
    assert Represents(f, h1, l) && ArgsHold(h1, l, args, params, |args|, |args|);
    assert ArgValues(h1, params) == ReadAll(l, args);
    RepresentsFacts(f, h1, l);
    var trace := l.trace + [CallEvent(callee, ReadAll(l, args))];
    var o := w(trace);
    var h2 := DoOp(w, alu, h1, CallFn(callee, params));
    var l2 := Log(if T5 < |l.regs| then l.regs[T5 := o.junk(T5)] else l.regs, l.frame, trace);
    AfterCallRepresents(f, h1, l, o, trace);
    RunTwo(w, alu, h1, CallFn(callee, params), CallFn(callee, params));
    RunAppend(w, alu, h1, [CallFn(callee, params)], resultOps);
    if target.Some? {
      assert Reg(h2, A0) == o.result && |h2.regs| == 32;
      if target.value.InFrame? {
        RunTwo(w, alu, h2, resultOps[0], resultOps[0]);
        SetFrame(f, h2, l2, target.value.address, o.result);
      } else {
        SetVariable(f, h2, l2, target.value.reg, o.result);
        if resultOps != [] {
          RunTwo(w, alu, h2, resultOps[0], resultOps[0]);
        } else {
          assert SetReg(h2, A0, o.result) == h2;
        }
      }
    }
  }

  lemma AfterCallRepresents(f: Flags, h: Hw, l: Log, o: Outcome, trace: seq<CallEvent>)
    requires Represents(f, h, l) && AllInvalid(f)
    ensures Represents(f, h.(regs := AfterCall(h.regs, o), trace := trace),
        Log(if T5 < |l.regs| then l.regs[T5 := o.junk(T5)] else l.regs, l.frame, trace))
  {
    var h', l' := h.(regs := AfterCall(h.regs, o), trace := trace), Log(l.regs[T5 := o.junk(T5)], l.frame, trace);
    forall j | 0 <= j < f.used
      ensures ARegHeld(f, h', l', j)
    {
      assert ARegHeld(f, h, l, j);
    }
  }

  // ---- Longer code ----

  lemma SavesMore(w: Surroundings, alu: (nat, int, int) -> int, f0: Flags, ops: seq<Op>, f: Flags, i: nat)
    requires Emits(w, alu, f0, ops, f) && FlagsOk(f) && f.calls && i < f.used && f.valid[i]
    ensures Emits(w, alu, f0, ops + [SaveReg(A0 + i, i)],
        f.(valid := f.valid[i := false], slotValid := f.slotValid[i := true]))
  {
    hide Represents, DoOp;
    forall h: Hw, l: Log | Represents(f0, h, l)
      ensures Represents(f.(valid := f.valid[i := false], slotValid := f.slotValid[i := true]),
          RunOps(w, alu, h, ops + [SaveReg(A0 + i, i)]), l)
    {
      RunOne(w, alu, h, ops, SaveReg(A0 + i, i));
      SaveOne(w, alu, f, RunOps(w, alu, h, ops), l, i);
    }
  }

  lemma SavesRa(w: Surroundings, alu: (nat, int, int) -> int, f0: Flags, ops: seq<Op>, f: Flags)
    requires Emits(w, alu, f0, ops, f) && !f.raSaved
    ensures Emits(w, alu, f0, ops + [SaveReg(RA, f.used)], f.(raSaved := true, raSlotValid := true))
  {
    hide Represents, DoOp;
    forall h: Hw, l: Log | Represents(f0, h, l)
      ensures Represents(f.(raSaved := true, raSlotValid := true), RunOps(w, alu, h, ops + [SaveReg(RA, f.used)]), l)
    {
      RunOne(w, alu, h, ops, SaveReg(RA, f.used));
      SaveRa(w, alu, f, RunOps(w, alu, h, ops), l);
    }
  }

  lemma RestoresMore(w: Surroundings, alu: (nat, int, int) -> int, f0: Flags, ops: seq<Op>, f: Flags, i: nat)
    requires Emits(w, alu, f0, ops, f) && FlagsOk(f) && i < f.used && !f.valid[i]
    ensures Emits(w, alu, f0, ops + [LoadSaved(A0 + i, i)], f.(valid := f.valid[i := true]))
  {
    hide Represents, DoOp;
    forall h: Hw, l: Log | Represents(f0, h, l)
      ensures Represents(f.(valid := f.valid[i := true]), RunOps(w, alu, h, ops + [LoadSaved(A0 + i, i)]), l)
    {
      RunOne(w, alu, h, ops, LoadSaved(A0 + i, i));
      RestoreOne(w, alu, f, RunOps(w, alu, h, ops), l, i);
    }
  }

  lemma RestoresRa(w: Surroundings, alu: (nat, int, int) -> int, f0: Flags, ops: seq<Op>, f: Flags)
    requires Emits(w, alu, f0, ops, f) && f.raSaved
    ensures Emits(w, alu, f0, ops + [LoadSaved(RA, f.used)], f.(raSaved := false))
  {
    hide Represents, DoOp;
    forall h: Hw, l: Log | Represents(f0, h, l)
      ensures Represents(f.(raSaved := false), RunOps(w, alu, h, ops + [LoadSaved(RA, f.used)]), l)
    {
      RunOne(w, alu, h, ops, LoadSaved(RA, f.used));
      RestoreRa(w, alu, f, RunOps(w, alu, h, ops), l);
    }
  }

  lemma FetchesFrame(w: Surroundings, alu: (nat, int, int) -> int, f: Flags, t: nat, a: nat)
    requires t == T0 || t == T1
    ensures Fetches(w, alu, f, [LoadVar(t, a)], f, t, InFrame(a))
  {
    hide Represents;
    forall h: Hw, l: Log | Represents(f, h, l)
      ensures Represents(f, RunOps(w, alu, h, [LoadVar(t, a)]), l)
      ensures Reg(RunOps(w, alu, h, [LoadVar(t, a)]), t) == Read(l, InFrame(a))
    {
      RunTwo(w, alu, h, LoadVar(t, a), LoadVar(t, a));
      SetScratch(f, h, l, t, Cell(h.frame, a));
      RepresentsFacts(f, h, l);
    }
  }

  lemma FetchesConstant(w: Surroundings, alu: (nat, int, int) -> int, f: Flags, t: nat, v: int)
    requires t == T0 || t == T1
    ensures Fetches(w, alu, f, [Li(t, v)], f, t, Imm(v))
  {
    hide Represents;
    forall h: Hw, l: Log | Represents(f, h, l)
      ensures var h' := RunOps(w, alu, h, [Li(t, v)]); Represents(f, h', l) && Reg(h', t) == v
    {
      RunTwo(w, alu, h, Li(t, v), Li(t, v));
      SetScratch(f, h, l, t, v);
      RepresentsFacts(f, h, l);
    }
  }

  lemma FetchesZero(w: Surroundings, alu: (nat, int, int) -> int, f: Flags)
    ensures Fetches(w, alu, f, [], f, 0, Imm(0))
  {
  }

  lemma FetchesRegister(w: Surroundings, alu: (nat, int, int) -> int, f0: Flags, ops: seq<Op>, f: Flags, r: nat)
    requires Emits(w, alu, f0, ops, f) && FetchedReg(f, r)
    ensures Fetches(w, alu, f0, ops, f, r, InRegister(r))
  {
    hide Represents, Reg, RunOps;
    forall h: Hw, l: Log | Represents(f0, h, l)
      ensures Reg(RunOps(w, alu, h, ops), r) == Read(l, InRegister(r))
    {
      FetchedValue(f, RunOps(w, alu, h, ops), l, r);
    }
  }

  /** Both operands, the instruction and its destination together implement the instruction. */
  lemma ArithmeticComposed(w: Surroundings, alu: (nat, int, int) -> int, f0: Flags, ops1: seq<Op>, f1: Flags, rs1: nat,
      ops2: seq<Op>, f2: Flags, rs2: nat, i: Ins, ops3: seq<Op>, f': Flags)
    requires i.Binary? && Writable(f2.used, f2.calls, i.dst)
    requires Fetches(w, alu, f0, ops1, f1, rs1, i.lhs) && Fetches(w, alu, f1, ops2, f2, rs2, i.rhs)
    requires FlagsOk(f1) && FlagsOk(f2) && f2.used == f1.used && f2.calls == f1.calls && Gentle(ops2)
    requires Stable(f1, rs1, T0, i.lhs) && forall j :: 0 <= j < 8 && f1.valid[j] ==> f2.valid[j]
    requires ops3 == if i.dst.InFrame? then [StoreVar(T2, i.dst.address)] else []
    requires f' == Marked(f2, if i.dst.InFrame? then i.dst.address else i.dst.reg)
    ensures Implements(w, alu, f0,
        ops1 + ops2 + ([Alu(i.op, if i.dst.InFrame? then T2 else i.dst.reg, rs1, rs2)] + ops3), f', i)
  {
    hide Represents, RunOps, FlagsOk, Stable, Gentle, Marked;
    var rest := [Alu(i.op, if i.dst.InFrame? then T2 else i.dst.reg, rs1, rs2)] + ops3;
    forall h: Hw, l: Log | Represents(f0, h, l)
      ensures Represents(f', RunOps(w, alu, h, ops1 + ops2 + rest), Step(w, alu, l, i))
    {
      var h1 := RunOps(w, alu, h, ops1);
      var h2 := RunOps(w, alu, h1, ops2);
      RunAppend(w, alu, h, ops1, ops2);
      RunAppend(w, alu, h, ops1 + ops2, rest);
      StillThere(w, alu, f1, f2, h1, l, ops2, rs1, i.lhs);
      WriteResult(w, alu, f2, h2, l, i.dst, i.op, rs1, rs2, ops3);
    }
  }

  /** Saving, the arguments, the call and its result together implement the call. */
  lemma CallComposed(w: Surroundings, alu: (nat, int, int) -> int, f0: Flags, saveOps: seq<Op>, f: Flags,
      argOps: seq<Op>, callee: Name, args: seq<Place>, params: seq<ArgPlace>, target: Option<Place>, resultOps: seq<Op>,
      f': Flags)
    requires Emits(w, alu, f0, saveOps, f) && AllInvalid(f) && CallOk(f.used, f.calls, args, params, target)
    requires ArgsReady(w, alu, f, argOps, args, params, |args|, |args|)
    requires resultOps ==
      if target.None? then [] else if target.value.InFrame? then [StoreVar(A0, target.value.address)]
      else if target.value.reg != A0 then [Mv(target.value.reg, A0)] else []
    requires f' == if target.None? then f
      else Marked(f, if target.value.InFrame? then target.value.address else target.value.reg)
    ensures Implements(w, alu, f0, saveOps + (argOps + ([CallFn(callee, params)] + resultOps)), f',
        Invoke(callee, args, params, target))
  {
    hide Represents, AllInvalid, ArgsReady, CallOk, Step, RunOps, Marked;
    var rest := [CallFn(callee, params)] + resultOps;
    forall h: Hw, l: Log | Represents(f0, h, l)
      ensures Represents(f', RunOps(w, alu, h, saveOps + (argOps + rest)),
          Step(w, alu, l, Invoke(callee, args, params, target)))
    {
      var h1 := RunOps(w, alu, h, saveOps);
      RunAppend(w, alu, h, saveOps, argOps + rest);
      RunAppend(w, alu, h1, argOps, rest);
      CallDone(w, alu, f, h1, l, argOps, callee, args, params, target, resultOps);
    }
  }

  // ---- Blocks ----

  /** The code of a whole block. */
  ghost predicate BlockCode(w: Surroundings, alu: (nat, int, int) -> int, f: Flags, ops: seq<Op>, f': Flags,
      block: seq<Ins>) {
    forall h: Hw, l: Log :: Represents(f, h, l) ==> Represents(f', RunOps(w, alu, h, ops), Steps(w, alu, l, block))
  }

  lemma OneMoreIns(w: Surroundings, alu: (nat, int, int) -> int, f0: Flags, ops: seq<Op>, f: Flags, more: seq<Op>,
      f': Flags, block: seq<Ins>, i: Ins)
    requires BlockCode(w, alu, f0, ops, f, block) && Implements(w, alu, f, more, f', i)
    ensures BlockCode(w, alu, f0, ops + more, f', block + [i])
  {
    hide Represents, Step;
    forall h: Hw, l: Log | Represents(f0, h, l)
      ensures Represents(f', RunOps(w, alu, h, ops + more), Steps(w, alu, l, block + [i]))
    {
      RunAppend(w, alu, h, ops, more);
      assert (block + [i])[..|block|] == block;
    }
  }

  lemma Flushed(w: Surroundings, alu: (nat, int, int) -> int, f0: Flags, ops: seq<Op>, f: Flags, more: seq<Op>,
      f': Flags, block: seq<Ins>)
    requires BlockCode(w, alu, f0, ops, f, block) && Emits(w, alu, f, more, f')
    ensures BlockCode(w, alu, f0, ops + more, f', block)
  {
    hide Represents, Step;
    forall h: Hw, l: Log | Represents(f0, h, l)
      ensures Represents(f', RunOps(w, alu, h, ops + more), Steps(w, alu, l, block))
    {
      RunAppend(w, alu, h, ops, more);
    }
  }

  // ---- Functions ----

  /** How a block ends. */
  datatype Exit = GoTo(dest: nat) | Choose(cond: Place, onTrue: nat, onFalse: nat) | Ret(value: Option<Place>)

  datatype Unit = Unit(body: seq<Ins>, exit: Exit)

  /** The code of a block and the register that its branch tests. */
  datatype Image = Image(ops: seq<Op>, test: nat)

  datatype LogRun = LogAt(block: nat, log: Log) | LogLeft(result: Option<int>, log: Log)

  datatype HwRun = HwAt(block: nat, hw: Hw) | HwLeft(hw: Hw)

  /** One block of the program with every call saving and restoring everything. */
  function LogStep(w: Surroundings, alu: (nat, int, int) -> int, units: seq<Unit>, c: LogRun): LogRun {
    match c
    case LogLeft(_, _) => c
    case LogAt(b, l) =>
      if b >= |units| then c
      else
        var l' := Steps(w, alu, l, units[b].body);
        match units[b].exit
        case GoTo(d) => LogAt(d, l')
        case Choose(p, t, e) => LogAt(if Read(l', p) != 0 then t else e, l')
        case Ret(v) => LogLeft(if v.Some? then Some(Read(l', v.value)) else None, l')
  }

  /** One block of the generated code. */
  function HwStep(w: Surroundings, alu: (nat, int, int) -> int, units: seq<Unit>, code: seq<Image>, c: HwRun): HwRun {
    match c
    case HwLeft(_) => c
    case HwAt(b, h) =>
      if b >= |units| || b >= |code| then c
      else
        var h' := RunOps(w, alu, h, code[b].ops);
        match units[b].exit
        case GoTo(d) => HwAt(d, h')
        case Choose(_, t, e) => HwAt(if Reg(h', code[b].test) != 0 then t else e, h')
        case Ret(_) => HwLeft(h')
  }

  function LogRuns(w: Surroundings, alu: (nat, int, int) -> int, units: seq<Unit>, l: Log, n: nat): LogRun {
    if n == 0 then LogAt(0, l) else LogStep(w, alu, units, LogRuns(w, alu, units, l, n - 1))
  }

  function HwRuns(w: Surroundings, alu: (nat, int, int) -> int, units: seq<Unit>, code: seq<Image>, h: Hw,
      n: nat): HwRun {
    if n == 0 then HwAt(0, h) else HwStep(w, alu, units, code, HwRuns(w, alu, units, code, h, n - 1))
  }

  predicate ExitOk(used: nat, calls: bool, e: Exit) {
    match e
    case GoTo(_) => true
    case Choose(p, _, _) => VarPlace(used, calls, p)
    case Ret(v) => v.Some? ==> VarPlace(used, calls, v.value)
  }

  predicate UnitOk(used: nat, calls: bool, u: Unit) {
    ExitOk(used, calls, u.exit) && forall k :: 0 <= k < |u.body| ==> InsOk(used, calls, u.body[k])
  }

  /** The flags with which every block starts, up to the slots that are out of use. */
  function Clean(used: nat, calls: bool): Flags {
    Flags(used, calls, seq(8, _ => true), seq(8, _ => false), false, false)
  }

  /** What holds when the function returns: the return address is back, and a0 has the result. */
  ghost predicate Returns(h: Hw, l: Log, v: Option<int>) {
    HwOk(h) && |l.regs| == 32 && h.regs[RA] == l.regs[RA] && h.frame == l.frame && h.trace == l.trace &&
      (v.Some? ==> h.regs[A0] == v.value)
  }

  /** What a block's exit code does from the state that the program has there. */
  ghost predicate Exits(f: Flags, h: Hw, l: Log, test: nat, e: Exit) {
    match e
    case GoTo(_) => Represents(f, h, l)
    case Choose(p, _, _) => Represents(f, h, l) && Reg(h, test) == Read(l, p)
    case Ret(v) => Returns(h, l, if v.Some? then Some(Read(l, v.value)) else None)
  }

  ghost predicate ExitCode(w: Surroundings, alu: (nat, int, int) -> int, f: Flags, ops: seq<Op>, f': Flags, test: nat,
      e: Exit) {
    forall h: Hw, l: Log :: Represents(f, h, l) ==> Exits(f', RunOps(w, alu, h, ops), l, test, e)
  }

  function Concatenated(code: seq<Image>): seq<Op> {
    if code == [] then [] else Concatenated(code[..|code| - 1]) + code[|code| - 1].ops
  }

  ghost predicate UnitCode(w: Surroundings, alu: (nat, int, int) -> int, used: nat, calls: bool, image: Image,
      u: Unit) {
    forall h: Hw, l: Log :: Represents(Clean(used, calls), h, l) ==>
        Exits(Clean(used, calls), RunOps(w, alu, h, image.ops), Steps(w, alu, l, u.body), image.test, u.exit)
  }

  /** When everything is valid, which slots also hold values does not matter. */
  lemma AllValidSame(f: Flags, f': Flags, h: Hw, l: Log)
    requires AllValid(f) && AllValid(f') && f.used == f'.used && f.calls == f'.calls && Represents(f, h, l)
    ensures Represents(f', h, l)
  {
    forall j | 0 <= j < f.used
      ensures ARegHeld(f', h, l, j)
    {
      assert ARegHeld(f, h, l, j);
    }
  }

  /** The code that brings the result into a0. */
  function ResultCode(p: Place): seq<Op> {
    match p
    case InFrame(a) => [LoadVar(A0, a)]
    case Imm(v) => [Li(A0, v)]
    case InRegister(r) => if r != A0 then [Mv(A0, r)] else []
  }

  lemma ResultInA0(w: Surroundings, alu: (nat, int, int) -> int, f0: Flags, fetch: seq<Op>, f: Flags, p: Place)
    requires Emits(w, alu, f0, fetch, f) && AllValid(f) && VarPlace(f.used, f.calls, p)
    ensures ExitCode(w, alu, f0, fetch + ResultCode(p), f, 0, Ret(Some(p)))
  {
    forall h: Hw, l: Log | Represents(f0, h, l)
      ensures Returns(RunOps(w, alu, h, fetch + ResultCode(p)), l, Some(Read(l, p)))
    {
      var h1 := RunOps(w, alu, h, fetch);
      RunAppend(w, alu, h, fetch, ResultCode(p));
      if p.InRegister? {
        FetchedValue(f, h1, l, p.reg);
      }
      if ResultCode(p) != [] {
        RunTwo(w, alu, h1, ResultCode(p)[0], ResultCode(p)[0]);
      }
    }
  }

  lemma UnitDone(w: Surroundings, alu: (nat, int, int) -> int, f0: Flags, ops: seq<Op>, f: Flags, more: seq<Op>,
      f': Flags, test: nat, u: Unit)
    requires BlockCode(w, alu, f0, ops, f, u.body) && ExitCode(w, alu, f, more, f', test, u.exit)
    requires AllValid(f0) && AllValid(f') && f0.used == f'.used <= 8 && f0.calls == f'.calls
    ensures UnitCode(w, alu, f0.used, f0.calls, Image(ops + more, test), u)
  {
    var clean := Clean(f0.used, f0.calls);
    assert AllValid(clean);
    hide Represents, AllValid;
    forall h: Hw, l: Log | Represents(clean, h, l)
      ensures Exits(clean, RunOps(w, alu, h, ops + more), Steps(w, alu, l, u.body), test, u.exit)
    {
      AllValidSame(clean, f0, h, l);
      RunAppend(w, alu, h, ops, more);
      var h', l' := RunOps(w, alu, h, ops + more), Steps(w, alu, l, u.body);
      assert Exits(f', h', l', test, u.exit);
      if !u.exit.Ret? {
        AllValidSame(f', clean, h', l');
      }
    }
  }

  /** No instruction of the program touches the return address. */
  lemma {:induction false} StepsKeepRa(w: Surroundings, alu: (nat, int, int) -> int, used: nat, calls: bool, l: Log,
      block: seq<Ins>)
    requires |l.regs| == 32 && used <= 8 && forall k :: 0 <= k < |block| ==> InsOk(used, calls, block[k])
    ensures |Steps(w, alu, l, block).regs| == 32 && Steps(w, alu, l, block).regs[RA] == l.regs[RA]
    decreases |block|
  {
    if block != [] {
      StepsKeepRa(w, alu, used, calls, l, block[..|block| - 1]);
      assert InsOk(used, calls, block[|block| - 1]);
    }
  }

  /** The generated code against the program: the same block, the same values, and at the end the return address and
   * the result. */
  ghost predicate SameRuns(used: nat, calls: bool, ra: int, c: LogRun, d: HwRun) {
    match (c, d)
    case (LogAt(b, l), HwAt(b', h)) => b == b' && Represents(Clean(used, calls), h, l) && l.regs[RA] == ra
    case (LogLeft(v, l), HwLeft(h)) => Returns(h, l, v) && h.regs[RA] == ra
    case _ => false
  }

  /** The main result: over whole runs, saving lazily is saving and restoring everything around each call. */
  lemma {:induction false} LazySavingKeepsRuns(w: Surroundings, alu: (nat, int, int) -> int, used: nat, calls: bool,
      units: seq<Unit>, code: seq<Image>, h: Hw, l: Log, n: nat)
    requires used <= 8 && |code| == |units| && forall b :: 0 <= b < |units| ==>
        UnitOk(used, calls, units[b]) &&
        UnitCode(w, alu, used, calls, code[b], units[b])
    requires Represents(Clean(used, calls), h, l)
    ensures SameRuns(used, calls, h.regs[RA], LogRuns(w, alu, units, l, n), HwRuns(w, alu, units, code, h, n))
  {
    hide UnitCode, InsOk, RunOps, Steps;
    if n > 0 {
      LazySavingKeepsRuns(w, alu, used, calls, units, code, h, l, n - 1);
      var c, d := LogRuns(w, alu, units, l, n - 1), HwRuns(w, alu, units, code, h, n - 1);
      if c.LogAt? && c.block < |units| {
        UnitRuns(w, alu, used, calls, code[c.block], units[c.block], d.hw, c.log);
      }
    }
  }

  lemma UnitRuns(w: Surroundings, alu: (nat, int, int) -> int, used: nat, calls: bool, image: Image, u: Unit, h: Hw,
      l: Log)
    requires used <= 8 && UnitOk(used, calls, u) && UnitCode(w, alu, used, calls, image, u) &&
        Represents(Clean(used, calls), h, l)
    ensures Exits(Clean(used, calls), RunOps(w, alu, h, image.ops), Steps(w, alu, l, u.body), image.test, u.exit)
    ensures |Steps(w, alu, l, u.body).regs| == 32 && Steps(w, alu, l, u.body).regs[RA] == l.regs[RA]
  {
    hide InsOk, RunOps, Steps, Exits;
    StepsKeepRa(w, alu, used, calls, l, u.body);
  }

  // ---- The generator ----

  // ---- Exactly what is stored and reloaded ----

  /** The stores of those of the first `n` argument registers whose value is in the hardware. */
  function Saves(f: Flags, n: nat): seq<Op>
    requires n <= 8 == |f.valid|
  {
    if n == 0 then [] else Saves(f, n - 1) + if f.valid[n - 1] then [SaveReg(A0 + (n - 1), n - 1)] else []
  }

  /** No argument register but that of a result has its value in the hardware. */
  predicate OnlyResultValid(f: Flags, target: Option<Place>) {
    |f.valid| == 8 && forall i :: 0 <= i < f.used && i < 8 && f.valid[i] ==>
      match target
      case Some(InFrame(a)) => a == A0 + i
      case Some(InRegister(r)) => r == A0 + i
      case _ => false
  }

  lemma ResultOnly(f: Flags, target: Option<Place>)
    requires AllInvalid(f) && (target.Some? ==> !target.value.Imm?)
    ensures target.None? ==> OnlyResultValid(f, target)
    ensures target.Some? ==>
      OnlyResultValid(Marked(f, if target.value.InFrame? then target.value.address else target.value.reg), target)
  {
  }

  /** The reloads of those whose value is not. */
  function Reloads(f: Flags, n: nat): seq<Op>
    requires n <= 8 == |f.valid|
  {
    if n == 0 then [] else Reloads(f, n - 1) + if f.valid[n - 1] then [] else [LoadSaved(A0 + (n - 1), n - 1)]
  }

  lemma {:induction false} NothingToReload(f: Flags, n: nat)
    requires n <= 8 == |f.valid| && forall j :: 0 <= j < n ==> f.valid[j]
    ensures Reloads(f, n) == []
  {
    if n > 0 {
      NothingToReload(f, n - 1);
    }
  }

  class AssemblyGenerator {
    const used: nat
    const calls: bool
    ghost const w: Surroundings
    ghost const alu: (nat, int, int) -> int
    var aRegValid: seq<bool>
    var aSlotValid: seq<bool>
    var raSaved: bool
    var raSlotValid: bool
    var os: seq<Op>

    constructor (used: nat, calls: bool, ghost w: Surroundings, ghost alu: (nat, int, int) -> int)
      requires used <= 8
      ensures this.used == used && this.calls == calls && this.w == w && this.alu == alu && os == [] && FlagsOk(F()) &&
          AllValid(F())
    {
      this.used, this.calls, this.w, this.alu := used, calls, w, alu;
      aRegValid, aSlotValid := seq(8, _ => true), seq(8, _ => false);
      raSaved, raSlotValid, os := false, false, [];
    }

    ghost function F(): Flags
      reads this
    {
      Flags(used, calls, aRegValid, aSlotValid, raSaved, raSlotValid)
    }

    /** Save every valid argument register. */
    method SaveArguments() returns (ghost ops: seq<Op>)
      requires calls && FlagsOk(F())
      modifies `os, `aRegValid, `aSlotValid
      ensures FlagsOk(F()) && os == old(os) + ops && Emits(w, alu, old(F()), ops, F())
      ensures (forall j :: 0 <= j < used ==> !aRegValid[j]) && ops == Saves(old(F()), used)
    {
      hide Emits;
      ghost var f0 := F();
      ops := [];
      NothingEmitted(w, alu, f0);
      for i := 0 to used
        invariant FlagsOk(F()) && os == old(os) + ops && Emits(w, alu, f0, ops, F())
        invariant ops == Saves(f0, i) && forall j :: i <= j < 8 ==> aRegValid[j] == f0.valid[j]
        invariant forall j :: 0 <= j < i ==> !aRegValid[j]
      {
        if aRegValid[i] {
          SavesMore(w, alu, f0, ops, F(), i);
          os := os + [SaveReg(A0 + i, i)];
          ops := ops + [SaveReg(A0 + i, i)];
          aRegValid := aRegValid[i := false];
          aSlotValid := aSlotValid[i := true];
        }
      }
    }

    /** Save every valid argument register, and ra if it is not saved yet. */
    method SaveRegister() returns (ghost ops: seq<Op>)
      requires calls && FlagsOk(F())
      modifies this
      ensures os == old(os) + ops && AllInvalid(F()) && Emits(w, alu, old(F()), ops, F())
      // Only what is in the hardware is stored, and ra once.
      ensures ops == Saves(old(F()), used) + if old(raSaved) then [] else [SaveReg(RA, used)]
    {
      hide Emits, Saves;
      ghost var f0 := F();
      ops := SaveArguments();
      if !raSaved {
        SavesRa(w, alu, f0, ops, F());
        os := os + [SaveReg(RA, used)];
        ops := ops + [SaveReg(RA, used)];
        raSaved := true;
        raSlotValid := true;
      }
    }

    /** Bring an argument register back before it is read. */
    method EnsureARegValid(addr: nat) returns (ghost ops: seq<Op>)
      requires FlagsOk(F()) && A0 <= addr < A0 + used
      modifies this
      ensures os == old(os) + ops && FlagsOk(F()) && Emits(w, alu, old(F()), ops, F())
      ensures aRegValid == old(aRegValid)[addr - A0 := true] && raSaved == old(raSaved) &&
          aSlotValid == old(aSlotValid) && raSlotValid == old(raSlotValid)
      ensures Gentle(ops) && ops == if old(aRegValid)[addr - A0] then [] else [LoadSaved(addr, addr - A0)]
    {
      hide Emits;
      ghost var f0 := F();
      var idx := addr - A0;
      ops := [];
      NothingEmitted(w, alu, f0);
      if !aRegValid[idx] {
        RestoresMore(w, alu, f0, [], f0, idx);
        assert [] + [LoadSaved(addr, idx)] == [LoadSaved(addr, idx)];
        os := os + [LoadSaved(addr, idx)];
        ops := [LoadSaved(addr, idx)];
        aRegValid := aRegValid[idx := true];
      }
    }

    /** The register with the value of an operand; constants and frame variables go to scratch register `t`. */
    method VariableToReg(p: Place, t: nat) returns (rs: nat, ghost ops: seq<Op>)
      requires FlagsOk(F()) && VarPlace(used, calls, p) && (t == T0 || t == T1)
      modifies this
      ensures os == old(os) + ops && FlagsOk(F()) && Fetches(w, alu, old(F()), ops, F(), rs, p)
      ensures raSaved == old(raSaved) && Stable(F(), rs, t, p) && (t == T1 ==> Gentle(ops)) && forall i ::
          0 <= i < 8 && old(aRegValid)[i] ==> aRegValid[i]
    {
      hide Fetches, Emits;
      ghost var f0 := F();
      ops := [];
      NothingEmitted(w, alu, f0);
      match p {
        case InFrame(a) =>
          os := os + [LoadVar(t, a)];
          ops := [LoadVar(t, a)];
          rs := t;
          FetchesFrame(w, alu, f0, t, a);
        case Imm(v) =>
          if v == 0 {
            rs := 0;
            FetchesZero(w, alu, f0);
          } else {
            FetchesConstant(w, alu, f0, t, v);
            os := os + [Li(t, v)];
            ops := [Li(t, v)];
            rs := t;
          }
        case InRegister(r) =>
          if A0 <= r <= A0 + 7 {
            ops := EnsureARegValid(r);
          }
          rs := r;
          FetchesRegister(w, alu, f0, ops, F(), r);
      }
    }

    /** Record a result that is in register `reg`. */
    method RegToVariable(dst: Place, reg: nat) returns (ghost ops: seq<Op>)
      requires FlagsOk(F()) && Writable(used, calls, dst)
      modifies this
      ensures os == old(os) + ops && FlagsOk(F())
      ensures ops == (if dst.InFrame? then [StoreVar(reg, dst.address)] else if dst.reg != reg then [Mv(dst.reg, reg)]
          else [])
      ensures F() == Marked(old(F()), if dst.InFrame? then dst.address else dst.reg)
    {
      ops := [];
      if dst.InFrame? {
        os := os + [StoreVar(reg, dst.address)];
        ops := [StoreVar(reg, dst.address)];
      } else if dst.reg != reg {
        os := os + [Mv(dst.reg, reg)];
        ops := [Mv(dst.reg, reg)];
      }
      var address := if dst.InFrame? then dst.address else dst.reg;
      if A0 <= address <= A0 + 7 {
        aRegValid := aRegValid[address - A0 := true];
      }
    }

    method VisitArithmetic(op: nat, dst: Place, lhs: Place, rhs: Place) returns (ghost ops: seq<Op>)
      requires FlagsOk(F()) && Writable(used, calls, dst) && VarPlace(used, calls, lhs) && VarPlace(used, calls, rhs)
      modifies this
      ensures os == old(os) + ops && FlagsOk(F()) && Implements(w, alu, old(F()), ops, F(), Binary(op, dst, lhs, rhs))
    {
      hide Implements, Fetches, Stable, Gentle;
      ghost var f0 := F();
      var rs1, rs2;
      ghost var ops1, ops2, ops3;
      rs1, ops1 := VariableToReg(lhs, T0);
      ghost var f1 := F();
      rs2, ops2 := VariableToReg(rhs, T1);
      ghost var f2 := F();
      var rd := if dst.InFrame? then T2 else dst.reg;
      os := os + [Alu(op, rd, rs1, rs2)];
      ops3 := RegToVariable(dst, rd);
      ops := ops1 + ops2 + ([Alu(op, rd, rs1, rs2)] + ops3);
      ArithmeticComposed(w, alu, f0, ops1, f1, rs1, ops2, f2, rs2, Binary(op, dst, lhs, rhs), ops3, F());
    }

    /** Bring a source back if it is an argument register. */
    method FetchSource(src: Place) returns (ghost ops: seq<Op>)
      requires FlagsOk(F()) && VarPlace(used, calls, src)
      modifies this
      ensures os == old(os) + ops && FlagsOk(F()) && Emits(w, alu, old(F()), ops, F())
      ensures src.InRegister? ==> FetchedReg(F(), src.reg)
      ensures old(AllValid(F())) ==> AllValid(F())
    {
      hide Emits;
      ops := [];
      NothingEmitted(w, alu, F());
      if src.InRegister? && A0 <= src.reg <= A0 + 7 {
        ops := EnsureARegValid(src.reg);
      }
    }

    /** A scalar move. */
    method DataMove(dst: Place, src: Place) returns (ghost ops: seq<Op>)
      requires FlagsOk(F()) && Writable(used, calls, dst) && VarPlace(used, calls, src)
      modifies this
      ensures os == old(os) + ops && FlagsOk(F()) && Implements(w, alu, old(F()), ops, F(), Transfer(dst, src))
    {
      hide MoveCode, Emits, Implements, FetchedReg;
      ghost var f0 := F();
      ghost var fetch := FetchSource(src);
      ghost var f1 := F();
      var rest := MoveCode(dst, src);
      os := os + rest;
      if dst.InRegister? && A0 <= dst.reg <= A0 + 7 {
        aRegValid := aRegValid[dst.reg - A0 := true];
      }
      ops := fetch + rest;
      Moved(w, alu, f0, fetch, f1, dst, src, F());
    }

    /** Arguments to their places, when everything has been saved. */
    method PassArguments(args: seq<Place>, params: seq<ArgPlace>, ghost target: Option<Place>)
        returns (ghost argOps: seq<Op>)
      requires AllInvalid(F()) && CallOk(used, calls, args, params, target)
      modifies `os
      ensures os == old(os) + argOps && ArgsReady(w, alu, F(), argOps, args, params, |args|, |args|)
    {
      hide AllInvalid, ArgsReady, ArgCode;
      ghost var f1 := F();
      argOps := [];
      AllInvalidFacts(f1);
      NoArgsYet(w, alu, f1, args, params);
      // Arguments that move from the frame to the outgoing area come first.
      for i := 0 to |args|
        invariant os == old(os) + argOps && F() == f1 && ArgsReady(w, alu, f1, argOps, args, params, i, 0)
      {
        if args[i].InFrame? && params[i].OnStack? {
          ghost var more := [LoadVar(T0, args[i].address), StoreArg(T0, params[i].offset)];
          os := os + [LoadVar(T0, args[i].address), StoreArg(T0, params[i].offset)];
          FrameArgReady(w, alu, f1, argOps, args, params, i);
          argOps := argOps + [LoadVar(T0, args[i].address), StoreArg(T0, params[i].offset)];
        } else {
          SkipArg(w, alu, f1, argOps, args, params, i);
        }
      }
      for i := 0 to |args|
        invariant os == old(os) + argOps && F() == f1 &&
            ArgsReady(w, alu, f1, argOps, args, params, |args|, i)
      {
        if !(args[i].InFrame? && params[i].OnStack?) {
          var more := ArgCode(args[i], params[i]);
          os := os + more;
          ArgReady(w, alu, f1, argOps, args, params, i);
          argOps := argOps + more;
        } else {
          ArgWasReady(w, alu, f1, argOps, args, params, i);
        }
      }
    }

    /** Arguments to their places, the call, and the result. */
    method VisitCall(callee: Name, args: seq<Place>, params: seq<ArgPlace>, target: Option<Place>)
        returns (ghost ops: seq<Op>)
      requires FlagsOk(F()) && CallOk(used, calls, args, params, target)
      modifies this
      ensures os == old(os) + ops && FlagsOk(F()) &&
          Implements(w, alu, old(F()), ops, F(), Invoke(callee, args, params, target))
      // After the call nothing has been reloaded; only the result may be in an argument register.
      ensures OnlyResultValid(F(), target)
    {
      hide OnlyResultValid, Emits, Implements, AllInvalid, ArgsReady, ArgCode, Marked;
      ghost var f0 := F();
      ghost var saveOps := SaveRegister();
      ghost var f1 := F();
      AllInvalidFacts(f1);
      ghost var argOps := PassArguments(args, params, target);
      os := os + [CallFn(callee, params)];
      ghost var resultOps: seq<Op> := [];
      if target.Some? {
        resultOps := RegToVariable(target.value, A0);
      }
      assert OnlyResultValid(F(), target) by {
        ResultOnly(f1, target);
      }
      ops := saveOps + (argOps + ([CallFn(callee, params)] + resultOps));
      CallComposed(w, alu, f0, saveOps, f1, argOps, callee, args, params, target, resultOps, F());
    }

    method VisitIns(i: Ins) returns (ghost ops: seq<Op>)
      requires FlagsOk(F()) && InsOk(used, calls, i)
      modifies this
      ensures os == old(os) + ops && FlagsOk(F()) && Implements(w, alu, old(F()), ops, F(), i)
    {
      match i {
        case Binary(op, d, a, b) => ops := VisitArithmetic(op, d, a, b);
        case Transfer(d, a) => ops := DataMove(d, a);
        case Invoke(f, args, params, target) => ops := VisitCall(f, args, params, target);
      }
    }

    /** A block: its instructions, then the flush of its terminator. */
    method VisitBlock(block: seq<Ins>) returns (ghost ops: seq<Op>)
      requires AllValid(F()) && forall k :: 0 <= k < |block| ==> InsOk(used, calls, block[k])
      modifies this
      ensures os == old(os) + ops && AllValid(F()) && BlockCode(w, alu, old(F()), ops, F(), block)
    {
      hide Represents, Implements, Emits;
      ghost var f0 := F();
      ops := [];
      for k := 0 to |block|
        invariant FlagsOk(F()) && os == old(os) + ops && BlockCode(w, alu, f0, ops, F(), block[..k])
      {
        ghost var f, before := F(), ops;
        ghost var more := VisitIns(block[k]);
        ops := before + more;
        assert block[..k + 1][..k] == block[..k];
        OneMoreIns(w, alu, f0, before, f, more, F(), block[..k], block[k]);
        assert block[..k + 1] == block[..k] + [block[k]];
      }
      assert block[..|block|] == block;
      ghost var f, before := F(), ops;
      ghost var more := FlushSavedRegisters();
      ops := before + more;
      Flushed(w, alu, f0, before, f, more, F(), block);
    }

    /** The value of `p` in a0. */
    method VariableForceToA0(p: Place) returns (ghost ops: seq<Op>)
      requires AllValid(F()) && VarPlace(used, calls, p)
      modifies this
      ensures os == old(os) + ops && AllValid(F()) && ExitCode(w, alu, old(F()), ops, F(), 0, Ret(Some(p)))
    {
      hide Represents, Emits, ExitCode;
      ghost var f0 := F();
      ghost var fetch := FetchSource(p);
      var rest := ResultCode(p);
      os := os + rest;
      ops := fetch + rest;
      ResultInA0(w, alu, f0, fetch, F(), p);
    }

    /** The code that leaves a block after the flush. */
    method VisitExit(e: Exit) returns (test: nat, ghost ops: seq<Op>)
      requires AllValid(F()) && ExitOk(used, calls, e)
      modifies this
      ensures os == old(os) + ops && AllValid(F()) && ExitCode(w, alu, old(F()), ops, F(), test, e)
    {
      test, ops := 0, [];
      match e {
        case GoTo(_) =>
        case Choose(p, _, _) => test, ops := VariableToReg(p, T0);
        case Ret(None) =>
        case Ret(Some(p)) => ops := VariableForceToA0(p);
      }
    }

    /** Every block of the function in turn. */
    method VisitFunction(units: seq<Unit>) returns (code: seq<Image>)
      requires os == [] && AllValid(F()) && forall b :: 0 <= b < |units| ==> UnitOk(used, calls, units[b])
      modifies this
      ensures |code| == |units| && os == Concatenated(code)
      ensures forall b :: 0 <= b < |units| ==> UnitCode(w, alu, used, calls, code[b], units[b])
    {
      hide Represents, UnitCode, BlockCode, ExitCode;
      code := [];
      for b := 0 to |units|
        invariant AllValid(F()) && |code| == b && os == Concatenated(code)
        invariant forall k :: 0 <= k < b ==> UnitCode(w, alu, used, calls, code[k], units[k])
      {
        ghost var f0 := F();
        var before := |os|;
        ghost var ops := VisitBlock(units[b].body);
        ghost var f := F();
        var test;
        ghost var more;
        test, more := VisitExit(units[b].exit);
        UnitDone(w, alu, f0, ops, f, more, F(), test, units[b]);
        assert os[before..] == ops + more;
        code := code + [Image(os[before..], test)];
        assert code[..b] == code[..|code| - 1];
      }
    }

    /** Bring back every argument register that has been saved. */
    method RestoreRegisters() returns (ghost ops: seq<Op>)
      requires FlagsOk(F())
      modifies this
      ensures os == old(os) + ops && FlagsOk(F()) && Emits(w, alu, old(F()), ops, F())
      ensures raSaved == old(raSaved) && forall j :: 0 <= j < used ==> aRegValid[j]
      ensures ops == Reloads(old(F()), used)
    {
      hide Emits;
      ghost var f0 := F();
      ops := [];
      NothingEmitted(w, alu, f0);
      for i := 0 to used
        invariant FlagsOk(F()) && os == old(os) + ops && Emits(w, alu, f0, ops, F())
        invariant raSaved == old(raSaved) && forall j :: 0 <= j < i ==> aRegValid[j]
        invariant ops == Reloads(f0, i) && aSlotValid == f0.slotValid && forall j :: i <= j < 8 ==>
            aRegValid[j] == f0.valid[j]
      {
        if !aRegValid[i] && aSlotValid[i] {
          RestoresMore(w, alu, f0, ops, F(), i);
          os := os + [LoadSaved(A0 + i, i)];
          ops := ops + [LoadSaved(A0 + i, i)];
          aRegValid := aRegValid[i := true];
        }
      }
    }

    /** Leaving a block: everything goes back to the hardware registers. */
    method FlushSavedRegisters() returns (ghost ops: seq<Op>)
      requires FlagsOk(F())
      modifies this
      ensures os == old(os) + ops && AllValid(F()) && Emits(w, alu, old(F()), ops, F())
      // Only what is not in the hardware is reloaded.
      ensures ops == Reloads(old(F()), used) + if old(raSaved) then [LoadSaved(RA, used)] else []
    {
      hide Emits;
      ghost var f0 := F();
      ops := [];
      NothingEmitted(w, alu, f0);
      var anyInvalid := false;
      for i := 0 to used
        invariant !anyInvalid ==> forall j :: 0 <= j < i ==> aRegValid[j]
      {
        if !aRegValid[i] {
          anyInvalid := true;
          break;
        }
      }
      if !anyInvalid && !raSaved {
        NothingToReload(f0, used);
        return;
      }
      ops := RestoreRegisters();
      if raSaved && raSlotValid {
        RestoresRa(w, alu, f0, ops, F());
        os := os + [LoadSaved(RA, used)];
        ops := ops + [LoadSaved(RA, used)];
        raSaved := false;
      }
    }
  }
}
