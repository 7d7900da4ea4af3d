/** Calls that run the callee, and why a call may be replaced by a copy of the callee's code. */
module Inlining {
  import opened IR
  import opened SsaForms

  // ---- Programs and their runs ----

  datatype Fn = Fn(name: Name, params: seq<Name>, builtin: bool, code: Func)

  type Program = seq<Fn>

  /** The private slots of each function: allocas only loaded from and stored to. */
  type Slots = seq<set<Name>>

  function Query(p: Program, name: Name, k: nat): (r: Option<nat>)
    ensures r.Some? ==> r.value < |p| && p[r.value].name == name
    decreases |p| - k
  {
    if k >= |p| then None else if p[k].name == name then Some(k) else Query(p, name, k + 1)
  }

  /** The function that a call runs; builtin functions belong to the surroundings. */
  function Callee(p: Program, i: Instr): (r: Option<nat>)
    ensures r.Some? ==> i.Effect? && i.effect.Call? && r.value < |p| && !p[r.value].builtin
  {
    match i
    case Effect(_, Call(f), _) =>
      (match Query(p, f, 0)
       case Some(k) => if p[k].builtin then None else Some(k)
       case None => None)
    case _ => None
  }

  /** The instructions that do something: private slots are cells, and their allocas do nothing. */
  function Kept(body: seq<Instr>, slots: set<Name>): seq<Instr> {
    if body == [] then []
    else (if AccessOf(body[0], slots).AllocaOf? then [] else [SlotInstr(body[0], slots)]) + Kept(body[1..], slots)
  }

  /** An activation: what is left of its block, and its variables. A waiting one has its call first. */
  datatype Frame = Frame(fn: nat, block: nat, rest: seq<Instr>, env: Env)

  datatype Machine = Running(frames: seq<Frame>, history: seq<Event>) | Done(result: Option<Int32>,
    history: seq<Event>) | Wrong

  function Bind(params: seq<Name>, vs: seq<Int32>): Env
    requires |params| == |vs|
  {
    if params == [] then map[] else Bind(params[..|params| - 1], vs[..|vs| - 1])[params[|params| - 1] := vs[|vs| - 1]]
  }

  function Enter(p: Program, s: Slots, k: nat, b: nat, env: Env): Frame
    requires k < |p| == |s| && b < |p[k].code|
  {
    Frame(k, b, Kept(p[k].code[b].body, s[k]), env)
  }

  predicate FrameOk(p: Program, s: Slots, fr: Frame) {
    fr.fn < |p| == |s| && fr.block < |p[fr.fn].code|
  }

  /** The function `k` is called with the values `vs`. */
  function Invoke(p: Program, s: Slots, fs: seq<Frame>, k: nat, vs: seq<Int32>, h: seq<Event>): Machine
    requires k < |p| == |s|
  {
    if |vs| != |p[k].params| || p[k].code == [] then Wrong
    else Running(fs + [Enter(p, s, k, 0, Bind(p[k].params, vs))], h)
  }

  /** The waiting frame `fr` on top of `fs` receives the result. */
  function Resume(fs: seq<Frame>, fr: Frame, r: Option<Int32>, h: seq<Event>): Machine {
    if fr.rest == [] || !fr.rest[0].Effect? then Wrong
    else match fr.rest[0].target
      case None => Running(fs + [fr.(rest := fr.rest[1..])], h)
      case Some(t) => if r.None? then Wrong else Running(fs + [fr.(rest := fr.rest[1..], env := fr.env[t := r.value])],
        h)
  }

  /** One step of the top frame `fr`, with the frames `fs` below it. */
  function StepTop(w: World, p: Program, s: Slots, fs: seq<Frame>, fr: Frame, h: seq<Event>): Machine
    requires FrameOk(p, s, fr)
  {
    if fr.rest != [] then
      match Callee(p, fr.rest[0])
      case Some(k) =>
        (match LookupAll(fr.env, fr.rest[0].args)
         case None => Wrong
         case Some(vs) => Invoke(p, s, fs + [fr], k, vs, h))
      case None =>
        (match Exec(w, fr.rest[0], State(fr.env, h))
         case None => Wrong
         case Some(t) => Running(fs + [fr.(rest := fr.rest[1..], env := t.env)], t.history))
    else
      match Follow(p[fr.fn].code[fr.block].term, fr.env)
      case Undefined => Wrong
      case Goto(v) => if v < |p[fr.fn].code| then Running(fs + [Enter(p, s, fr.fn, v, fr.env)], h) else Wrong
      case Leave(r) => if fs == [] then Done(r, h) else Resume(fs[..|fs| - 1], fs[|fs| - 1], r, h)
  }

  function StepMachine(w: World, p: Program, s: Slots, m: Machine): Machine {
    match m
    case Running(fs, h) => if fs == [] || !FrameOk(p, s, fs[|fs| - 1]) then Wrong
      else StepTop(w, p, s, fs[..|fs| - 1], fs[|fs| - 1], h)
    case _ => m
  }

  function RunMachine(w: World, p: Program, s: Slots, m: Machine, n: nat): Machine {
    if n == 0 then m else StepMachine(w, p, s, RunMachine(w, p, s, m, n - 1))
  }

  /** Function `k` is started from outside. */
  function StartMachine(p: Program, s: Slots, k: nat, vs: seq<Int32>): Machine {
    if k < |p| && |s| == |p| then Invoke(p, s, [], k, vs, []) else Wrong
  }

  lemma {:induction false} RunMore(w: World, p: Program, s: Slots, m: Machine, a: nat, b: nat)
    ensures RunMachine(w, p, s, RunMachine(w, p, s, m, a), b) == RunMachine(w, p, s, m, a + b)
  {
    hide StepMachine;
    if b > 0 {
      RunMore(w, p, s, m, a, b - 1);
    }
  }

  // ---- Names ----

  ghost predicate InstrMentions(i: Instr, x: Name) {
    Target(i) == Some(x) || Var(x) in Uses(i)
  }

  /** The name is a parameter, a slot, or occurs in the code. */
  ghost predicate Mentions(f: Fn, slots: set<Name>, x: Name) {
    || x in f.params || x in slots
    || (exists b, k :: 0 <= b < |f.code| && 0 <= k < |f.code[b].body| && InstrMentions(f.code[b].body[k], x))
    || (exists b :: 0 <= b < |f.code| && Var(x) in TermUses(f.code[b].term))
  }

  /** Some instruction defines the name. */
  ghost predicate Defines(f: Fn, x: Name) {
    exists b, k :: 0 <= b < |f.code| && 0 <= k < |f.code[b].body| && Target(f.code[b].body[k]) == Some(x)
  }

  /** Slots occur only as pointers of loads and stores, and as results of their allocas. */
  predicate SlotUse(i: Instr, slots: set<Name>) {
    match AccessOf(i, slots)
    case LoadOf(x, _) => x !in slots
    case StoreTo(_, v) => forall p :: p in slots ==> v != Var(p)
    case AllocaOf(_) => Uses(i) == []
    case Other => (forall p :: p in slots ==> Var(p) !in Uses(i)) && (Target(i).Some? ==> Target(i).value !in slots)
  }

  ghost predicate SlotsOk(f: Fn, slots: set<Name>) {
    && (forall b, k :: 0 <= b < |f.code| && 0 <= k < |f.code[b].body| ==> SlotUse(f.code[b].body[k], slots))
    && (forall b, p :: 0 <= b < |f.code| && p in slots ==> Var(p) !in TermUses(f.code[b].term))
    && (forall p :: p in slots ==> Defines(f, p) && p !in f.params)
  }

  /** Every alloca belongs to a private slot. */
  ghost predicate AllPrivate(f: Fn, slots: set<Name>) {
    forall b, k :: 0 <= b < |f.code| && 0 <= k < |f.code[b].body| && IsAlloca(f.code[b].body[k]) ==>
        AccessOf(f.code[b].body[k], slots).AllocaOf?
  }

  predicate IsAlloca(i: Instr) {
    i.Effect? && i.effect.Alloca?
  }

  /** Parameters are different, never redefined, and every variable is defined somewhere. */
  ghost predicate NamesOk(f: Fn) {
    && (forall a, b :: 0 <= a < b < |f.params| ==> f.params[a] != f.params[b])
    && (forall x :: x in f.params ==> !Defines(f, x))
    && (forall x :: Mentions(f, {}, x) ==> x in f.params || Defines(f, x))
  }

  // ---- Copies of instructions ----

  type Remap = map<Name, Operand>

  function Renamed(remap: Remap, o: Operand): Operand {
    if o.Var? && o.name in remap then remap[o.name] else o
  }

  function Rename(remap: Remap): Operand -> Operand {
    o => Renamed(remap, o)
  }

  /** The new name of a result. */
  function NewName(remap: Remap, x: Name): Name {
    if x in remap && remap[x].Var? then remap[x].name else x
  }

  function CloneInstr(i: Instr, remap: Remap): (r: Instr)
    ensures Uses(r) == MapOperands(Uses(i), Rename(remap))
    ensures Target(r) == if Target(i).Some? then Some(NewName(remap, Target(i).value)) else None
    ensures (r.Effect? <==> i.Effect?) && (r.Move? <==> i.Move?)
  {
    var j := MapUses(i, Rename(remap));
    if Target(i).Some? then WithTarget(j, NewName(remap, Target(i).value)) else j
  }

  function CloneAll(code: seq<Instr>, remap: Remap): (r: seq<Instr>)
    ensures |r| == |code| && forall k :: 0 <= k < |code| ==> r[k] == CloneInstr(code[k], remap)
  {
    seq(|code|, k requires 0 <= k < |code| => CloneInstr(code[k], remap))
  }

  /** The copy of one instruction, unless it is an alloca. */
  function CloneOne(i: Instr, remap: Remap): seq<Instr> {
    if IsAlloca(i) then [] else [CloneInstr(i, remap)]
  }

  /** The copy of a body; allocas go to the entry of the caller. */
  function CloneBody(body: seq<Instr>, remap: Remap): seq<Instr> {
    if body == [] then [] else CloneOne(body[0], remap) + CloneBody(body[1..], remap)
  }

  // ---- A call site ----

  /** The call `call` in block `b` of function `g`, between `before` and `after`, runs `h`. */
  datatype CallSite = CallSite(g: nat, h: nat, b: nat, before: seq<Instr>, call: Instr, after: seq<Instr>, remap: Remap)

  /** Block ids of the copy, and of the continuation. */
  function NewBlock(base: nat, size: nat, v: nat): nat {
    if v < size then base + v else v
  }

  function CloneTerm(t: Term, remap: Remap, base: nat, size: nat): Term {
    match t
    case Branch(c, x, y) => Branch(Renamed(remap, c), NewBlock(base, size, x), NewBlock(base, size, y))
    case Jump(d) => Jump(NewBlock(base, size, d))
    case Return(_) => Jump(base + size)
    case Missing => Missing
  }

  /** A return leaves its value in the result of the call. */
  function Tail(t: Term, call: Instr, remap: Remap): seq<Instr> {
    if t.Return? && t.value.Some? && Target(call).Some? then [Move(Target(call).value, Renamed(remap, t.value.value))]
        else []
  }

  function CloneBlock(blk: Block, c: CallSite, base: nat, size: nat): Block {
    Block([], CloneBody(blk.body, c.remap) + Tail(blk.term, c.call, c.remap), CloneTerm(blk.term, c.remap, base, size))
  }

  /** `r` is `code` with the call of `c` replaced by the code `callee`; `hoisted` are the copied allocas. */
  ghost predicate Replaced(code: Func, callee: Func, c: CallSite, hoisted: seq<Instr>, r: Func) {
    && c.b < |code| && |r| == |code| + |callee| + 1
    && OldBlocks(code, c, hoisted, r) && SplitBlocks(code, |callee|, c, hoisted, r) &&
      CopiedBlocks(|code|, callee, c, r)
    && hoisted == Hoisted(callee, c.remap)
  }

  /** The other blocks keep their code; the entry also receives the copied allocas. */
  predicate OldBlocks(code: Func, c: CallSite, hoisted: seq<Instr>, r: Func) {
    |code| <= |r| && forall x :: 0 <= x < |code| && x != c.b ==>
      r[x] == code[x].(body := (if x == 0 then hoisted else []) + code[x].body)
  }

  /** The block of the call ends in a jump to the copy; what followed the call is the continuation. */
  predicate SplitBlocks(code: Func, size: nat, c: CallSite, hoisted: seq<Instr>, r: Func) {
    && c.b < |code| && |code| + size < |r|
    && r[c.b] == code[c.b].(body := (if c.b == 0 then hoisted else []) + c.before, term := Jump(|code|))
    && r[|code| + size] == Block([], c.after, code[c.b].term)
  }

  predicate CopiedBlocks(base: nat, callee: Func, c: CallSite, r: Func) {
    base + |callee| <= |r| && forall x :: 0 <= x < |callee| ==> r[base + x] == CloneBlock(callee[x], c, base, |callee|)
  }

  /** The copied allocas of a body, the last one first. */
  function HoistedBody(body: seq<Instr>, remap: Remap): seq<Instr> {
    if body == [] then []
    else
      (if IsAlloca(body[|body| - 1]) then [CloneInstr(body[|body| - 1], remap)] else []) +
      HoistedBody(body[..|body| - 1], remap)
  }

  /** The copied allocas of all blocks, each pushed to the front of the entry of the caller. */
  function Hoisted(callee: Func, remap: Remap): seq<Instr> {
    if callee == [] then [] else HoistedBody(callee[|callee| - 1].body, remap) + Hoisted(callee[..|callee| - 1], remap)
  }

  ghost predicate HoistedFrom(callee: Func, remap: Remap, i: Instr) {
    exists b, k :: 0 <= b < |callee| && 0 <= k < |callee[b].body| && IsAlloca(callee[b].body[k]) &&
      i == CloneInstr(callee[b].body[k], remap)
  }

  /** Parameters become arguments, and results get different names that the caller does not mention. */
  ghost predicate RemapOk(f: Fn, slots: set<Name>, callee: Fn, c: CallSite) {
    && c.call.Effect? && |c.call.args| == |callee.params|
    && (forall x :: x in c.remap <==> x in callee.params || Defines(callee, x))
    && (forall j :: 0 <= j < |callee.params| ==>
      callee.params[j] in c.remap &&
      c.remap[callee.params[j]] == c.call.args[j])
    && (forall x :: Defines(callee, x) ==> x in c.remap && c.remap[x].Var? && !Mentions(f, slots, c.remap[x].name))
    && (forall x, y :: Defines(callee, x) && Defines(callee, y) && x != y ==>
      x in c.remap && y in c.remap &&
      c.remap[x] != c.remap[y])
  }

  /** The slots of the caller afterwards. */
  ghost function NewSlots(slots: set<Name>, calleeSlots: set<Name>, remap: Remap): set<Name> {
    slots + set p | p in calleeSlots && p in remap && remap[p].Var? :: remap[p].name
  }

  ghost predicate SiteOk(p: Program, s: Slots, c: CallSite) {
    && |s| == |p| && c.g < |p| && c.h < |p| && c.g != c.h
    && c.b < |p[c.g].code| && p[c.g].code[c.b].body == c.before + [c.call] + c.after && Callee(p, c.call) == Some(c.h)
    && NamesOk(p[c.h]) && SlotsOk(p[c.g], s[c.g]) && SlotsOk(p[c.h], s[c.h]) && AllPrivate(p[c.h], s[c.h])
    && RemapOk(p[c.g], s[c.g], p[c.h], c)
  }

  /** `q` with slots `t` is `p` with slots `s` after the call of `c` has been inlined. */
  ghost predicate Inlined(p: Program, s: Slots, c: CallSite, hoisted: seq<Instr>, q: Program, t: Slots) {
    && SiteOk(p, s, c) && |q| == |p| && |t| == |s|
    && (forall k :: 0 <= k < |p| && k != c.g ==> q[k] == p[k] && t[k] == s[k])
    && q[c.g] == p[c.g].(code := q[c.g].code) && Replaced(p[c.g].code, p[c.h].code, c, hoisted, q[c.g].code)
    && t[c.g] == NewSlots(s[c.g], s[c.h], c.remap)
  }

  lemma {:induction false} HoistedBodyFrom(body: seq<Instr>, remap: Remap, i: Instr)
    ensures i in HoistedBody(body, remap) <==> exists k ::
        0 <= k < |body| && IsAlloca(body[k]) &&
        i == CloneInstr(body[k], remap)
  {
    hide CloneInstr;
    if body != [] {
      HoistedBodyFrom(body[..|body| - 1], remap, i);
      assert forall k :: 0 <= k < |body| - 1 ==> body[..|body| - 1][k] == body[k];
    }
  }

  /** The hoisted instructions are the copies of the allocas. */
  lemma {:induction false} HoistedAre(callee: Func, remap: Remap, i: Instr)
    ensures i in Hoisted(callee, remap) <==> HoistedFrom(callee, remap, i)
  {
    hide CloneInstr, HoistedBody;
    if callee != [] {
      var init, last := callee[..|callee| - 1], callee[|callee| - 1].body;
      HoistedAre(init, remap, i);
      HoistedBodyFrom(last, remap, i);
      assert forall b :: 0 <= b < |init| ==> init[b] == callee[b];
      if HoistedFrom(init, remap, i) {
        var b, k :| 0 <= b < |init| && 0 <= k < |init[b].body| && IsAlloca(init[b].body[k]) &&
          i == CloneInstr(init[b].body[k], remap);
        assert callee[b].body[k] == init[b].body[k];
      }
      if i in HoistedBody(last, remap) {
        var k :| 0 <= k < |last| && IsAlloca(last[k]) && i == CloneInstr(last[k], remap);
        assert callee[|callee| - 1].body[k] == last[k];
      }
    }
  }

  // ---- Bodies before and after ----

  lemma {:induction false} KeptAppend(a: seq<Instr>, b: seq<Instr>, slots: set<Name>)
    ensures Kept(a + b, slots) == Kept(a, slots) + Kept(b, slots)
  {
    if a == [] {
      assert a + b == b;
    } else {
      assert (a + b)[1..] == a[1..] + b;
      KeptAppend(a[1..], b, slots);
    }
  }

  /** Slots that a body does not mention do not matter. */
  lemma {:induction false} KeptSame(body: seq<Instr>, slots: set<Name>, more: set<Name>)
    requires slots <= more && forall k, x :: 0 <= k < |body| && x in more && x !in slots ==> !InstrMentions(body[k], x)
    ensures Kept(body, more) == Kept(body, slots)
  {
    if body != [] {
      SameAccess(body[0], slots, more);
      forall k, x | 0 <= k < |body[1..]| && x in more && x !in slots
        ensures !InstrMentions(body[1..][k], x)
      {
        assert body[1..][k] == body[k + 1];
      }
      KeptSame(body[1..], slots, more);
    }
  }

  lemma SameAccess(i: Instr, slots: set<Name>, more: set<Name>)
    requires slots <= more && forall x :: x in more && x !in slots ==> !InstrMentions(i, x)
    ensures AccessOf(i, more) == AccessOf(i, slots)
  {
    match i
    case Effect(_, _, args) =>
      forall k | 0 <= k < |args| && args[k].Var?
        ensures args[k].name in more <==> args[k].name in slots
      {
        assert args[k] == Var(args[k].name) && args[k] in Uses(i);
      }
    case _ =>
  }

  lemma {:induction false} KeptNone(body: seq<Instr>, slots: set<Name>)
    requires forall k :: 0 <= k < |body| ==> AccessOf(body[k], slots).AllocaOf?
    ensures Kept(body, slots) == []
  {
    if body != [] {
      KeptNone(body[1..], slots);
    }
  }

  /** What the copy needs to know about one instruction of the callee. */
  ghost predicate Copies(i: Instr, slots: set<Name>, remap: Remap, more: set<Name>) {
    && (IsAlloca(i) ==> AccessOf(i, slots).AllocaOf?)
    && (forall x :: InstrMentions(i, x) ==> x in remap && (if x in slots then remap[x].Var? && remap[x].name in more
      else forall p :: p in more ==> remap[x] != Var(p)))
    && (Target(i).Some? ==> Target(i).value in remap && remap[Target(i).value].Var?)
  }

  /** An operand of the copy names a copied slot when the original names a slot. */
  lemma CopiedOperand(i: Instr, slots: set<Name>, remap: Remap, more: set<Name>, o: Operand)
    requires Copies(i, slots, remap, more) && o in Uses(i)
    ensures var r := Renamed(remap, o); (r.Var? && r.name in more) <==> (o.Var? && o.name in slots)
    ensures o.Var? && o.name in slots ==> Renamed(remap, o) == Var(NewName(remap, o.name))
  {
    if o.Var? {
      assert o == Var(o.name);
      assert InstrMentions(i, o.name);
    }
  }

  /** The access with new names. */
  function RenamedAccess(a: Access, remap: Remap): Access {
    match a
    case LoadOf(x, p) => LoadOf(NewName(remap, x), NewName(remap, p))
    case StoreTo(p, v) => StoreTo(NewName(remap, p), Renamed(remap, v))
    case AllocaOf(p) => AllocaOf(NewName(remap, p))
    case Other => Other
  }

  /** The copy accesses the copied slots just as the original accesses the slots. */
  lemma CopiedAccess(i: Instr, slots: set<Name>, remap: Remap, more: set<Name>)
    requires Copies(i, slots, remap, more)
    ensures AccessOf(CloneInstr(i, remap), more) == RenamedAccess(AccessOf(i, slots), remap)
  {
    match i
    case Effect(t, op, args) =>
      if op.Alloca? && t.Some? {
        assert InstrMentions(i, t.value);
      } else {
        hide Copies, Renamed, NewName;
        assert forall k :: 0 <= k < |args| ==> args[k] in Uses(i);
        if |args| > 0 {
          CopiedOperand(i, slots, remap, more, args[0]);
        }
        if |args| > 1 {
          CopiedOperand(i, slots, remap, more, args[1]);
        }
      }
    case _ =>
  }

  lemma CopiedInstr(i: Instr, slots: set<Name>, remap: Remap, more: set<Name>)
    requires Copies(i, slots, remap, more) && !IsAlloca(i)
    ensures SlotInstr(CloneInstr(i, remap), more) == CloneInstr(SlotInstr(i, slots), remap)
    ensures !AccessOf(i, slots).AllocaOf? && !AccessOf(CloneInstr(i, remap), more).AllocaOf?
  {
    CopiedAccess(i, slots, remap, more);
    SlotIs(i, slots, remap, more);
    hide Copies, Renamed, NewName;
  }

  lemma SlotIs(i: Instr, slots: set<Name>, remap: Remap, more: set<Name>)
    requires Copies(i, slots, remap, more)
    ensures match AccessOf(i, slots)
      case LoadOf(_, p) => Renamed(remap, Var(p)) == Var(NewName(remap, p))
      case StoreTo(p, _) => Renamed(remap, Var(p)) == Var(NewName(remap, p))
      case _ => true
  {
    match i
    case Effect(_, _, args) =>
      if |args| > 0 {
        CopiedOperand(i, slots, remap, more, args[0]);
      }
      if |args| > 1 {
        CopiedOperand(i, slots, remap, more, args[1]);
      }
    case _ =>
  }

  lemma CloneAllAppend(a: seq<Instr>, b: seq<Instr>, remap: Remap)
    ensures CloneAll(a + b, remap) == CloneAll(a, remap) + CloneAll(b, remap)
  {
    hide CloneInstr;
  }

  lemma KeptOne(i: Instr, slots: set<Name>)
    requires !AccessOf(i, slots).AllocaOf?
    ensures Kept([i], slots) == [SlotInstr(i, slots)]
  {
    assert [i][1..] == [];
  }

  lemma {:induction false} KeptClone(body: seq<Instr>, slots: set<Name>, remap: Remap, more: set<Name>)
    requires forall k :: 0 <= k < |body| ==> Copies(body[k], slots, remap, more)
    ensures Kept(CloneBody(body, remap), more) == CloneAll(Kept(body, slots), remap)
  {
    hide Copies, SlotInstr, AccessOf, CloneInstr;
    if body != [] {
      assert Copies(body[0], slots, remap, more);
      KeptClone(body[1..], slots, remap, more);
      if IsAlloca(body[0]) {
        AllocaIsSlot(body[0], slots, remap, more);
        assert CloneBody(body, remap) == CloneBody(body[1..], remap) && Kept(body, slots) == Kept(body[1..], slots);
      } else {
        CopiedInstr(body[0], slots, remap, more);
        var i := CloneInstr(body[0], remap);
        KeptAppend([i], CloneBody(body[1..], remap), more);
        KeptOne(i, more);
        var j := SlotInstr(body[0], slots);
        CloneAllAppend([j], Kept(body[1..], slots), remap);
        assert CloneBody(body, remap) == [i] + CloneBody(body[1..], remap) &&
            Kept(body, slots) == [j] + Kept(body[1..], slots);
        assert CloneAll([j], remap) == [CloneInstr(j, remap)];
      }
    }
  }

  lemma AllocaIsSlot(i: Instr, slots: set<Name>, remap: Remap, more: set<Name>)
    requires Copies(i, slots, remap, more) && IsAlloca(i)
    ensures AccessOf(i, slots).AllocaOf?
  {
  }
}
