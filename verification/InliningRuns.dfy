/** A call that has been inlined computes what the call computed: every step of the caller or callee is matched. */
module InliningRuns {
  import opened IR
  import opened SsaForms
  import opened Inlining

  /** A call site, the program before and after inlining it, and their slots. */
  datatype Job = Job(p: Program, s: Slots, c: CallSite, hoisted: seq<Instr>, q: Program, t: Slots)

  ghost predicate Sound(j: Job) {
    Inlined(j.p, j.s, j.c, j.hoisted, j.q, j.t)
  }

  function Caller(j: Job): Fn
    requires j.c.g < |j.p|
  {
    j.p[j.c.g]
  }

  function Inner(j: Job): Fn
    requires j.c.h < |j.p|
  {
    j.p[j.c.h]
  }

  function Base(j: Job): nat
    requires j.c.g < |j.p|
  {
    |Caller(j).code|
  }

  /** The continuation of the call. */
  function Cont(j: Job): nat
    requires j.c.g < |j.p| && j.c.h < |j.p|
  {
    Base(j) + |Inner(j).code|
  }

  function After(j: Job): Func
    requires j.c.g < |j.q|
  {
    j.q[j.c.g].code
  }

  lemma Shape(j: Job)
    requires Sound(j)
    ensures |j.q| == |j.p| == |j.s| == |j.t| && j.c.g < |j.p| && j.c.h < |j.p| && j.c.g != j.c.h && j.c.b < Base(j) &&
        |After(j)| == Cont(j) + 1
    ensures Caller(j).code[j.c.b].body == j.c.before + [j.c.call] + j.c.after && Callee(j.p, j.c.call) == Some(j.c.h)
    ensures forall k :: 0 <= k < |j.p| && k != j.c.g ==> j.q[k] == j.p[k] && j.t[k] == j.s[k]
    ensures forall k :: 0 <= k < |j.p| ==>
        j.q[k].params == j.p[k].params && j.q[k].name == j.p[k].name &&
        j.q[k].builtin == j.p[k].builtin
  {
  }

  lemma OtherBlockIs(j: Job, b: nat)
    requires Sound(j) && b < |Caller(j).code| && b != j.c.b
    ensures After(j)[b] == Caller(j).code[b].(body := (if b == 0 then j.hoisted else []) + Caller(j).code[b].body)
  {
    hide Sound, SplitBlocks, CopiedBlocks, Hoisted;
    CodeReplaced(j);
  }

  lemma SplitBlockIs(j: Job)
    requires Sound(j)
    ensures After(j)[j.c.b] == Caller(j).code[j.c.b].(body := (if j.c.b == 0 then j.hoisted else []) + j.c.before,
        term := Jump(Base(j)))
    ensures After(j)[Cont(j)] == Block([], j.c.after, Caller(j).code[j.c.b].term)
  {
    hide Sound, OldBlocks, CopiedBlocks, Hoisted;
    CodeReplaced(j);
  }

  lemma CodeReplaced(j: Job)
    requires Sound(j)
    ensures j.c.g < |j.p| == |j.q| && j.c.h < |j.p| && |After(j)| == Cont(j) + 1 && j.c.b < Base(j)
    ensures OldBlocks(Caller(j).code, j.c, j.hoisted, After(j)) &&
        SplitBlocks(Caller(j).code, |Inner(j).code|, j.c, j.hoisted, After(j))
    ensures CopiedBlocks(Base(j), Inner(j).code, j.c, After(j))
  {
    hide OldBlocks, SplitBlocks, CopiedBlocks, Hoisted, SiteOk, NewSlots;
    SiteSized(j);
  }

  lemma SiteSized(j: Job)
    requires SiteOk(j.p, j.s, j.c)
    ensures j.c.g < |j.p| && j.c.h < |j.p| && |j.s| == |j.p|
  {
  }

  lemma CopiedBlockIs(j: Job, b: nat)
    requires Sound(j) && b < |Inner(j).code|
    ensures After(j)[Base(j) + b] == CloneBlock(Inner(j).code[b], j.c, Base(j), |Inner(j).code|)
  {
    hide Sound, OldBlocks, SplitBlocks, CloneBlock, Hoisted;
    CodeReplaced(j);
  }

  // ---- Bodies before and after ----

  /** New slots are new names. */
  lemma NewSlotFresh(j: Job, x: Name) returns (y: Name)
    requires Sound(j) && x in j.t[j.c.g] && x !in j.s[j.c.g]
    ensures y in j.s[j.c.h] && Defines(Inner(j), y) && y in j.c.remap && j.c.remap[y] == Var(x) &&
        !Mentions(Caller(j), j.s[j.c.g], x)
  {
    y :| y in j.s[j.c.h] && y in j.c.remap && j.c.remap[y].Var? && j.c.remap[y].name == x;
  }

  lemma CallerBodySame(j: Job, b: nat, body: seq<Instr>)
    requires Sound(j) && b < |Caller(j).code| && forall k :: 0 <= k < |body| ==> body[k] in Caller(j).code[b].body
    ensures Kept(body, j.t[j.c.g]) == Kept(body, j.s[j.c.g])
  {
    forall k, x | 0 <= k < |body| && x in j.t[j.c.g] && x !in j.s[j.c.g]
      ensures !InstrMentions(body[k], x)
    {
      var y := NewSlotFresh(j, x);
      assert body[k] in Caller(j).code[b].body;
    }
    KeptSame(body, j.s[j.c.g], j.t[j.c.g]);
  }

  /** The hoisted allocas belong to private slots. */
  lemma HoistedIsSlot(j: Job, b: nat, i: nat)
    requires Sound(j) && b < |Inner(j).code| && i < |Inner(j).code[b].body| && IsAlloca(Inner(j).code[b].body[i])
    ensures AccessOf(CloneInstr(Inner(j).code[b].body[i], j.c.remap), j.t[j.c.g]).AllocaOf?
  {
    hide Replaced, NamesOk, SlotsOk;
    var ins := Inner(j).code[b].body[i];
    assert AccessOf(ins, j.s[j.c.h]).AllocaOf?;
    assert Defines(Inner(j), Target(ins).value);
  }

  lemma HoistedKeptNone(j: Job)
    requires Sound(j)
    ensures Kept(j.hoisted, j.t[j.c.g]) == []
  {
    forall k | 0 <= k < |j.hoisted|
      ensures AccessOf(j.hoisted[k], j.t[j.c.g]).AllocaOf?
    {
      assert j.hoisted[k] in Hoisted(Inner(j).code, j.c.remap);
      HoistedAre(Inner(j).code, j.c.remap, j.hoisted[k]);
      hide AccessOf, SiteOk, CloneInstr;
      var b, i :| 0 <= b < |Inner(j).code| && 0 <= i < |Inner(j).code[b].body| && IsAlloca(Inner(j).code[b].body[i]) &&
        j.hoisted[k] == CloneInstr(Inner(j).code[b].body[i], j.c.remap);
      HoistedIsSlot(j, b, i);
    }
    KeptNone(j.hoisted, j.t[j.c.g]);
  }

  /** Other blocks of the caller do what they did. */
  lemma OtherBlock(j: Job, b: nat)
    requires Sound(j) && b < |Caller(j).code| && b != j.c.b
    ensures Kept(After(j)[b].body, j.t[j.c.g]) == Kept(Caller(j).code[b].body, j.s[j.c.g])
  {
    Shape(j);
    OtherBlockIs(j, b);
    hide Sound, Kept;
    var body := Caller(j).code[b].body;
    CallerBodySame(j, b, body);
    HoistedKeptNone(j);
    KeptAppend(j.hoisted, body, j.t[j.c.g]);
    assert [] + body == body;
  }

  function BeforeCall(j: Job): seq<Instr>
    requires j.c.g < |j.s|
  {
    Kept(j.c.before, j.s[j.c.g])
  }

  function AfterCall(j: Job): seq<Instr>
    requires j.c.g < |j.s|
  {
    Kept(j.c.after, j.s[j.c.g])
  }

  /** The block of the call has been split around the call. */
  lemma SplitBlock(j: Job)
    requires Sound(j)
    ensures Kept(Caller(j).code[j.c.b].body, j.s[j.c.g]) == BeforeCall(j) + [j.c.call] + AfterCall(j)
    ensures Kept(After(j)[j.c.b].body, j.t[j.c.g]) == BeforeCall(j)
    ensures Kept(After(j)[Cont(j)].body, j.t[j.c.g]) == AfterCall(j)
  {
    Shape(j);
    SplitBlockIs(j);
    CallIsKept(j);
    hide Sound, Kept;
    var c, s := j.c, j.s[j.c.g];
    KeptAppend(c.before + [c.call], c.after, s);
    KeptAppend(c.before, [c.call], s);
    CallerBodySame(j, c.b, c.before);
    CallerBodySame(j, c.b, c.after);
    HoistedKeptNone(j);
    KeptAppend(j.hoisted, c.before, j.t[c.g]);
    assert [] + c.before == c.before;
  }

  lemma CallIsKept(j: Job)
    requires Sound(j)
    ensures Kept([j.c.call], j.s[j.c.g]) == [j.c.call]
  {
    KeptOne(j.c.call, j.s[j.c.g]);
  }

  lemma CalleeCopies(j: Job, b: nat, k: nat)
    requires Sound(j) && b < |Inner(j).code| && k < |Inner(j).code[b].body|
    ensures Copies(Inner(j).code[b].body[k], j.s[j.c.h], j.c.remap, j.t[j.c.g])
  {
    var i, slots, more := Inner(j).code[b].body[k], j.s[j.c.h], j.t[j.c.g];
    if Target(i).Some? {
      assert Defines(Inner(j), Target(i).value);
    }
    forall x | InstrMentions(i, x)
      ensures x in j.c.remap && (if x in slots then j.c.remap[x].Var? && j.c.remap[x].name in more else forall p ::
          p in more ==> j.c.remap[x] != Var(p))
    {
      assert Mentions(Inner(j), {}, x);
      if x !in slots {
        forall p | p in more
          ensures j.c.remap[x] != Var(p)
        {
          NotASlot(j, x, p);
        }
      }
    }
  }

  /** What is not a slot of the callee does not become a slot of the caller. */
  lemma NotASlot(j: Job, x: Name, p: Name)
    requires Sound(j) && x in j.c.remap && x !in j.s[j.c.h] && p in j.t[j.c.g]
    ensures j.c.remap[x] != Var(p)
  {
    if p in j.s[j.c.g] {
      OldSlot(j, x, p);
    } else {
      var y := NewSlotFresh(j, p);
      hide Mentions, Replaced, SlotsOk;
      if x in Inner(j).params {
        ArgumentOf(j, x);
      }
    }
  }

  lemma OldSlot(j: Job, x: Name, p: Name)
    requires Sound(j) && x in j.c.remap && p in j.s[j.c.g]
    ensures j.c.remap[x] != Var(p)
  {
    if x in Inner(j).params {
      ArgumentOf(j, x);
      CallArgs(j, p);
    }
  }

  lemma CallArgs(j: Job, p: Name)
    requires Sound(j) && p in j.s[j.c.g]
    ensures Var(p) !in Uses(j.c.call) && Target(j.c.call) != Some(p)
  {
    Shape(j);
    assert Caller(j).code[j.c.b].body[|j.c.before|] == j.c.call;
    assert SlotUse(j.c.call, j.s[j.c.g]);
  }

  /** Parameters become operands that the caller mentions. */
  lemma ArgumentOf(j: Job, x: Name)
    requires Sound(j) && x in Inner(j).params
    ensures x in j.c.remap && j.c.remap[x] in Uses(j.c.call)
    ensures forall a :: j.c.remap[x] == Var(a) ==> Mentions(Caller(j), j.s[j.c.g], a)
  {
    var k :| 0 <= k < |Inner(j).params| && Inner(j).params[k] == x;
    assert j.c.remap[Inner(j).params[k]] == j.c.call.args[k];
    assert Caller(j).code[j.c.b].body[|j.c.before|] == j.c.call;
  }

  /** A copied block does what the block of the callee does, and leaves the returned value. */
  lemma CopiedBlock(j: Job, b: nat)
    requires Sound(j) && b < |Inner(j).code|
    ensures Kept(After(j)[Base(j) + b].body, j.t[j.c.g])
         == CloneAll(Kept(Inner(j).code[b].body, j.s[j.c.h]), j.c.remap) + Tail(Inner(j).code[b].term, j.c.call,
           j.c.remap)
  {
    Shape(j);
    CopiedBlockIs(j, b);
    hide Sound, Kept, Copies, Tail;
    var body, tail := Inner(j).code[b].body, Tail(Inner(j).code[b].term, j.c.call, j.c.remap);
    forall k | 0 <= k < |body|
      ensures Copies(body[k], j.s[j.c.h], j.c.remap, j.t[j.c.g])
    {
      CalleeCopies(j, b, k);
    }
    KeptClone(body, j.s[j.c.h], j.c.remap, j.t[j.c.g]);
    KeptAppend(CloneBody(body, j.c.remap), tail, j.t[j.c.g]);
    TailIsKept(Inner(j).code[b].term, j.c.call, j.c.remap, j.t[j.c.g]);
  }

  lemma TailIsKept(term: Term, call: Instr, remap: Remap, slots: set<Name>)
    ensures Kept(Tail(term, call, remap), slots) == Tail(term, call, remap)
  {
    var tail := Tail(term, call, remap);
    if tail != [] {
      KeptOne(tail[0], slots);
      assert tail == [tail[0]];
    }
  }

  // ---- Copied instructions ----

  /** Each value is found under its new name. */
  ghost predicate ClonedEnv(remap: Remap, e: Env, d: Env) {
    forall x :: x in e ==> Lookup(d, Renamed(remap, Var(x))) == Some(e[x])
  }

  lemma LookupCloned(remap: Remap, e: Env, d: Env, o: Operand)
    requires ClonedEnv(remap, e, d) && Lookup(e, o).Some?
    ensures Lookup(d, Renamed(remap, o)) == Lookup(e, o)
  {
    if o.Var? {
      assert o == Var(o.name);
    }
  }

  lemma {:induction false} LookupAllCloned(remap: Remap, e: Env, d: Env, os: seq<Operand>, rs: seq<Operand>)
    requires ClonedEnv(remap, e, d) && LookupAll(e, os).Some?
    requires |rs| == |os| && forall k :: 0 <= k < |os| ==> rs[k] == Renamed(remap, os[k])
    ensures LookupAll(d, rs) == LookupAll(e, os)
  {
    hide ClonedEnv, Renamed;
    if os != [] {
      LookupCloned(remap, e, d, os[0]);
      LookupAllCloned(remap, e, d, os[1..], rs[1..]);
    }
  }

  /** Writing a result under its new name leaves the other values in place. */
  ghost predicate Apart(remap: Remap, e: Env, x: Name) {
    && (x in remap ==> remap[x].Var?)
    && (forall y :: y in e && y != x ==> Renamed(remap, Var(y)) != Var(NewName(remap, x)))
  }

  ghost predicate OnlyChanges(a: Env, b: Env, t: Option<Name>) {
    forall x :: t != Some(x) ==> Lookup(a, Var(x)) == Lookup(b, Var(x))
  }

  lemma WriteCloned(remap: Remap, e: Env, d: Env, x: Name, v: Int32)
    requires ClonedEnv(remap, e, d) && Apart(remap, e, x)
    ensures ClonedEnv(remap, e[x := v], d[NewName(remap, x) := v])
  {
    forall y | y in e[x := v]
      ensures Lookup(d[NewName(remap, x) := v], Renamed(remap, Var(y))) == Some(e[x := v][y])
    {
      if y == x {
        assert Renamed(remap, Var(x)) == Var(NewName(remap, x));
      } else {
        assert y in e;
      }
    }
  }

  /** What a copied instruction does: the same event, and the same value under the new name. */
  ghost predicate SameStep(remap: Remap, d: Env, i: Instr, t: State, r: Option<State>) {
    && r.Some? && r.value.history == t.history && ClonedEnv(remap, t.env, r.value.env)
    && OnlyChanges(d, r.value.env, Target(CloneInstr(i, remap)))
  }

  lemma ExecCloned(w: World, i: Instr, remap: Remap, e: Env, d: Env, h: seq<Event>)
    requires ClonedEnv(remap, e, d) && Exec(w, i, State(e, h)).Some? &&
        (Target(i).Some? ==> Apart(remap, e, Target(i).value))
    ensures SameStep(remap, d, i, Exec(w, i, State(e, h)).value, Exec(w, CloneInstr(i, remap), State(d, h)))
  {
    match i
    case Move(x, a) => MoveCloned(w, x, a, remap, e, d, h);
    case Effect(_, _, _) => EffectCloned(w, i, remap, e, d, h);
    case _ => ComputeCloned(w, i, remap, e, d, h);
  }

  lemma MoveCloned(w: World, x: Name, a: Operand, remap: Remap, e: Env, d: Env, h: seq<Event>)
    requires ClonedEnv(remap, e, d) && Apart(remap, e, x)
    ensures SameStep(remap, d, Move(x, a), Exec(w, Move(x, a), State(e, h)).value,
        Exec(w, CloneInstr(Move(x, a), remap), State(d, h)))
  {
    hide ClonedEnv, Apart;
    if Lookup(e, a).Some? {
      LookupCloned(remap, e, d, a);
      WriteCloned(remap, e, d, x, Lookup(e, a).value);
    } else {
      RemoveCloned(remap, e, d, x, Exec(w, CloneInstr(Move(x, a), remap), State(d, h)).value.env);
    }
  }

  lemma EffectCloned(w: World, i: Instr, remap: Remap, e: Env, d: Env, h: seq<Event>)
    requires i.Effect? && ClonedEnv(remap, e, d) && Exec(w, i, State(e, h)).Some? &&
        (Target(i).Some? ==> Apart(remap, e, Target(i).value))
    ensures SameStep(remap, d, i, Exec(w, i, State(e, h)).value, Exec(w, CloneInstr(i, remap), State(d, h)))
  {
    hide ClonedEnv, Apart, Renamed;
    LookupAllCloned(remap, e, d, i.args, CloneInstr(i, remap).args);
    if i.target.Some? {
      WriteCloned(remap, e, d, i.target.value, Exec(w, i, State(e, h)).value.env[i.target.value]);
    }
  }

  lemma ComputeCloned(w: World, i: Instr, remap: Remap, e: Env, d: Env, h: seq<Event>)
    requires !i.Effect? && !i.Move? && ClonedEnv(remap, e, d) && Exec(w, i, State(e, h)).Some? &&
        Apart(remap, e, i.result)
    ensures SameStep(remap, d, i, Exec(w, i, State(e, h)).value, Exec(w, CloneInstr(i, remap), State(d, h)))
  {
    hide ClonedEnv, Apart, Compute, MapUses, WithTarget, Renamed;
    LookupAllCloned(remap, e, d, Uses(i), Uses(CloneInstr(i, remap)));
    SameCompute(i, remap, LookupAll(e, Uses(i)).value);
    WriteCloned(remap, e, d, i.result, Exec(w, i, State(e, h)).value.env[i.result]);
  }

  lemma RemoveCloned(remap: Remap, e: Env, d: Env, x: Name, d': Env)
    requires ClonedEnv(remap, e, d) && Apart(remap, e, x) && OnlyChanges(d, d', Some(NewName(remap, x)))
    ensures ClonedEnv(remap, e - {x}, d')
  {
    forall y | y in e - {x}
      ensures Lookup(d', Renamed(remap, Var(y))) == Some(e[y])
    {
      var o := Renamed(remap, Var(y));
      assert Lookup(d, o) == Some(e[y]);
      if o.Var? {
        assert o == Var(o.name) && Lookup(d, Var(o.name)) == Lookup(d', Var(o.name));
      }
    }
  }

  lemma SameCompute(i: Instr, remap: Remap, vs: seq<Int32>)
    requires !i.Effect? && !i.Move? && |vs| == |Uses(i)|
    ensures var r := CloneInstr(i, remap);
        !r.Effect? && !r.Move? && |Uses(r)| == |vs| &&
        Compute(r, vs) == Compute(i, vs)
  {
    hide ArithValue, CmpHolds, Wrap;
  }

  lemma CloneIdentity(i: Instr)
    ensures CloneInstr(i, map[]) == i
  {
    assert forall o :: Rename(map[])(o) == o;
    match i
    case Effect(_, _, args) => assert MapOperands(args, Rename(map[])) == args;
    case _ =>
  }

  /** Names and results of functions are unchanged, so calls reach the same functions. */
  lemma {:induction false} SameQuery(p: Program, q: Program, name: Name, k: nat)
    requires |q| == |p| && forall i :: 0 <= i < |p| ==> q[i].name == p[i].name && q[i].builtin == p[i].builtin
    ensures Query(q, name, k) == Query(p, name, k)
    decreases |p| - k
  {
    if k < |p| {
      SameQuery(p, q, name, k + 1);
    }
  }

  lemma SameCallee(j: Job, i: Instr, remap: Remap)
    requires Sound(j)
    ensures Callee(j.q, CloneInstr(i, remap)) == Callee(j.p, i)
  {
    Shape(j);
    hide Sound, Renamed, NewName, Query;
    match i
    case Effect(_, Call(f), _) => SameQuery(j.p, j.q, f, 0);
    case _ =>
  }
}
