/** What inlining one call keeps, so that the next call can be inlined. */
module InliningInvariants {
  import opened IR
  import opened SsaForms
  import opened Inlining
  import opened InliningRuns
  import opened InliningSimulation

  /** Instruction `k` of block `b`. */
  predicate Has(code: Func, b: nat, k: nat) {
    b < |code| && k < |code[b].body|
  }

  ghost predicate Contains(code: Func, i: Instr) {
    exists b: nat, k: nat :: Has(code, b, k) && code[b].body[k] == i
  }

  ghost predicate Called(p: Program, k: nat) {
    exists f: nat, i :: f < |p| && Contains(p[f].code, i) && Callee(p, i) == Some(k)
  }

  ghost predicate ReturnsValue(code: Func) {
    exists b :: 0 <= b < |code| && code[b].term.Return? && code[b].term.value.Some?
  }

  /** A function called for its result returns one. */
  ghost predicate Valued(p: Program) {
    forall f: nat, i, k ::
      f < |p| && Contains(p[f].code, i) && Callee(p, i) == Some(k) && Target(i).Some? && p[k].code != [] ==>
      ReturnsValue(p[k].code)
  }

  /** The functions that may be inlined one after the other: called functions have private slots only. */
  ghost predicate Safe(p: Program, s: Slots) {
    && |s| == |p| && Valued(p)
    && (forall k :: 0 <= k < |p| ==> NamesOk(p[k]) && SlotsOk(p[k], s[k]))
    && (forall k :: 0 <= k < |p| && Called(p, k) ==> AllPrivate(p[k], s[k]))
  }

  // ---- Where the instructions come from ----

  /** The instruction is a copy of one of the callee. */
  ghost predicate IsCopy(j: Job, i: Instr)
    requires j.c.h < |j.p|
  {
    exists o :: Contains(Inner(j).code, o) && i == CloneInstr(o, j.c.remap)
  }

  /** The instruction hands over a returned value. */
  ghost predicate HandsOver(j: Job, i: Instr)
    requires j.c.h < |j.p|
  {
    exists b :: 0 <= b < |Inner(j).code| && i in Tail(Inner(j).code[b].term, j.c.call, j.c.remap)
  }

  lemma ContainsAt(code: Func, b: nat, i: Instr)
    requires b < |code| && i in code[b].body
    ensures Contains(code, i)
  {
    var k :| 0 <= k < |code[b].body| && code[b].body[k] == i;
    assert Has(code, b, k);
  }

  lemma {:induction false} CloneBodyFrom(body: seq<Instr>, remap: Remap, i: Instr)
    ensures i in CloneBody(body, remap) <==> exists k ::
        0 <= k < |body| && !IsAlloca(body[k]) &&
        i == CloneInstr(body[k], remap)
  {
    hide CloneInstr;
    if body != [] {
      CloneBodyFrom(body[1..], remap, i);
      assert forall k :: 0 < k < |body| ==> body[1..][k - 1] == body[k];
    }
  }

  lemma HoistedIsCopy(j: Job, i: Instr)
    requires Sound(j) && i in j.hoisted
    ensures IsCopy(j, i) && IsAlloca(i)
  {
    hide Sound, CloneInstr, Hoisted;
    Shape(j);
    HoistedExactly(j);
    HoistedAre(Inner(j).code, j.c.remap, i);
    var b, k :| 0 <= b < |Inner(j).code| && 0 <= k < |Inner(j).code[b].body| && IsAlloca(Inner(j).code[b].body[k]) &&
      i == CloneInstr(Inner(j).code[b].body[k], j.c.remap);
    assert Has(Inner(j).code, b, k);
    SameKind(Inner(j).code[b].body[k], j.c.remap);
  }

  lemma HoistedExactly(j: Job)
    requires Sound(j)
    ensures j.hoisted == Hoisted(Inner(j).code, j.c.remap)
  {
  }

  lemma CopiedIsCopy(j: Job, b: nat, i: Instr)
    requires Sound(j) && b < |Inner(j).code| && i in CloneBody(Inner(j).code[b].body, j.c.remap)
    ensures IsCopy(j, i) && !IsAlloca(i)
  {
    hide Sound, CloneInstr;
    Shape(j);
    CloneBodyFrom(Inner(j).code[b].body, j.c.remap, i);
    var k :| 0 <= k < |Inner(j).code[b].body| && !IsAlloca(Inner(j).code[b].body[k]) &&
      i == CloneInstr(Inner(j).code[b].body[k], j.c.remap);
    assert Has(Inner(j).code, b, k);
    SameKind(Inner(j).code[b].body[k], j.c.remap);
  }

  lemma SameKind(i: Instr, remap: Remap)
    ensures IsAlloca(CloneInstr(i, remap)) <==> IsAlloca(i)
  {
  }

  /** Every instruction afterwards is an old one other than the call, a copy, or hands over a returned value. */
  lemma Origin(j: Job, b: nat, i: Instr)
    requires Sound(j) && b < |After(j)| && i in After(j)[b].body
    ensures Contains(Caller(j).code, i) || IsCopy(j, i) || HandsOver(j, i)
  {
    hide Sound, IsCopy, HandsOver, Contains;
    Shape(j);
    if b < Base(j) || b == Cont(j) {
      OldOrigin(j, b, i);
    } else {
      CopyOrigin(j, b - Base(j), i);
    }
  }

  lemma OldOrigin(j: Job, b: nat, i: Instr)
    requires Sound(j) && b < |After(j)| && (b < Base(j) || b == Cont(j)) && i in After(j)[b].body
    ensures Contains(Caller(j).code, i) || IsCopy(j, i)
  {
    hide Sound, IsCopy, Contains;
    Shape(j);
    if b < Base(j) && b != j.c.b {
      OtherBlockIs(j, b);
    } else {
      SplitBlockIs(j);
    }
    if i in j.hoisted {
      HoistedIsCopy(j, i);
    } else {
      ContainsAt(Caller(j).code, if b == Cont(j) then j.c.b else b, i);
    }
  }

  lemma CopyOrigin(j: Job, c: nat, i: Instr)
    requires Sound(j) && c < |Inner(j).code| && Base(j) + c < |After(j)| && i in After(j)[Base(j) + c].body
    ensures IsCopy(j, i) || HandsOver(j, i)
  {
    hide Sound, IsCopy, Tail, CloneBody;
    Shape(j);
    CopiedBlockIs(j, c);
    if i in CloneBody(Inner(j).code[c].body, j.c.remap) {
      CopiedIsCopy(j, c, i);
    } else {
      HandedIsMove(j, c, i);
    }
  }

  lemma HandedIsMove(j: Job, c: nat, i: Instr)
    requires j.c.h < |j.p| && c < |Inner(j).code| && i in Tail(Inner(j).code[c].term, j.c.call, j.c.remap)
    ensures HandsOver(j, i) && i.Move? && Target(i) == Target(j.c.call) && Target(i).Some?
    ensures Inner(j).code[c].term.Return? && Inner(j).code[c].term.value.Some? &&
        Uses(i) == [Renamed(j.c.remap, Inner(j).code[c].term.value.value)]
  {
  }

  // ---- What stays ----

  lemma DefinedBy(f: Fn, x: Name) returns (i: Instr)
    requires Defines(f, x)
    ensures Contains(f.code, i) && Target(i) == Some(x)
  {
    var b, k :| 0 <= b < |f.code| && 0 <= k < |f.code[b].body| && Target(f.code[b].body[k]) == Some(x);
    i := f.code[b].body[k];
    assert Has(f.code, b, k);
  }

  lemma Defining(f: Fn, b: nat, i: Instr, x: Name)
    requires b < |f.code| && i in f.code[b].body && Target(i) == Some(x)
    ensures Defines(f, x)
  {
    var k :| 0 <= k < |f.code[b].body| && f.code[b].body[k] == i;
  }

  /** Instructions of the caller other than the call are still there. */
  lemma OldStays(j: Job, i: Instr) returns (b: nat)
    requires Sound(j) && Contains(Caller(j).code, i) && i != j.c.call
    ensures b < |After(j)| && i in After(j)[b].body
  {
    hide Sound;
    Shape(j);
    var o: nat, k: nat :| Has(Caller(j).code, o, k) && Caller(j).code[o].body[k] == i;
    if o != j.c.b {
      OtherBlockIs(j, o);
      b := o;
    } else {
      SplitBlockIs(j);
      b := if i in j.c.before then j.c.b else Cont(j);
    }
  }

  /** The value of the call still has a definition: a return that hands it over. */
  lemma ResultStays(j: Job) returns (b: nat, i: Instr)
    requires Sound(j) && Target(j.c.call).Some? && ReturnsValue(Inner(j).code)
    ensures b < |After(j)| && i in After(j)[b].body && Target(i) == Target(j.c.call)
  {
    hide Sound, CloneBody, CloneTerm;
    Shape(j);
    var c :| 0 <= c < |Inner(j).code| && Inner(j).code[c].term.Return? && Inner(j).code[c].term.value.Some?;
    CopiedBlockIs(j, c);
    b := Base(j) + c;
    i := Tail(Inner(j).code[c].term, j.c.call, j.c.remap)[0];
  }

  /** The copy of every instruction of the callee is there. */
  lemma CopyStays(j: Job, o: Instr) returns (b: nat)
    requires Sound(j) && Contains(Inner(j).code, o)
    ensures b < |After(j)| && CloneInstr(o, j.c.remap) in After(j)[b].body
  {
    hide Sound, CloneInstr, CloneBody, Hoisted, Tail;
    Shape(j);
    var c: nat, k: nat :| Has(Inner(j).code, c, k) && Inner(j).code[c].body[k] == o;
    if IsAlloca(o) {
      HoistedExactly(j);
      HoistedAre(Inner(j).code, j.c.remap, CloneInstr(o, j.c.remap));
      EntryGetsAllocas(j);
      b := 0;
    } else {
      CopiedBlockIs(j, c);
      CloneBodyFrom(Inner(j).code[c].body, j.c.remap, CloneInstr(o, j.c.remap));
      b := Base(j) + c;
    }
  }

  lemma EntryGetsAllocas(j: Job)
    requires Sound(j)
    ensures |After(j)| > 0 && j.hoisted <= After(j)[0].body
  {
    hide Sound;
    Shape(j);
    SplitBlockIs(j);
    if j.c.b != 0 {
      OtherBlockIs(j, 0);
    }
  }

  ghost predicate CallValued(j: Job)
    requires j.c.h < |j.p|
  {
    Target(j.c.call).Some? ==> ReturnsValue(Inner(j).code)
  }

  lemma DefinesStays(j: Job, x: Name)
    requires Sound(j) && Sized(j) && CallValued(j) && Defines(Caller(j), x)
    ensures Defines(j.q[j.c.g], x)
  {
    var i := DefinedBy(Caller(j), x);
    if i == j.c.call {
      var b, r := ResultStays(j);
      Defining(j.q[j.c.g], b, r, x);
    } else {
      var b := OldStays(j, i);
      Defining(j.q[j.c.g], b, i, x);
    }
  }

  lemma CopyDefines(j: Job, y: Name)
    requires Sound(j) && Sized(j) && Defines(Inner(j), y)
    ensures Defines(j.q[j.c.g], NewName(j.c.remap, y))
  {
    var o := DefinedBy(Inner(j), y);
    var b := CopyStays(j, o);
    Defining(j.q[j.c.g], b, CloneInstr(o, j.c.remap), NewName(j.c.remap, y));
  }

  // ---- Names ----

  /** The name is new: the copy of a result of the callee. */
  ghost predicate Fresh(j: Job, x: Name)
    requires j.c.h < |j.p|
  {
    exists y :: Defines(Inner(j), y) && y in j.c.remap && j.c.remap[y] == Var(x)
  }

  lemma TargetFresh(j: Job, o: Instr)
    requires Sound(j) && Contains(Inner(j).code, o) && Target(o).Some?
    ensures Defines(Inner(j), Target(o).value) && Fresh(j, NewName(j.c.remap, Target(o).value))
  {
    var b: nat, k: nat :| Has(Inner(j).code, b, k) && Inner(j).code[b].body[k] == o;
    Defining(Inner(j), b, o, Target(o).value);
    FreshName(j, Target(o).value);
  }

  /** An operand of a copy is new or an operand of the call. */
  lemma OperandOrigin(j: Job, y: Name, x: Name)
    requires Sound(j) && Mentions(Inner(j), {}, y) && Renamed(j.c.remap, Var(y)) == Var(x)
    ensures Fresh(j, x) || Var(x) in Uses(j.c.call)
  {
    Shape(j);
    SiteFacts(j);
    hide Sound;
    if y in Inner(j).params {
      ArgumentOf(j, y);
    } else {
      assert Defines(Inner(j), y);
    }
  }

  lemma MentionedIn(f: Fn, i: Instr, x: Name)
    requires Contains(f.code, i) && InstrMentions(i, x)
    ensures Mentions(f, {}, x)
  {
    var b: nat, k: nat :| Has(f.code, b, k) && f.code[b].body[k] == i;
    assert InstrMentions(f.code[b].body[k], x);
  }

  lemma MentionedBy(f: Fn, x: Name) returns (i: Instr, b: nat)
    requires Mentions(f, {}, x) && x !in f.params
    ensures (b < |f.code| && i in f.code[b].body && InstrMentions(i, x)) ||
        (b < |f.code| && Var(x) in TermUses(f.code[b].term))
  {
    i := Move(x, Var(x));
    if c, k :| 0 <= c < |f.code| && 0 <= k < |f.code[c].body| && InstrMentions(f.code[c].body[k], x) {
      i, b := f.code[c].body[k], c;
    } else {
      b :| 0 <= b < |f.code| && Var(x) in TermUses(f.code[b].term);
    }
  }

  lemma CallMentions(j: Job, x: Name)
    requires Sound(j) && InstrMentions(j.c.call, x)
    ensures Mentions(Caller(j), {}, x)
  {
    Shape(j);
    assert Caller(j).code[j.c.b].body[|j.c.before|] == j.c.call;
    hide Sound;
    ContainsAt(Caller(j).code, j.c.b, j.c.call);
    MentionedIn(Caller(j), j.c.call, x);
  }

  lemma CopyMentions(j: Job, i: Instr, x: Name)
    requires Sound(j) && IsCopy(j, i) && InstrMentions(i, x)
    ensures Mentions(Caller(j), {}, x) || Fresh(j, x)
  {
    hide Sound, Mentions;
    Shape(j);
    var o :| Contains(Inner(j).code, o) && i == CloneInstr(o, j.c.remap);
    if Target(i) == Some(x) {
      TargetFresh(j, o);
    } else {
      var k :| 0 <= k < |Uses(i)| && Uses(i)[k] == Var(x);
      assert Renamed(j.c.remap, Uses(o)[k]) == Var(x);
      OperandMentions(j, o, k, x);
    }
  }

  lemma OperandMentions(j: Job, o: Instr, k: nat, x: Name)
    requires Sound(j) && Contains(Inner(j).code, o) && k < |Uses(o)| && Renamed(j.c.remap, Uses(o)[k]) == Var(x)
    ensures Mentions(Caller(j), {}, x) || Fresh(j, x)
  {
    hide Sound, Mentions, Fresh;
    Shape(j);
    var y := Uses(o)[k].name;
    assert Var(y) in Uses(o);
    MentionedIn(Inner(j), o, y);
    OperandOrigin(j, y, x);
    if !Fresh(j, x) {
      CallMentions(j, x);
    }
  }

  lemma TermMentions(j: Job, c: nat, o: Operand, x: Name)
    requires Sound(j) && c < |Inner(j).code| && o in TermUses(Inner(j).code[c].term) && Renamed(j.c.remap, o) == Var(x)
    ensures Mentions(Caller(j), {}, x) || Fresh(j, x)
  {
    hide Sound, Fresh;
    Shape(j);
    assert o == Var(o.name);
    assert Mentions(Inner(j), {}, o.name);
    hide Mentions;
    OperandOrigin(j, o.name, x);
    if !Fresh(j, x) {
      CallMentions(j, x);
    }
  }

  lemma HandedMentions(j: Job, i: Instr, x: Name)
    requires Sound(j) && HandsOver(j, i) && InstrMentions(i, x)
    ensures Mentions(Caller(j), {}, x) || Fresh(j, x)
  {
    hide Sound, Mentions, Tail;
    Shape(j);
    var c :| 0 <= c < |Inner(j).code| && i in Tail(Inner(j).code[c].term, j.c.call, j.c.remap);
    HandedIsMove(j, c, i);
    if Target(i) == Some(x) {
      CallMentions(j, x);
    } else {
      TermMentions(j, c, Inner(j).code[c].term.value.value, x);
    }
  }

  lemma OldTermMentions(f: Fn, b: nat, x: Name)
    requires b < |f.code| && Var(x) in TermUses(f.code[b].term)
    ensures Mentions(f, {}, x)
  {
  }

  /** Terminators afterwards are the old ones, jumps, or copies. */
  lemma TermOrigin(j: Job, b: nat, x: Name)
    requires Sound(j) && b < |After(j)| && Var(x) in TermUses(After(j)[b].term)
    ensures Mentions(Caller(j), {}, x) || Fresh(j, x)
  {
    hide Sound, Mentions, Fresh;
    Shape(j);
    if b < Base(j) && b != j.c.b {
      OtherBlockIs(j, b);
      OldTermMentions(Caller(j), b, x);
    } else if b == j.c.b || b == Cont(j) {
      SplitBlockIs(j);
      OldTermMentions(Caller(j), j.c.b, x);
    } else {
      var c := b - Base(j);
      CopiedTerm(j, c);
      TermMentions(j, c, Inner(j).code[c].term.cond, x);
    }
  }

  /** Every name afterwards was there before or is new. */
  lemma MentionOrigin(j: Job, x: Name)
    requires Sound(j) && Sized(j) && Mentions(j.q[j.c.g], {}, x)
    ensures Mentions(Caller(j), {}, x) || Fresh(j, x)
  {
    Shape(j);
    if x !in Caller(j).params {
      var i, b := MentionedBy(j.q[j.c.g], x);
      hide Sound, Mentions, Fresh;
      if Var(x) in TermUses(After(j)[b].term) {
        TermOrigin(j, b, x);
      } else {
        Origin(j, b, i);
        if Contains(Caller(j).code, i) {
          MentionedIn(Caller(j), i, x);
        } else if IsCopy(j, i) {
          CopyMentions(j, i, x);
        } else {
          HandedMentions(j, i, x);
        }
      }
    }
  }

  lemma FreshDefined(j: Job, x: Name)
    requires Sound(j) && Sized(j) && Fresh(j, x)
    ensures Defines(j.q[j.c.g], x) && !Mentions(Caller(j), j.s[j.c.g], x)
  {
    hide Sound, Mentions, Defines;
    Shape(j);
    var y :| Defines(Inner(j), y) && y in j.c.remap && j.c.remap[y] == Var(x);
    FreshName(j, y);
    CopyDefines(j, y);
  }

  lemma TargetOrigin(j: Job, x: Name)
    requires Sound(j) && Sized(j) && Defines(j.q[j.c.g], x)
    ensures Defines(Caller(j), x) || Fresh(j, x)
  {
    hide Sound, Fresh;
    Shape(j);
    var b, k :| 0 <= b < |After(j)| && 0 <= k < |After(j)[b].body| && Target(After(j)[b].body[k]) == Some(x);
    var i := After(j)[b].body[k];
    Origin(j, b, i);
    if Contains(Caller(j).code, i) {
      ContainsDefines(Caller(j), i, x);
    } else if IsCopy(j, i) {
      var o :| Contains(Inner(j).code, o) && i == CloneInstr(o, j.c.remap);
      TargetFresh(j, o);
    } else {
      CallDefines(j, i, x);
    }
  }

  lemma ContainsDefines(f: Fn, i: Instr, x: Name)
    requires Contains(f.code, i) && Target(i) == Some(x)
    ensures Defines(f, x)
  {
    var b: nat, k: nat :| Has(f.code, b, k) && f.code[b].body[k] == i;
    Defining(f, b, i, x);
  }

  lemma CallDefines(j: Job, i: Instr, x: Name)
    requires Sound(j) && HandsOver(j, i) && Target(i) == Some(x)
    ensures Defines(Caller(j), x)
  {
    Shape(j);
    hide Sound, Tail;
    var c :| 0 <= c < |Inner(j).code| && i in Tail(Inner(j).code[c].term, j.c.call, j.c.remap);
    HandedIsMove(j, c, i);
    Defining(Caller(j), j.c.b, j.c.call, x);
  }

  /** Parameters are still never redefined, and every variable still has a definition. */
  lemma NamesKept(j: Job)
    requires Sound(j) && Sized(j) && NamesOk(Caller(j)) && CallValued(j)
    ensures NamesOk(j.q[j.c.g])
  {
    hide Sound, Mentions, Defines, Fresh, CallValued;
    Shape(j);
    var f := j.q[j.c.g];
    forall x | x in f.params
      ensures !Defines(f, x)
    {
      if Defines(f, x) {
        TargetOrigin(j, x);
        FreshNotParam(j, x);
      }
    }
    forall x | Mentions(f, {}, x)
      ensures x in f.params || Defines(f, x)
    {
      MentionOrigin(j, x);
      if Fresh(j, x) {
        FreshDefined(j, x);
      } else if x !in f.params {
        DefinesStays(j, x);
      }
    }
  }

  lemma FreshNotParam(j: Job, x: Name)
    requires Sound(j) && Sized(j) && x in Caller(j).params
    ensures !Fresh(j, x)
  {
    hide Sound, Defines, Fresh, Mentions;
    if Fresh(j, x) {
      ParamMentioned(Caller(j), j.s[j.c.g], x);
      FreshDefined(j, x);
    }
  }

  lemma ParamMentioned(f: Fn, slots: set<Name>, x: Name)
    requires x in f.params
    ensures Mentions(f, slots, x)
  {
  }

  // ---- Slots ----

  lemma NewSlotIsFresh(j: Job, x: Name)
    requires Sound(j) && x in j.t[j.c.g]
    ensures x in j.s[j.c.g] || Fresh(j, x)
    ensures x !in j.s[j.c.g] ==> !Mentions(Caller(j), j.s[j.c.g], x)
  {
    if x !in j.s[j.c.g] {
      var y := NewSlotFresh(j, x);
    }
  }

  lemma MoreMentions(f: Fn, slots: set<Name>, x: Name)
    requires Mentions(f, {}, x)
    ensures Mentions(f, slots, x)
  {
  }

  /** An operand of a copy is no slot unless the operand of the callee is. */
  lemma OperandNoSlot(j: Job, o: Operand, p: Name)
    requires Sound(j) && p in j.t[j.c.g] && (o.Var? ==> Mentions(Inner(j), {}, o.name) && o.name !in j.s[j.c.h])
    ensures Renamed(j.c.remap, o) != Var(p)
  {
    Shape(j);
    SiteFacts(j);
    hide Sound, Mentions;
    if o.Var? {
      assert o.name in j.c.remap;
      NotASlot(j, o.name, p);
    }
  }

  lemma MentionedWith(f: Fn, slots: set<Name>, i: Instr, x: Name)
    requires Contains(f.code, i)
    ensures InstrMentions(i, x) ==> Mentions(f, slots, x)
  {
    hide Mentions;
    if InstrMentions(i, x) {
      MentionedIn(f, i, x);
      MoreMentions(f, slots, x);
    }
  }

  lemma OldSlotUse(j: Job, i: Instr)
    requires Sound(j) && Sized(j) && Contains(Caller(j).code, i)
    ensures SlotUse(i, j.t[j.c.g])
  {
    hide Sound, Mentions, SlotUse;
    Shape(j);
    var slots, more := j.s[j.c.g], j.t[j.c.g];
    OldUse(j, i);
    forall x | x in more && x !in slots
      ensures !InstrMentions(i, x)
    {
      NewSlotIsFresh(j, x);
      MentionedWith(Caller(j), slots, i, x);
    }
    SlotsGrow(j);
    SameAccess(i, slots, more);
    SameSlotUse(i, slots, more);
  }

  lemma OldUse(j: Job, i: Instr)
    requires Sound(j) && Contains(Caller(j).code, i)
    ensures SlotUse(i, j.s[j.c.g])
  {
    hide SlotUse;
    SiteFacts(j);
  }

  lemma SlotsGrow(j: Job)
    requires Sound(j)
    ensures j.s[j.c.g] <= j.t[j.c.g]
  {
  }

  lemma SameSlotUse(i: Instr, slots: set<Name>, more: set<Name>)
    requires slots <= more && SlotUse(i, slots) && AccessOf(i, more) == AccessOf(i, slots)
    requires forall x :: x in more && x !in slots ==> !InstrMentions(i, x)
    ensures SlotUse(i, more)
  {
    forall p | p in more
      ensures AccessOf(i, slots).Other? ==> Var(p) !in Uses(i)
      ensures AccessOf(i, slots).StoreTo? ==> AccessOf(i, slots).value != Var(p)
    {
      assert p !in slots ==> !InstrMentions(i, p);
    }
  }

  lemma CopySlotUse(j: Job, i: Instr)
    requires Sound(j) && Sized(j) && IsCopy(j, i)
    ensures SlotUse(i, j.t[j.c.g])
  {
    Shape(j);
    var o :| Contains(Inner(j).code, o) && i == CloneInstr(o, j.c.remap);
    assert SlotUse(o, j.s[j.c.h]) by {
      SiteFacts(j);
    }
    OriginalCopies(j, o);
    hide Sound, IsCopy, Contains;
    CopySlots(o, j.s[j.c.h], j.c.remap, j.t[j.c.g]);
  }

  lemma OriginalCopies(j: Job, o: Instr)
    requires Sound(j) && Contains(Inner(j).code, o)
    ensures Copies(o, j.s[j.c.h], j.c.remap, j.t[j.c.g])
  {
    hide Sound, Copies;
    Shape(j);
    var b: nat, k: nat :| Has(Inner(j).code, b, k) && Inner(j).code[b].body[k] == o;
    CalleeCopies(j, b, k);
  }

  /** A copy uses the copied slots as the original uses the slots. */
  lemma CopySlots(i: Instr, slots: set<Name>, remap: Remap, more: set<Name>)
    requires Copies(i, slots, remap, more) && SlotUse(i, slots)
    ensures SlotUse(CloneInstr(i, remap), more)
  {
    CopiedAccess(i, slots, remap, more);
    if Target(i).Some? && Target(i).value !in slots {
      TargetNoSlot(i, slots, remap, more);
    }
    hide Copies, CloneInstr, NewName;
    forall k, p | 0 <= k < |Uses(i)| && p in more && !(Uses(i)[k].Var? && Uses(i)[k].name in slots)
      ensures Renamed(remap, Uses(i)[k]) != Var(p)
    {
      CopiedOperand(i, slots, remap, more, Uses(i)[k]);
    }
    UsesOf(i, remap);
    hide Renamed;
    match AccessOf(i, slots)
    case StoreTo(_, v) => assert i.args[0] == v;
    case Other =>
      forall p | p in more
        ensures Var(p) !in Uses(CloneInstr(i, remap))
      {
        forall k | 0 <= k < |Uses(i)|
          ensures Uses(CloneInstr(i, remap))[k] != Var(p)
        {
          assert Uses(i)[k] in Uses(i);
          assert Uses(i)[k].Var? ==> Uses(i)[k] == Var(Uses(i)[k].name);
        }
      }
    case _ =>
  }

  lemma UsesOf(i: Instr, remap: Remap)
    ensures |Uses(CloneInstr(i, remap))| == |Uses(i)|
    ensures forall k :: 0 <= k < |Uses(i)| ==> Uses(CloneInstr(i, remap))[k] == Renamed(remap, Uses(i)[k])
    ensures Target(CloneInstr(i, remap)) == if Target(i).Some? then Some(NewName(remap, Target(i).value)) else None
  {
  }

  lemma TargetNoSlot(i: Instr, slots: set<Name>, remap: Remap, more: set<Name>)
    requires Copies(i, slots, remap, more) && Target(i).Some? && Target(i).value !in slots
    ensures NewName(remap, Target(i).value) !in more
  {
    assert InstrMentions(i, Target(i).value);
    assert remap[Target(i).value] == Var(NewName(remap, Target(i).value));
  }

  lemma HandedSlotUse(j: Job, i: Instr)
    requires Sound(j) && Sized(j) && HandsOver(j, i)
    ensures SlotUse(i, j.t[j.c.g])
  {
    hide Sound, Tail, Mentions;
    Shape(j);
    var c :| 0 <= c < |Inner(j).code| && i in Tail(Inner(j).code[c].term, j.c.call, j.c.remap);
    HandedIsMove(j, c, i);
    var o := Inner(j).code[c].term.value.value;
    assert o in TermUses(Inner(j).code[c].term);
    forall p | p in j.t[j.c.g]
      ensures Renamed(j.c.remap, o) != Var(p) && Target(i) != Some(p)
    {
      if o.Var? {
        TermNoSlot(j, c, o);
      }
      OperandNoSlot(j, o, p);
      CallTargetNoSlot(j, p);
    }
  }

  lemma TermNoSlot(j: Job, c: nat, o: Operand)
    requires Sound(j) && c < |Inner(j).code| && o in TermUses(Inner(j).code[c].term) && o.Var?
    ensures Mentions(Inner(j), {}, o.name) && o.name !in j.s[j.c.h]
  {
    SiteFacts(j);
    assert o == Var(o.name);
    hide Sound;
  }

  lemma CallTargetNoSlot(j: Job, p: Name)
    requires Sound(j) && p in j.t[j.c.g]
    ensures Target(j.c.call) != Some(p)
  {
    if p in j.s[j.c.g] {
      CallArgs(j, p);
    } else {
      NewSlotIsFresh(j, p);
      hide Sound, Mentions;
      if Target(j.c.call) == Some(p) {
        CallMentions(j, p);
        Shape(j);
        MoreMentions(Caller(j), j.s[j.c.g], p);
      }
    }
  }

  lemma SlotUseKept(j: Job, b: nat, i: Instr)
    requires Sound(j) && Sized(j) && b < |After(j)| && i in After(j)[b].body
    ensures SlotUse(i, j.t[j.c.g])
  {
    hide Sound, SlotUse, Contains, IsCopy, HandsOver;
    Shape(j);
    Origin(j, b, i);
    if Contains(Caller(j).code, i) {
      OldSlotUse(j, i);
    } else if IsCopy(j, i) {
      CopySlotUse(j, i);
    } else {
      HandedSlotUse(j, i);
    }
  }

  lemma OldTermNoSlot(j: Job, c: nat, p: Name)
    requires Sound(j) && c < |Caller(j).code| && p in j.t[j.c.g]
    ensures Var(p) !in TermUses(Caller(j).code[c].term)
  {
    Shape(j);
    if p in j.s[j.c.g] {
      SiteFacts(j);
    } else {
      NewSlotIsFresh(j, p);
    }
  }

  lemma SlotTermKept(j: Job, b: nat, p: Name)
    requires Sound(j) && Sized(j) && b < |After(j)| && p in j.t[j.c.g]
    ensures Var(p) !in TermUses(After(j)[b].term)
  {
    hide Sound, Mentions;
    Shape(j);
    if b < Base(j) && b != j.c.b {
      OtherBlockIs(j, b);
      OldTermNoSlot(j, b, p);
    } else if b == j.c.b || b == Cont(j) {
      SplitBlockIs(j);
      OldTermNoSlot(j, j.c.b, p);
    } else {
      var c := b - Base(j);
      CopiedTerm(j, c);
      if Inner(j).code[c].term.Branch? {
        var o := Inner(j).code[c].term.cond;
        assert o in TermUses(Inner(j).code[c].term);
        if o.Var? {
          TermNoSlot(j, c, o);
        }
        OperandNoSlot(j, o, p);
      }
    }
  }

  lemma SlotDefined(j: Job, p: Name)
    requires Sound(j) && Sized(j) && CallValued(j) && p in j.t[j.c.g]
    ensures Defines(j.q[j.c.g], p) && p !in j.q[j.c.g].params
  {
    Shape(j);
    NewSlotIsFresh(j, p);
    if p in j.s[j.c.g] {
      SiteFacts(j);
      DefinesStays(j, p);
    } else {
      FreshDefined(j, p);
    }
  }

  lemma SlotsKept(j: Job)
    requires Sound(j) && Sized(j) && CallValued(j)
    ensures SlotsOk(j.q[j.c.g], j.t[j.c.g])
  {
    hide Sound, SlotUse, Defines, CallValued;
    Shape(j);
    var f, slots := j.q[j.c.g], j.t[j.c.g];
    forall b, k | 0 <= b < |f.code| && 0 <= k < |f.code[b].body|
      ensures SlotUse(f.code[b].body[k], slots)
    {
      SlotUseKept(j, b, f.code[b].body[k]);
    }
    forall b, p | 0 <= b < |f.code| && p in slots
      ensures Var(p) !in TermUses(f.code[b].term)
    {
      SlotTermKept(j, b, p);
    }
    forall p | p in slots
      ensures Defines(f, p) && p !in f.params
    {
      SlotDefined(j, p);
    }
  }

  // ---- Calls ----

  lemma OldCallee(j: Job, i: Instr)
    requires Sound(j)
    ensures Callee(j.q, i) == Callee(j.p, i)
  {
    SameCallee(j, i, map[]);
    CloneIdentity(i);
  }

  /** Each call afterwards was there before, with a result if it has one. */
  lemma CallOrigin(j: Job, f: nat, i: Instr, k: nat) returns (g: nat, o: Instr)
    requires Sound(j) && Sized(j) && f < |j.q| && Contains(j.q[f].code, i) && Callee(j.q, i) == Some(k)
    ensures g < |j.p| && Contains(j.p[g].code, o) && Callee(j.p, o) == Some(k) && (Target(o).Some? <==> Target(i).Some?)
  {
    hide Sound, Callee, CloneInstr, HandsOver;
    Shape(j);
    OldCallee(j, i);
    g, o := f, i;
    if f == j.c.g {
      var b: nat, n: nat :| Has(After(j), b, n) && After(j)[b].body[n] == i;
      Origin(j, b, i);
      if !Contains(Caller(j).code, i) {
        if IsCopy(j, i) {
          o :| Contains(Inner(j).code, o) && i == CloneInstr(o, j.c.remap);
          g := j.c.h;
          SameCallee(j, o, j.c.remap);
          UsesOf(o, j.c.remap);
        } else {
          HandedNoCall(j, i);
        }
      }
    }
  }

  lemma HandedNoCall(j: Job, i: Instr)
    requires Sound(j) && HandsOver(j, i)
    ensures Callee(j.p, i).None?
  {
    hide Sound, Tail;
    Shape(j);
    var c :| 0 <= c < |Inner(j).code| && i in Tail(Inner(j).code[c].term, j.c.call, j.c.remap);
    HandedIsMove(j, c, i);
  }

  lemma CalledBefore(j: Job, k: nat)
    requires Sound(j) && Sized(j) && Called(j.q, k)
    ensures Called(j.p, k)
  {
    hide Sound, Callee, Contains;
    var f: nat, i :| f < |j.q| && Contains(j.q[f].code, i) && Callee(j.q, i) == Some(k);
    var g, o := CallOrigin(j, f, i, k);
  }

  lemma ReturnsKept(j: Job, k: nat)
    requires Sound(j) && Sized(j) && k < |j.p| && ReturnsValue(j.p[k].code)
    ensures ReturnsValue(j.q[k].code)
  {
    hide Sound;
    Shape(j);
    if k == j.c.g {
      var b :| 0 <= b < |Caller(j).code| && Caller(j).code[b].term.Return? && Caller(j).code[b].term.value.Some?;
      if b == j.c.b {
        SplitBlockIs(j);
        assert After(j)[Cont(j)].term == Caller(j).code[b].term;
      } else {
        OtherBlockIs(j, b);
        assert After(j)[b].term == Caller(j).code[b].term;
      }
    }
  }

  lemma ValuedKept(j: Job)
    requires Sound(j) && Sized(j) && Valued(j.p)
    ensures Valued(j.q)
  {
    hide Sound, Callee, Contains, ReturnsValue;
    Shape(j);
    forall f: nat, i, k | f < |j.q| && Contains(j.q[f].code, i) && Callee(j.q, i) == Some(k) && Target(i).Some? &&
        j.q[k].code != []
      ensures ReturnsValue(j.q[k].code)
    {
      var g, o := CallOrigin(j, f, i, k);
      assert j.p[k].code != [] by {
        assert k == j.c.g ==> j.c.b < Base(j);
      }
      ReturnsKept(j, k);
    }
  }

  /** Every alloca of the caller still belongs to a private slot. */
  lemma PrivateKept(j: Job)
    requires Sound(j) && Sized(j) && AllPrivate(Caller(j), j.s[j.c.g])
    ensures AllPrivate(j.q[j.c.g], j.t[j.c.g])
  {
    hide Sound, IsCopy, HandsOver;
    Shape(j);
    var f, slots := j.q[j.c.g], j.t[j.c.g];
    forall b, k | 0 <= b < |f.code| && 0 <= k < |f.code[b].body| && IsAlloca(f.code[b].body[k])
      ensures AccessOf(f.code[b].body[k], slots).AllocaOf?
    {
      var i := f.code[b].body[k];
      Origin(j, b, i);
      if Contains(Caller(j).code, i) {
        SlotsGrow(j);
      } else if IsCopy(j, i) {
        CopyPrivate(j, i);
      } else {
        HandedNoAlloca(j, i);
      }
    }
  }

  lemma HandedNoAlloca(j: Job, i: Instr)
    requires Sound(j) && HandsOver(j, i)
    ensures !IsAlloca(i)
  {
    hide Sound, Tail;
    Shape(j);
    var c :| 0 <= c < |Inner(j).code| && i in Tail(Inner(j).code[c].term, j.c.call, j.c.remap);
    HandedIsMove(j, c, i);
  }

  lemma CopyPrivate(j: Job, i: Instr)
    requires Sound(j) && IsCopy(j, i) && IsAlloca(i)
    ensures AccessOf(i, j.t[j.c.g]).AllocaOf?
  {
    hide Sound, AccessOf, CloneInstr;
    Shape(j);
    var o :| Contains(Inner(j).code, o) && i == CloneInstr(o, j.c.remap);
    SameKind(o, j.c.remap);
    var b: nat, k: nat :| Has(Inner(j).code, b, k) && Inner(j).code[b].body[k] == o;
    HoistedIsSlot(j, b, k);
  }

  /** The program is ready for the next call to be inlined. */
  lemma SafeKept(j: Job)
    requires Sound(j) && Sized(j) && Safe(j.p, j.s) && CallValued(j)
    ensures Safe(j.q, j.t)
  {
    hide Sound, Valued, NamesOk, SlotsOk, AllPrivate, Called, CallValued;
    Shape(j);
    ValuedKept(j);
    NamesKept(j);
    SlotsKept(j);
    forall k | 0 <= k < |j.q| && Called(j.q, k)
      ensures AllPrivate(j.q[k], j.t[k])
    {
      CalledBefore(j, k);
      if k == j.c.g {
        PrivateKept(j);
      }
    }
  }

  // ---- Allocas at the entry ----

  /** All allocas stand at the front of the entry, where mem2reg looks for them. */
  ghost predicate AllocasFirst(code: Func) {
    && (forall b: nat, k: nat :: Has(code, b, k) && IsAlloca(code[b].body[k]) ==> b == 0)
    && (forall i: nat, k: nat :: i <= k && Has(code, 0, k) && IsAlloca(code[0].body[k]) ==> IsAlloca(code[0].body[i]))
  }

  lemma AllocasStayFirst(j: Job)
    requires Sound(j) && Sized(j) && AllocasFirst(Caller(j).code)
    ensures AllocasFirst(After(j))
  {
    hide Sound;
    Shape(j);
    EntryGetsAllocas(j);
    forall b: nat, k: nat | Has(After(j), b, k) && IsAlloca(After(j)[b].body[k])
      ensures b == 0
    {
      AllocaPlace(j, b, k);
    }
    forall i: nat, k: nat | i <= k && Has(After(j), 0, k) && IsAlloca(After(j)[0].body[k])
      ensures IsAlloca(After(j)[0].body[i])
    {
      if i < |j.hoisted| {
        HoistedIsCopy(j, j.hoisted[i]);
      } else {
        OldEntry(j, i);
        OldEntry(j, k);
        assert Has(Caller(j).code, 0, k - |j.hoisted|) && IsAlloca(Caller(j).code[0].body[k - |j.hoisted|]);
      }
    }
  }

  /** Behind the hoisted allocas the entry is the old one, at least up to the call. */
  lemma OldEntry(j: Job, i: nat)
    requires Sound(j) && Sized(j) && |After(j)| > 0 && |j.hoisted| <= i < |After(j)[0].body|
    ensures |Caller(j).code| > 0 && i - |j.hoisted| < |Caller(j).code[0].body| &&
        After(j)[0].body[i] == Caller(j).code[0].body[i - |j.hoisted|]
  {
    hide Sound;
    Shape(j);
    if j.c.b == 0 {
      SplitBlockIs(j);
    } else {
      OtherBlockIs(j, 0);
    }
  }

  lemma AllocaAtEntry(code: Func, b: nat, k: nat)
    requires AllocasFirst(code) && Has(code, b, k) && IsAlloca(code[b].body[k])
    ensures b == 0
  {
  }

  lemma NoAllocaAfter(code: Func, b: nat, at: nat, k: nat)
    requires AllocasFirst(code) && Has(code, b, k) && at < k && !IsAlloca(code[b].body[at])
    ensures !IsAlloca(code[b].body[k])
  {
  }

  lemma AllocaPlace(j: Job, b: nat, k: nat)
    requires Sound(j) && Sized(j) && AllocasFirst(Caller(j).code) && Has(After(j), b, k) &&
        IsAlloca(After(j)[b].body[k])
    ensures b == 0
  {
    hide Sound, CloneBody, Tail, AllocasFirst;
    Shape(j);
    var i := After(j)[b].body[k];
    if b < Base(j) && b != j.c.b {
      OtherBlockIs(j, b);
      if b != 0 {
        AllocaAtEntry(Caller(j).code, b, k);
      }
    } else if b == j.c.b {
      SplitBlockIs(j);
      if b != 0 {
        assert Caller(j).code[b].body[k] == i;
        AllocaAtEntry(Caller(j).code, b, k);
      }
    } else if b == Cont(j) {
      SplitBlockIs(j);
      var body, at := Caller(j).code[j.c.b].body, |j.c.before| + 1 + k;
      assert body[at] == i && body[|j.c.before|] == j.c.call;
      NoAllocaAfter(Caller(j).code, j.c.b, |j.c.before|, at);
    } else {
      CopiedNoAlloca(j, b - Base(j), i);
    }
  }

  lemma CopiedNoAlloca(j: Job, c: nat, i: Instr)
    requires Sound(j) && c < |Inner(j).code| && Base(j) + c < |After(j)| && i in After(j)[Base(j) + c].body
    ensures !IsAlloca(i)
  {
    hide Sound, CloneBody, Tail;
    Shape(j);
    CopiedBlockIs(j, c);
    if i in CloneBody(Inner(j).code[c].body, j.c.remap) {
      CopiedIsCopy(j, c, i);
    } else {
      HandedIsMove(j, c, i);
    }
  }
}
