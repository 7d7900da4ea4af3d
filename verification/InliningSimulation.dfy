/** Running the inlined code keeps step with running the call. */
module InliningSimulation {
  import opened IR
  import opened SsaForms
  import opened Inlining
  import opened InliningRuns

  // ---- Stacks of the original program ----

  ghost predicate Known(f: Fn, x: Name) {
    x in f.params || Defines(f, x)
  }

  predicate SuffixOf(a: seq<Instr>, b: seq<Instr>) {
    |a| <= |b| && a == b[|b| - |a|..]
  }

  /** What is left to do is the end of the block, and only parameters and results have values. */
  ghost predicate FrameWf(j: Job, fr: Frame) {
    && FrameOk(j.p, j.s, fr) && SuffixOf(fr.rest, Kept(j.p[fr.fn].code[fr.block].body, j.s[fr.fn]))
    && (fr.fn == j.c.g || fr.fn == j.c.h ==> forall x :: x in fr.env ==> Known(j.p[fr.fn], x))
  }

  function Last<T>(s: seq<T>): T
    requires s != []
  {
    s[|s| - 1]
  }

  function Init<T>(s: seq<T>): (r: seq<T>)
    requires s != []
    ensures s == r + [Last(s)]
  {
    s[..|s| - 1]
  }

  lemma Ends<T>(s: seq<T>, x: T)
    ensures Init(s + [x]) == s && Last(s + [x]) == x
  {
  }

  /** The frame is at a call of function `k`. */
  predicate Calling(j: Job, fr: Frame, k: nat) {
    fr.rest != [] && Callee(j.p, fr.rest[0]) == Some(k)
  }

  /** Every frame below the top waits at the call that made the frame above it. */
  ghost predicate StackWf(j: Job, fs: seq<Frame>) {
    fs == [] || (FrameWf(j, Last(fs)) && StackWf(j, Init(fs)) &&
      (Init(fs) == [] || Calling(j, Last(Init(fs)), Last(fs).fn)))
  }

  lemma WfPush(j: Job, fs: seq<Frame>, fr: Frame)
    ensures StackWf(j, fs + [fr]) <==> FrameWf(j, fr) && StackWf(j, fs) && (fs == [] || Calling(j, Last(fs), fr.fn))
  {
    Ends(fs, fr);
    hide FrameWf, Calling, Init, Last;
  }

  lemma {:induction false} KeptFrom(body: seq<Instr>, slots: set<Name>, k: nat) returns (i: nat)
    requires k < |Kept(body, slots)|
    ensures i < |body| && Kept(body, slots)[k] == SlotInstr(body[i], slots) && !AccessOf(body[i], slots).AllocaOf?
  {
    hide SlotInstr, AccessOf;
    if AccessOf(body[0], slots).AllocaOf? {
      i := KeptFrom(body[1..], slots, k);
      i := i + 1;
    } else if k == 0 {
      i := 0;
    } else {
      i := KeptFrom(body[1..], slots, k - 1);
      i := i + 1;
    }
  }

  /** Results of the instructions that do something are defined by the function. */
  lemma KeptTarget(f: Fn, slots: set<Name>, b: nat, k: nat)
    requires SlotsOk(f, slots) && b < |f.code| && k < |Kept(f.code[b].body, slots)| &&
        Target(Kept(f.code[b].body, slots)[k]).Some?
    ensures Defines(f, Target(Kept(f.code[b].body, slots)[k]).value)
  {
    hide Kept, SlotUse;
    var i := KeptFrom(f.code[b].body, slots, k);
    var ins := f.code[b].body[i];
    if Target(ins).Some? {
      assert Defines(f, Target(ins).value);
    }
  }

  lemma SiteFacts(j: Job)
    requires Sound(j)
    ensures SlotsOk(Caller(j), j.s[j.c.g]) && SlotsOk(Inner(j), j.s[j.c.h]) && NamesOk(Inner(j)) &&
        RemapOk(Caller(j), j.s[j.c.g], Inner(j), j.c)
  {
  }

  /** The frame after its next instruction. */
  function Advanced(fr: Frame, e: Env): Frame
    requires fr.rest != []
  {
    fr.(rest := fr.rest[1..], env := e)
  }

  lemma NextTarget(j: Job, fr: Frame)
    requires Sound(j) && FrameWf(j, fr) && fr.rest != [] && Target(fr.rest[0]).Some? &&
        (fr.fn == j.c.g || fr.fn == j.c.h)
    ensures Defines(j.p[fr.fn], Target(fr.rest[0]).value)
  {
    SiteFacts(j);
    hide Sound, SlotsOk, Defines;
    var all := Kept(j.p[fr.fn].code[fr.block].body, j.s[fr.fn]);
    assert all[|all| - |fr.rest|] == fr.rest[0];
    KeptTarget(j.p[fr.fn], j.s[fr.fn], fr.block, |all| - |fr.rest|);
  }

  lemma WfAdvance(j: Job, fr: Frame, e: Env)
    requires Sound(j) && FrameWf(j, fr) && fr.rest != [] && forall x :: x in e ==>
        x in fr.env || Target(fr.rest[0]) == Some(x)
    ensures FrameWf(j, Advanced(fr, e))
  {
    hide Sound, Kept, SuffixOf, Defines;
    if Target(fr.rest[0]).Some? && (fr.fn == j.c.g || fr.fn == j.c.h) {
      NextTarget(j, fr);
    }
    SuffixTail(fr.rest, Kept(j.p[fr.fn].code[fr.block].body, j.s[fr.fn]));
  }

  lemma SuffixTail(a: seq<Instr>, b: seq<Instr>)
    requires SuffixOf(a, b) && a != []
    ensures SuffixOf(a[1..], b)
  {
    assert a[1..] == b[|b| - |a[1..]|..];
  }

  lemma ExecKeys(w: World, i: Instr, s: State)
    requires Exec(w, i, s).Some?
    ensures forall x :: x in Exec(w, i, s).value.env ==> x in s.env || Target(i) == Some(x)
  {
    hide ArithValue, CmpHolds;
  }

  lemma {:induction false} BindValues(params: seq<Name>, vs: seq<Int32>)
    requires |params| == |vs|
    ensures forall x :: x in Bind(params, vs) <==> x in params
    ensures (forall a, b :: 0 <= a < b < |params| ==> params[a] != params[b]) ==> forall k :: 0 <= k < |params| ==>
        Bind(params, vs)[params[k]] == vs[k]
  {
    if params != [] {
      BindValues(params[..|params| - 1], vs[..|vs| - 1]);
      assert params == params[..|params| - 1] + [params[|params| - 1]];
    }
  }

  lemma WfEnter(j: Job, k: nat, b: nat, e: Env)
    requires k < |j.p| == |j.s| && b < |j.p[k].code| && forall x :: x in e ==> Known(j.p[k], x)
    ensures FrameWf(j, Enter(j.p, j.s, k, b, e))
  {
  }

  // ---- Which frame of the inlined program belongs to which frames of the original ----

  /** The frame waits at the inlined call, or is about to make it. */
  predicate AtSite(j: Job, fr: Frame)
    requires j.c.g < |j.s|
  {
    fr.fn == j.c.g && fr.block == j.c.b && |fr.rest| == |AfterCall(j)| + 1
  }

  /** The ends of a sequence around one element. */
  lemma EndOf(a: seq<Instr>, x: seq<Instr>, c: Instr, y: seq<Instr>)
    requires SuffixOf(a, x + [c] + y)
    ensures |a| <= |y| ==> SuffixOf(a, y)
    ensures |a| == |y| + 1 ==> a == [c] + y
    ensures |a| > |y| ==> exists b :: SuffixOf(b, x) && a == b + [c] + y
  {
    var all := x + [c] + y;
    var d := |all| - |a|;
    if |a| <= |y| {
      assert all[d..] == y[|y| - |a|..];
    } else {
      assert all[d..] == x[d..] + [c] + y;
      assert SuffixOf(x[d..], x);
      if |a| == |y| + 1 {
        assert x[d..] == [];
      }
    }
  }

  lemma AtSiteRest(j: Job, fr: Frame)
    requires Sound(j) && FrameWf(j, fr) && fr.fn == j.c.g && fr.block == j.c.b
    ensures |fr.rest| <= |AfterCall(j)| ==> SuffixOf(fr.rest, AfterCall(j))
    ensures AtSite(j, fr) ==> fr.rest == [j.c.call] + AfterCall(j)
    ensures AtSite(j, fr) ==> Calling(j, fr, j.c.h)
  {
    hide Sound, FrameWf, Kept, SuffixOf, BeforeCall, AfterCall, Callee;
    Shape(j);
    SiteBlock(j, fr);
    EndOf(fr.rest, BeforeCall(j), j.c.call, AfterCall(j));
  }

  lemma SiteBlock(j: Job, fr: Frame)
    requires Sound(j) && FrameWf(j, fr) && fr.fn == j.c.g && fr.block == j.c.b
    ensures SuffixOf(fr.rest, BeforeCall(j) + [j.c.call] + AfterCall(j))
  {
    hide Sound, Kept, SuffixOf, BeforeCall, AfterCall;
    SplitBlock(j);
  }

  /** A frame on top of `fs` and the frame below it are one frame of the inlined program. */
  predicate Paired(j: Job, fs: seq<Frame>)
    requires j.c.g < |j.s|
  {
    fs != [] && AtSite(j, Last(fs))
  }

  function Mode(j: Job, fs: seq<Frame>): Remap
    requires j.c.g < |j.s|
  {
    if Paired(j, fs) then j.c.remap else map[]
  }

  predicate Sized(j: Job) {
    j.c.g < |j.p| && j.c.h < |j.p| && |j.q| == |j.p| == |j.s| == |j.t|
  }

  predicate PlaceRel(j: Job, fs: seq<Frame>, fr: Frame, gr: Frame)
    requires Sized(j)
  {
    if Paired(j, fs) then
      && fr.fn == j.c.h && gr.fn == j.c.g && fr.block < |Inner(j).code| && gr.block == Base(j) + fr.block
      && gr.rest == CloneAll(fr.rest, j.c.remap) + Tail(Inner(j).code[fr.block].term, j.c.call, j.c.remap)
    else
      && gr.fn == fr.fn
      && if fr.fn != j.c.g || fr.block != j.c.b then gr.block == fr.block && gr.rest == fr.rest
         else if |fr.rest| > |AfterCall(j)| then gr.block == j.c.b && fr.rest == gr.rest + [j.c.call] + AfterCall(j)
         else gr.block == Cont(j) && gr.rest == fr.rest
  }

  ghost predicate EnvRel(j: Job, fs: seq<Frame>, e: Env, d: Env)
    requires Sized(j)
  {
    ClonedEnv(Mode(j, fs), e, d) && (Paired(j, fs) ==> ClonedEnv(map[], Last(fs).env, d))
  }

  /** The frame `fr` on top of `fs` runs as `gr` in the inlined program. */
  ghost predicate TopRel(j: Job, fs: seq<Frame>, fr: Frame, gr: Frame)
    requires Sized(j)
  {
    PlaceRel(j, fs, fr, gr) && EnvRel(j, fs, fr.env, gr.env)
  }

  /** The frames of `fs` that the frame on top does not stand for. */
  function Below(j: Job, fs: seq<Frame>): (r: seq<Frame>)
    requires Sized(j)
    ensures |r| <= |fs|
  {
    if Paired(j, fs) then Init(fs) else fs
  }

  ghost predicate StackRel(j: Job, fs: seq<Frame>, gs: seq<Frame>)
    requires Sized(j)
    decreases |fs|
  {
    if fs == [] then gs == []
    else gs != [] && TopRel(j, Init(fs), Last(fs), Last(gs)) && StackRel(j, Below(j, Init(fs)), Init(gs))
  }

  lemma RelPush(j: Job, fs: seq<Frame>, fr: Frame, gs: seq<Frame>, gr: Frame)
    requires Sized(j)
    ensures StackRel(j, fs + [fr], gs + [gr]) <==> TopRel(j, fs, fr, gr) && StackRel(j, Below(j, fs), gs)
  {
    Ends(fs, fr);
    Ends(gs, gr);
    hide TopRel, Below, Init, Last;
  }

  /** A frame at the call site is never itself a copy. */
  lemma SitesApart(j: Job, fs: seq<Frame>, fr: Frame)
    requires Sound(j) && Sized(j) && StackWf(j, fs + [fr])
    ensures Paired(j, fs) ==> fr.fn == j.c.h && fr.fn != j.c.g
  {
    WfPush(j, fs, fr);
    Shape(j);
    hide Sound, FrameWf;
    if Paired(j, fs) {
      WfPush(j, Init(fs), Last(fs));
      AtSiteRest(j, Last(fs));
    }
  }

  // ---- Values under their new names ----

  lemma IdentityApart(e: Env, x: Name)
    ensures Apart(map[], e, x) && NewName(map[], x) == x
  {
  }

  lemma FreshName(j: Job, x: Name)
    requires Sound(j) && Defines(Inner(j), x)
    ensures x in j.c.remap && j.c.remap[x] == Var(NewName(j.c.remap, x)) && !Known(Caller(j), NewName(j.c.remap, x))
    ensures !Mentions(Caller(j), j.s[j.c.g], NewName(j.c.remap, x))
  {
    SiteFacts(j);
    hide Sound, Mentions;
    KnownMentioned(Caller(j), j.s[j.c.g], NewName(j.c.remap, x));
  }

  lemma KnownMentioned(f: Fn, slots: set<Name>, x: Name)
    ensures Known(f, x) ==> Mentions(f, slots, x)
  {
    if Defines(f, x) {
      var b, k :| 0 <= b < |f.code| && 0 <= k < |f.code[b].body| && Target(f.code[b].body[k]) == Some(x);
      assert InstrMentions(f.code[b].body[k], x);
    }
  }

  lemma FreshApart(j: Job, e: Env, x: Name)
    requires Sound(j) && Defines(Inner(j), x) && forall y :: y in e ==> Known(Inner(j), y)
    ensures Apart(j.c.remap, e, x)
  {
    FreshName(j, x);
    SiteFacts(j);
    forall y | y in e && y != x
      ensures Renamed(j.c.remap, Var(y)) != Var(NewName(j.c.remap, x))
    {
      if y in Inner(j).params {
        ArgumentOf(j, y);
      }
    }
  }

  lemma ModeApart(j: Job, fs: seq<Frame>, fr: Frame)
    requires Sound(j) && Sized(j) && FrameWf(j, fr) && fr.rest != [] && Target(fr.rest[0]).Some? &&
        (Paired(j, fs) ==> fr.fn == j.c.h)
    ensures Apart(Mode(j, fs), fr.env, Target(fr.rest[0]).value)
  {
    var x := Target(fr.rest[0]).value;
    if Paired(j, fs) {
      NextTarget(j, fr);
      FreshApart(j, fr.env, x);
    } else {
      IdentityApart(fr.env, x);
    }
  }

  /** The copy writes nothing that the waiting caller knows. */
  lemma CallerKept(j: Job, e: Env, d: Env, d': Env, t: Option<Name>)
    requires Sound(j) && (forall y :: y in e ==> Known(Caller(j), y)) && ClonedEnv(map[], e, d) && OnlyChanges(d, d', t)
    requires t.Some? ==> !Known(Caller(j), t.value)
    ensures ClonedEnv(map[], e, d')
  {
    hide Sound, Known;
    forall y | y in e
      ensures Lookup(d', Renamed(map[], Var(y))) == Some(e[y])
    {
      assert Renamed(map[], Var(y)) == Var(y);
      assert Lookup(d, Var(y)) == Lookup(d', Var(y));
    }
  }

  /** The frame on top of `fs`, and the caller below it when the call has been inlined. */
  ghost predicate PairWf(j: Job, fs: seq<Frame>, fr: Frame)
    requires Sized(j)
  {
    FrameWf(j, fr) && (Paired(j, fs) ==> fr.fn == j.c.h && FrameWf(j, Last(fs)) && Last(fs).fn == j.c.g)
  }

  lemma PairedWf(j: Job, fs: seq<Frame>, fr: Frame)
    requires Sound(j) && Sized(j) && StackWf(j, fs + [fr])
    ensures PairWf(j, fs, fr)
  {
    WfPush(j, fs, fr);
    SitesApart(j, fs, fr);
    hide Sound, FrameWf;
  }

  lemma CallerKnows(j: Job, fr: Frame)
    requires Sized(j) && FrameWf(j, fr) && fr.fn == j.c.g
    ensures forall y :: y in fr.env ==> Known(Caller(j), y)
  {
  }

  lemma EnvExec(w: World, j: Job, fs: seq<Frame>, fr: Frame, d: Env, h: seq<Event>)
    requires Sound(j) && Sized(j) && PairWf(j, fs, fr) && EnvRel(j, fs, fr.env, d)
    requires fr.rest != [] && Exec(w, fr.rest[0], State(fr.env, h)).Some?
    ensures var r := Exec(w, CloneInstr(fr.rest[0], Mode(j, fs)), State(d, h));
        var t := Exec(w, fr.rest[0], State(fr.env, h)).value;
      r.Some? && r.value.history == t.history && EnvRel(j, fs, t.env, r.value.env)
  {
    var i := fr.rest[0];
    if Target(i).Some? {
      ModeApart(j, fs, fr);
    }
    ExecCloned(w, i, Mode(j, fs), fr.env, d, h);
    if Paired(j, fs) {
      if Target(i).Some? {
        NextTarget(j, fr);
        FreshName(j, Target(i).value);
      }
      hide Sound, Exec, CloneInstr;
      CallerKept(j, Last(fs).env, d, Exec(w, CloneInstr(i, Mode(j, fs)), State(d, h)).value.env,
        Target(CloneInstr(i, Mode(j, fs))));
    }
  }

  /** A result arrives under its new name. */
  lemma EnvResult(j: Job, fs: seq<Frame>, fr: Frame, d: Env, v: Int32)
    requires Sound(j) && Sized(j) && PairWf(j, fs, fr) && EnvRel(j, fs, fr.env, d) && fr.rest != [] &&
        Target(fr.rest[0]).Some?
    ensures var x := Target(fr.rest[0]).value; EnvRel(j, fs, fr.env[x := v], d[NewName(Mode(j, fs), x) := v])
  {
    var x := Target(fr.rest[0]).value;
    var d' := d[NewName(Mode(j, fs), x) := v];
    hide Sound, ClonedEnv, NewName, Apart, Known, FrameWf, AtSite;
    ModeApart(j, fs, fr);
    WriteCloned(Mode(j, fs), fr.env, d, x, v);
    if Paired(j, fs) {
      NextTarget(j, fr);
      FreshName(j, x);
      CallerKnows(j, Last(fs));
      CallerKept(j, Last(fs).env, d, d', Some(NewName(j.c.remap, x)));
    }
  }

  // ---- Places ----

  lemma PlaceOk(j: Job, fs: seq<Frame>, fr: Frame, gr: Frame)
    requires Sound(j) && Sized(j) && FrameWf(j, fr) && PlaceRel(j, fs, fr, gr)
    ensures FrameOk(j.q, j.t, gr)
  {
    Shape(j);
  }

  lemma PlaceAdvance(j: Job, fs: seq<Frame>, fr: Frame, gr: Frame, e: Env, d: Env)
    requires Sound(j) && Sized(j) && FrameWf(j, fr) && PlaceRel(j, fs, fr, gr) && fr.rest != [] && !AtSite(j, fr)
    ensures gr.rest != [] && gr.rest[0] == CloneInstr(fr.rest[0], Mode(j, fs))
    ensures PlaceRel(j, fs, Advanced(fr, e), Advanced(gr, d))
  {
    hide Sound, FrameWf, CloneInstr, AfterCall, Tail, CloneAll;
    CloneIdentity(fr.rest[0]);
    if Paired(j, fs) {
      CopiesLeft(fr.rest, j.c.remap, Tail(Inner(j).code[fr.block].term, j.c.call, j.c.remap));
    } else if fr.fn == j.c.g && fr.block == j.c.b && |fr.rest| > |AfterCall(j)| {
      CallLeft(fr.rest, gr.rest, j.c.call, AfterCall(j));
    }
  }

  lemma CopiesLeft(rest: seq<Instr>, remap: Remap, tail: seq<Instr>)
    requires rest != []
    ensures var all := CloneAll(rest, remap) + tail;
        all != [] && all[0] == CloneInstr(rest[0], remap) &&
        all[1..] == CloneAll(rest[1..], remap) + tail
  {
    hide CloneInstr;
    assert CloneAll(rest[1..], remap) == CloneAll(rest, remap)[1..];
  }

  lemma CallLeft(a: seq<Instr>, b: seq<Instr>, c: Instr, y: seq<Instr>)
    requires a == b + [c] + y && |a| != |y| + 1
    ensures b != [] && b[0] == a[0] && a[1..] == b[1..] + [c] + y
  {
  }

  /** Entering a block, in the copy or outside it. */
  lemma PlaceEnter(j: Job, fs: seq<Frame>, k: nat, v: nat, e: Env, d: Env)
    requires Sound(j) && Sized(j) && k < |j.p| && v < |j.p[k].code| && (Paired(j, fs) ==> k == j.c.h)
    ensures !Paired(j, fs) ==> v < |j.q[k].code| && PlaceRel(j, fs, Enter(j.p, j.s, k, v, e), Enter(j.q, j.t, k, v, d))
    ensures Paired(j, fs) ==>
        Base(j) + v < |After(j)| &&
        PlaceRel(j, fs, Enter(j.p, j.s, k, v, e), Enter(j.q, j.t, j.c.g, Base(j) + v, d))
  {
    Shape(j);
    if Paired(j, fs) {
      CopiedBlock(j, v);
    } else if k == j.c.g {
      if v == j.c.b {
        SplitBlock(j);
      } else {
        OtherBlock(j, v);
      }
    }
    hide Sound, Kept, CloneAll, Tail;
  }

  /** At the end of a copied block: the returned value is handed over, and the terminator is the copied one. */
  lemma CopiedEnd(j: Job, fs: seq<Frame>, fr: Frame, gr: Frame)
    requires Sound(j) && Sized(j) && FrameWf(j, fr) && PlaceRel(j, fs, fr, gr) && fr.rest == [] && Paired(j, fs)
    ensures gr.fn == j.c.g && gr.block < |After(j)| && FrameOk(j.p, j.s, fr) && fr.fn == j.c.h
    ensures gr.rest == Tail(j.p[fr.fn].code[fr.block].term, j.c.call, j.c.remap)
    ensures After(j)[gr.block].term == CloneTerm(j.p[fr.fn].code[fr.block].term, j.c.remap, Base(j), |Inner(j).code|)
  {
    hide Sound, Kept, Tail, CloneTerm, SuffixOf, CloneAll, Paired, AfterCall;
    Shape(j);
    CopiedTerm(j, fr.block);
    NothingLeft(fr.rest, j.c.remap, Tail(j.p[fr.fn].code[fr.block].term, j.c.call, j.c.remap));
  }

  lemma CopiedTerm(j: Job, b: nat)
    requires Sound(j) && b < |Inner(j).code|
    ensures Base(j) + b < |After(j)| && After(j)[Base(j) + b].term == CloneTerm(Inner(j).code[b].term, j.c.remap,
        Base(j), |Inner(j).code|)
  {
    hide Sound, CloneTerm, CloneBody, Tail;
    Shape(j);
    CopiedBlockIs(j, b);
  }

  lemma NothingLeft(rest: seq<Instr>, remap: Remap, tail: seq<Instr>)
    requires rest == []
    ensures CloneAll(rest, remap) + tail == tail
  {
  }

  /** At the end of any other block: the same terminator. */
  lemma PlainEnd(j: Job, fs: seq<Frame>, fr: Frame, gr: Frame)
    requires Sound(j) && Sized(j) && FrameWf(j, fr) && PlaceRel(j, fs, fr, gr) && fr.rest == [] && !Paired(j, fs)
    ensures gr.fn == fr.fn && FrameOk(j.q, j.t, gr) && gr.rest == [] && j.q[gr.fn].code[gr.block].term ==
        j.p[fr.fn].code[fr.block].term
  {
    Shape(j);
    PlaceOk(j, fs, fr, gr);
    if fr.fn == j.c.g {
      if fr.block == j.c.b {
        SplitBlockIs(j);
      } else {
        OtherBlockIs(j, fr.block);
      }
    }
    hide Sound, Kept, Tail, CloneTerm, AfterCall, SuffixOf, Paired;
  }

  // ---- Steps ----

  /** The two programs are at the same point. */
  ghost predicate Related(j: Job, m: Machine, n: Machine)
    requires Sized(j)
  {
    match m
    case Running(fs, h) => n.Running? && n.history == h && fs != [] && StackWf(j, fs) && StackRel(j, fs, n.frames)
    case Done(_, _) => n == m
    case Wrong => false
  }

  /** The frames `fs + [fr]` and `gs + [gr]` are at the same point. */
  ghost predicate At(j: Job, fs: seq<Frame>, fr: Frame, gs: seq<Frame>, gr: Frame)
    requires Sized(j)
  {
    FrameWf(j, fr) && StackWf(j, fs) && (fs == [] || Calling(j, Last(fs), fr.fn)) && TopRel(j, fs, fr, gr) &&
      StackRel(j, Below(j, fs), gs)
  }

  lemma AtRelated(j: Job, fs: seq<Frame>, fr: Frame, gs: seq<Frame>, gr: Frame, h: seq<Event>)
    requires Sized(j)
    ensures At(j, fs, fr, gs, gr) <==> Related(j, Running(fs + [fr], h), Running(gs + [gr], h))
  {
    WfPush(j, fs, fr);
    RelPush(j, fs, fr, gs, gr);
    hide FrameWf, StackWf, TopRel, StackRel, Calling, Below;
  }

  lemma AtPair(j: Job, fs: seq<Frame>, fr: Frame, gs: seq<Frame>, gr: Frame)
    requires Sound(j) && Sized(j) && At(j, fs, fr, gs, gr)
    ensures PairWf(j, fs, fr) && FrameOk(j.p, j.s, fr) && FrameOk(j.q, j.t, gr)
    ensures AtSite(j, fr) ==> !Paired(j, fs)
  {
    PlaceOk(j, fs, fr, gr);
    WfPush(j, fs, fr);
    PairedWf(j, fs, fr);
    Shape(j);
    hide Sound, StackWf, StackRel, TopRel;
  }

  /** An instruction other than a call of a function of the program. */
  lemma StepInstr(w: World, j: Job, fs: seq<Frame>, fr: Frame, gs: seq<Frame>, gr: Frame, h: seq<Event>)
    requires Sound(j) && Sized(j) && At(j, fs, fr, gs, gr) && FrameOk(j.p, j.s, fr)
    requires fr.rest != [] && Callee(j.p, fr.rest[0]).None? && !StepTop(w, j.p, j.s, fs, fr, h).Wrong?
    ensures FrameOk(j.q, j.t, gr) && Related(j, StepTop(w, j.p, j.s, fs, fr, h), StepTop(w, j.q, j.t, gs, gr, h))
  {
    AtPair(j, fs, fr, gs, gr);
    NotAtSite(j, fs, fr, gs, gr);
    var i := fr.rest[0];
    var t := Exec(w, i, State(fr.env, h)).value;
    EnvExec(w, j, fs, fr, gr.env, h);
    var r := Exec(w, CloneInstr(i, Mode(j, fs)), State(gr.env, h)).value;
    PlaceAdvance(j, fs, fr, gr, t.env, r.env);
    SameCallee(j, i, Mode(j, fs));
    ExecKeys(w, i, State(fr.env, h));
    WfAdvance(j, fr, t.env);
    AtRelated(j, fs, Advanced(fr, t.env), gs, Advanced(gr, r.env), t.history);
    hide Sound, FrameWf, StackWf, StackRel, PlaceRel, EnvRel, Exec, CloneInstr, Callee, Related, Below, Calling;
  }

  lemma NotAtSite(j: Job, fs: seq<Frame>, fr: Frame, gs: seq<Frame>, gr: Frame)
    requires Sound(j) && Sized(j) && At(j, fs, fr, gs, gr) && !Calling(j, fr, j.c.h)
    ensures !AtSite(j, fr)
  {
    hide Sound, StackWf, StackRel, TopRel, FrameWf;
    if AtSite(j, fr) {
      AtSiteRest(j, fr);
    }
  }

  /** What the machine does with a call. */
  lemma TopCalls(w: World, p: Program, s: Slots, fs: seq<Frame>, fr: Frame, h: seq<Event>, k: nat)
    requires FrameOk(p, s, fr) && k < |p| && fr.rest != [] && Callee(p, fr.rest[0]) == Some(k)
    ensures !StepTop(w, p, s, fs, fr, h).Wrong? <==> Passes(p, k, fr)
    ensures Passes(p, k, fr) ==> p[k].code != []
    ensures Passes(p, k, fr) ==>
        StepTop(w, p, s, fs, fr, h) ==
        Running(fs + [fr] + [Enter(p, s, k, 0, Passed(p, k, fr))], h)
  {
    hide Kept, LookupAll, Bind, Callee;
  }

  /** The operands of the call have values, as many as function `k` has parameters. */
  predicate Passes(p: Program, k: nat, fr: Frame) {
    && k < |p| && p[k].code != [] && fr.rest != [] && fr.rest[0].Effect?
    && LookupAll(fr.env, fr.rest[0].args).Some? && |LookupAll(fr.env, fr.rest[0].args).value| == |p[k].params|
  }

  function Passed(p: Program, k: nat, fr: Frame): Env
    requires Passes(p, k, fr)
  {
    Bind(p[k].params, LookupAll(fr.env, fr.rest[0].args).value)
  }

  lemma PairedPush(j: Job, fs: seq<Frame>, fr: Frame)
    requires Sized(j)
    ensures Last(fs + [fr]) == fr && (Paired(j, fs + [fr]) <==> AtSite(j, fr))
    ensures Below(j, fs + [fr]) == if AtSite(j, fr) then fs else fs + [fr]
  {
    hide AtSite;
  }

  /** The same values are passed to the same function. */
  lemma CallPasses(j: Job, fs: seq<Frame>, fr: Frame, gs: seq<Frame>, gr: Frame, k: nat)
    requires Sound(j) && Sized(j) && At(j, fs, fr, gs, gr)
    requires k < |j.p| && Calling(j, fr, k) && !AtSite(j, fr) && Passes(j.p, k, fr)
    ensures gr.rest != [] && Callee(j.q, gr.rest[0]) == Some(k) && Passes(j.q, k, gr) &&
        Passed(j.q, k, gr) == Passed(j.p, k, fr)
  {
    hide Sound, FrameWf, StackWf, StackRel, PlaceRel, LookupAll, Callee, AtSite, ClonedEnv, Bind, CloneInstr, Mode,
      Paired;
    var i := fr.rest[0];
    PlaceAdvance(j, fs, fr, gr, fr.env, gr.env);
    SameCallee(j, i, Mode(j, fs));
    ClonedCall(i, Mode(j, fs));
    LookupAllCloned(Mode(j, fs), fr.env, gr.env, i.args, gr.rest[0].args);
    SameParams(j, k);
  }

  lemma SameParams(j: Job, k: nat)
    requires Sound(j) && k < |j.p|
    ensures k < |j.q| && j.q[k].params == j.p[k].params && (j.p[k].code != [] ==> j.q[k].code != [])
  {
    Shape(j);
  }

  lemma ClonedCall(i: Instr, remap: Remap)
    requires i.Effect?
    ensures var r := CloneInstr(i, remap); r.Effect? && |r.args| == |i.args| && forall k :: 0 <= k < |i.args| ==>
        r.args[k] == Renamed(remap, i.args[k])
  {
    hide Renamed;
  }

  lemma PassedWf(j: Job, k: nat, fr: Frame)
    requires Sized(j) && Passes(j.p, k, fr)
    ensures j.p[k].code != [] && FrameWf(j, Enter(j.p, j.s, k, 0, Passed(j.p, k, fr)))
  {
    BindValues(j.p[k].params, LookupAll(fr.env, fr.rest[0].args).value);
    WfEnter(j, k, 0, Passed(j.p, k, fr));
  }

  lemma CallAt(j: Job, fs: seq<Frame>, fr: Frame, gs: seq<Frame>, gr: Frame, k: nat)
    requires Sound(j) && Sized(j) && At(j, fs, fr, gs, gr)
    requires k < |j.p| && Calling(j, fr, k) && !AtSite(j, fr) && Passes(j.p, k, fr)
    ensures j.p[k].code != [] && j.q[k].code != []
    ensures var e := Passed(j.p, k, fr); At(j, fs + [fr], Enter(j.p, j.s, k, 0, e), gs + [gr], Enter(j.q, j.t, k, 0, e))
  {
    hide Sound, FrameWf, StackWf, StackRel, PlaceRel, Passes, AtSite, ClonedEnv, Passed, Kept, Calling;
    var e := Passed(j.p, k, fr);
    PassedWf(j, k, fr);
    PairedPush(j, fs, fr);
    hide Last, Below;
    PlaceEnter(j, fs + [fr], k, 0, e, e);
    WfPush(j, fs, fr);
    RelPush(j, fs, fr, gs, gr);
    SameEnv(e);
  }

  /** A call that is not inlined. */
  lemma StepCall(w: World, j: Job, fs: seq<Frame>, fr: Frame, gs: seq<Frame>, gr: Frame, h: seq<Event>, k: nat)
    requires Sound(j) && Sized(j) && At(j, fs, fr, gs, gr) && FrameOk(j.p, j.s, fr)
    requires Calling(j, fr, k) && k < |j.p| && !AtSite(j, fr) && !StepTop(w, j.p, j.s, fs, fr, h).Wrong?
    ensures FrameOk(j.q, j.t, gr) && Related(j, StepTop(w, j.p, j.s, fs, fr, h), StepTop(w, j.q, j.t, gs, gr, h))
  {
    hide Sound, At, AtSite, StepTop, Passes, Related, Enter;
    AtPair(j, fs, fr, gs, gr);
    TopCalls(w, j.p, j.s, fs, fr, h, k);
    var e := Passed(j.p, k, fr);
    CallPasses(j, fs, fr, gs, gr, k);
    CallAt(j, fs, fr, gs, gr, k);
    TopCalls(w, j.q, j.t, gs, gr, h, k);
    AtRelated(j, fs + [fr], Enter(j.p, j.s, k, 0, e), gs + [gr], Enter(j.q, j.t, k, 0, e), h);
  }

  lemma SameEnv(e: Env)
    ensures ClonedEnv(map[], e, e)
  {
  }

  /** The parameters of the callee have the values of their operands. */
  lemma ArgsCloned(j: Job, e: Env, d: Env, vs: seq<Int32>)
    requires Sound(j) && ClonedEnv(map[], e, d) && j.c.call.Effect? && |vs| == |Inner(j).params| &&
        LookupAll(e, j.c.call.args) == Some(vs)
    ensures ClonedEnv(j.c.remap, Bind(Inner(j).params, vs), d)
  {
    hide Sound, Bind, Renamed, LookupAll, NamesOk;
    Shape(j);
    var params := Inner(j).params;
    DifferentParams(j);
    BindValues(params, vs);
    forall x | x in Bind(params, vs)
      ensures Lookup(d, Renamed(j.c.remap, Var(x))) == Some(Bind(params, vs)[x])
    {
      var k :| 0 <= k < |params| && params[k] == x;
      ParamOperand(j, k);
      LookupAt(e, j.c.call.args, k);
      LookupCloned(map[], e, d, j.c.call.args[k]);
    }
  }

  lemma DifferentParams(j: Job)
    requires Sound(j)
    ensures forall a, b :: 0 <= a < b < |Inner(j).params| ==> Inner(j).params[a] != Inner(j).params[b]
  {
  }

  lemma ParamOperand(j: Job, k: nat)
    requires Sound(j) && k < |Inner(j).params|
    ensures j.c.call.Effect? && |j.c.call.args| == |Inner(j).params|
    ensures Renamed(j.c.remap, Var(Inner(j).params[k])) == j.c.call.args[k] && Renamed(map[], j.c.call.args[k]) ==
        j.c.call.args[k]
  {
    hide NamesOk, SlotsOk, Replaced;
    var x := Inner(j).params[k];
    assert x in j.c.remap && j.c.remap[x] == j.c.call.args[k];
  }

  lemma {:induction false} LookupAt(e: Env, os: seq<Operand>, k: nat)
    requires k < |os| && LookupAll(e, os).Some?
    ensures Lookup(e, os[k]) == Some(LookupAll(e, os).value[k])
  {
    if k > 0 {
      LookupAt(e, os[1..], k - 1);
    }
  }

  /** The inlined call: the caller jumps to the copy. */
  lemma StepSite(w: World, j: Job, fs: seq<Frame>, fr: Frame, gs: seq<Frame>, gr: Frame, h: seq<Event>)
    requires Sound(j) && Sized(j) && At(j, fs, fr, gs, gr) && FrameOk(j.p, j.s, fr)
    requires AtSite(j, fr) && !StepTop(w, j.p, j.s, fs, fr, h).Wrong?
    ensures FrameOk(j.q, j.t, gr) && Related(j, StepTop(w, j.p, j.s, fs, fr, h), StepTop(w, j.q, j.t, gs, gr, h))
  {
    hide Sound, At, Kept, Passes, Related, Enter, FrameWf, Callee, LookupAll, Inner, Exec;
    AtPair(j, fs, fr, gs, gr);
    SiteCalls(j, fs, fr, gs, gr);
    TopCalls(w, j.p, j.s, fs, fr, h, j.c.h);
    SiteAt(j, fs, fr, gs, gr);
    hide AtSite, After;
    AtRelated(j, fs + [fr], Enter(j.p, j.s, j.c.h, 0, Passed(j.p, j.c.h, fr)), gs,
      Enter(j.q, j.t, j.c.g, Base(j), gr.env), h);
  }

  lemma SiteCalls(j: Job, fs: seq<Frame>, fr: Frame, gs: seq<Frame>, gr: Frame)
    requires Sound(j) && Sized(j) && At(j, fs, fr, gs, gr) && AtSite(j, fr)
    ensures Calling(j, fr, j.c.h) && fr.rest == [j.c.call] + AfterCall(j)
    ensures gr.fn == j.c.g && gr.block == j.c.b && gr.rest == [] && Base(j) < |After(j)| && j.c.b < |After(j)| &&
        After(j)[j.c.b].term == Jump(Base(j))
  {
    AtPair(j, fs, fr, gs, gr);
    AtSiteRest(j, fr);
    Shape(j);
    SplitBlockIs(j);
    AtSiteEnd(j, fs, fr, gr);
    hide Sound, At, FrameWf, Calling, Kept, AfterCall;
  }

  lemma SiteAt(j: Job, fs: seq<Frame>, fr: Frame, gs: seq<Frame>, gr: Frame)
    requires Sound(j) && Sized(j) && At(j, fs, fr, gs, gr) && AtSite(j, fr) && Passes(j.p, j.c.h, fr)
    ensures Inner(j).code != [] && Base(j) < |After(j)|
    ensures var e := Passed(j.p, j.c.h, fr);
        At(j, fs + [fr], Enter(j.p, j.s, j.c.h, 0, e), gs, Enter(j.q, j.t, j.c.g, Base(j), gr.env))
  {
    hide Sound, FrameWf, StackWf, StackRel, PlaceRel, AtSite, ClonedEnv, Kept, Calling, Passes, Passed, AfterCall,
      Paired;
    AtPair(j, fs, fr, gs, gr);
    SiteCalls(j, fs, fr, gs, gr);
    SiteEnv(j, fs, fr, gr);
    PassedWf(j, j.c.h, fr);
    PairedPush(j, fs, fr);
    hide Last, Below;
    PlaceEnter(j, fs + [fr], j.c.h, 0, Passed(j.p, j.c.h, fr), gr.env);
    WfPush(j, fs, fr);
    BelowUnpaired(j, fs);
  }

  lemma BelowUnpaired(j: Job, fs: seq<Frame>)
    requires Sized(j)
    ensures !Paired(j, fs) ==> Below(j, fs) == fs
    ensures Paired(j, fs) ==> fs != [] && Below(j, fs) == Init(fs)
  {
  }

  lemma SiteEnv(j: Job, fs: seq<Frame>, fr: Frame, gr: Frame)
    requires Sound(j) && Sized(j) && EnvRel(j, fs, fr.env, gr.env) && !Paired(j, fs) && Passes(j.p, j.c.h, fr) &&
        fr.rest[0] == j.c.call
    ensures ClonedEnv(j.c.remap, Passed(j.p, j.c.h, fr), gr.env) && ClonedEnv(map[], fr.env, gr.env)
  {
    SiteFacts(j);
    hide Sound, ClonedEnv, LookupAll, Bind;
    ArgsCloned(j, fr.env, gr.env, LookupAll(fr.env, j.c.call.args).value);
  }

  lemma AtSiteEnd(j: Job, fs: seq<Frame>, fr: Frame, gr: Frame)
    requires Sound(j) && Sized(j) && AtSite(j, fr) && !Paired(j, fs) && PlaceRel(j, fs, fr, gr)
    ensures gr.fn == j.c.g && gr.block == j.c.b && gr.rest == []
  {
    hide Sound, AfterCall, Paired;
  }

  // ---- Terminators ----

  lemma FollowSame(t: Term, e: Env, d: Env)
    requires ClonedEnv(map[], e, d) && !Follow(t, e).Undefined?
    ensures Follow(t, d) == Follow(t, e)
  {
    hide ClonedEnv;
    match t
    case Branch(c, _, _) => LookupCloned(map[], e, d, c);
    case Return(Some(o)) => LookupCloned(map[], e, d, o);
    case _ =>
  }

  lemma FollowCloned(t: Term, remap: Remap, base: nat, size: nat, e: Env, d: Env)
    requires ClonedEnv(remap, e, d) && Follow(t, e).Goto? && Follow(t, e).block < size
    ensures Follow(CloneTerm(t, remap, base, size), d) == Goto(base + Follow(t, e).block)
  {
    hide ClonedEnv, Renamed;
    match t
    case Branch(c, _, _) => LookupCloned(remap, e, d, c);
    case _ =>
  }

  /** Going to another block of the same function. */
  lemma StepGoto(w: World, j: Job, fs: seq<Frame>, fr: Frame, gs: seq<Frame>, gr: Frame, h: seq<Event>, v: nat)
    requires Sound(j) && Sized(j) && At(j, fs, fr, gs, gr) && FrameOk(j.p, j.s, fr) && fr.rest == []
    requires v < |j.p[fr.fn].code| && Follow(j.p[fr.fn].code[fr.block].term, fr.env) == Goto(v)
    ensures FrameOk(j.q, j.t, gr) && Related(j, StepTop(w, j.p, j.s, fs, fr, h), StepTop(w, j.q, j.t, gs, gr, h))
  {
    hide Sound, At, FrameWf, Related, Follow, Enter, Paired, Kept, CloneTerm, Callee, Inner, After;
    AtPair(j, fs, fr, gs, gr);
    var u := GotoAt(j, fs, fr, gs, gr, v);
    AtRelated(j, fs, Enter(j.p, j.s, fr.fn, v, fr.env), gs, Enter(j.q, j.t, gr.fn, u, gr.env), h);
  }

  lemma GotoAt(j: Job, fs: seq<Frame>, fr: Frame, gs: seq<Frame>, gr: Frame, v: nat) returns (u: nat)
    requires Sound(j) && Sized(j) && At(j, fs, fr, gs, gr) && FrameOk(j.p, j.s, fr) && fr.rest == []
    requires v < |j.p[fr.fn].code| && Follow(j.p[fr.fn].code[fr.block].term, fr.env) == Goto(v)
    ensures FrameOk(j.q, j.t, gr) && u < |j.q[gr.fn].code| && gr.rest == [] &&
        Follow(j.q[gr.fn].code[gr.block].term, gr.env) == Goto(u)
    ensures At(j, fs, Enter(j.p, j.s, fr.fn, v, fr.env), gs, Enter(j.q, j.t, gr.fn, u, gr.env))
  {
    hide Sound, FrameWf, StackWf, StackRel, PlaceRel, ClonedEnv, CloneTerm, Kept, Calling, Below, Paired, Last;
    AtPair(j, fs, fr, gs, gr);
    WfEnterSame(j, fr, v);
    PlaceEnter(j, fs, fr.fn, v, fr.env, gr.env);
    u := if Paired(j, fs) then Base(j) + v else v;
    if Paired(j, fs) {
      CopiedEnd(j, fs, fr, gr);
      FollowCloned(j.p[fr.fn].code[fr.block].term, j.c.remap, Base(j), |Inner(j).code|, fr.env, gr.env);
    } else {
      PlainEnd(j, fs, fr, gr);
      FollowSame(j.p[fr.fn].code[fr.block].term, fr.env, gr.env);
    }
  }

  lemma WfEnterSame(j: Job, fr: Frame, v: nat)
    requires FrameWf(j, fr) && FrameOk(j.p, j.s, fr) && v < |j.p[fr.fn].code|
    ensures FrameWf(j, Enter(j.p, j.s, fr.fn, v, fr.env))
  {
  }

  /** The waiting frame `fr` receives the result of a call that is not inlined. */
  lemma ResumeRelated(j: Job, fs: seq<Frame>, fr: Frame, gs: seq<Frame>, gr: Frame, r: Option<Int32>, h: seq<Event>)
    requires Sound(j) && Sized(j) && At(j, fs, fr, gs, gr) && !AtSite(j, fr) && !Resume(fs, fr, r, h).Wrong?
    ensures Related(j, Resume(fs, fr, r, h), Resume(gs, gr, r, h))
  {
    hide Sound, At, AtSite, Related, Mode, CloneInstr;
    var i := fr.rest[0];
    var e := if i.target.Some? then fr.env[i.target.value := r.value] else fr.env;
    var d := if i.target.Some? then gr.env[NewName(Mode(j, fs), i.target.value) := r.value] else gr.env;
    ResumeAt(j, fs, fr, gs, gr, e, d, r);
    AtRelated(j, fs, Advanced(fr, e), gs, Advanced(gr, d), h);
  }

  lemma ResumeAt(j: Job, fs: seq<Frame>, fr: Frame, gs: seq<Frame>, gr: Frame, e: Env, d: Env, r: Option<Int32>)
    requires Sound(j) && Sized(j) && At(j, fs, fr, gs, gr) && !AtSite(j, fr) && fr.rest != [] && fr.rest[0].Effect?
    requires if fr.rest[0].target.Some? then r.Some? && e == fr.env[fr.rest[0].target.value := r.value] &&
        d == gr.env[NewName(Mode(j, fs), fr.rest[0].target.value) := r.value]
             else e == fr.env && d == gr.env
    ensures gr.rest != [] && gr.rest[0] == CloneInstr(fr.rest[0], Mode(j, fs)) &&
        At(j, fs, Advanced(fr, e), gs, Advanced(gr, d))
  {
    hide Sound, FrameWf, StackWf, StackRel, PlaceRel, EnvRel, Calling, Below, CloneInstr, AtSite, Mode, NewName;
    AtPair(j, fs, fr, gs, gr);
    if fr.rest[0].target.Some? {
      EnvResult(j, fs, fr, gr.env, r.value);
    }
    PlaceAdvance(j, fs, fr, gr, e, d);
    WfAdvance(j, fr, e);
  }

  lemma TopLeaves(w: World, p: Program, s: Slots, fs: seq<Frame>, fr: Frame, h: seq<Event>, r: Option<Int32>)
    requires FrameOk(p, s, fr) && fr.rest == [] && Follow(p[fr.fn].code[fr.block].term, fr.env) == Leave(r)
    ensures StepTop(w, p, s, fs, fr, h) == if fs == [] then Done(r, h) else Resume(Init(fs), Last(fs), r, h)
  {
    hide Follow, Resume, Kept;
  }

  /** A frame waiting below one that is no copy. */
  lemma WaitingAt(j: Job, fs: seq<Frame>, fr: Frame, gs: seq<Frame>, gr: Frame)
    requires Sized(j) && At(j, fs, fr, gs, gr) && fs != [] && !Paired(j, fs)
    ensures gs != [] && At(j, Init(fs), Last(fs), Init(gs), Last(gs)) && !AtSite(j, Last(fs))
  {
    hide FrameWf, TopRel, Calling;
    BelowUnpaired(j, fs);
  }

  /** Leaving a function that is no copy. */
  lemma StepLeave(w: World, j: Job, fs: seq<Frame>, fr: Frame, gs: seq<Frame>, gr: Frame, h: seq<Event>,
      r: Option<Int32>)
    requires Sound(j) && Sized(j) && At(j, fs, fr, gs, gr) && FrameOk(j.p, j.s, fr) && fr.rest == [] && !Paired(j, fs)
    requires Follow(j.p[fr.fn].code[fr.block].term, fr.env) == Leave(r) && !StepTop(w, j.p, j.s, fs, fr, h).Wrong?
    ensures FrameOk(j.q, j.t, gr) && Related(j, StepTop(w, j.p, j.s, fs, fr, h), StepTop(w, j.q, j.t, gs, gr, h))
  {
    hide Sound, At, FrameWf, Follow, Paired, Resume, StepTop, AtSite, Last, Init;
    LeaveSame(j, fs, fr, gs, gr, r);
    TopLeaves(w, j.p, j.s, fs, fr, h, r);
    TopLeaves(w, j.q, j.t, gs, gr, h, r);
    if fs == [] {
      NothingBelow(j, fr, gs, gr);
    } else {
      WaitingAt(j, fs, fr, gs, gr);
      ResumeRelated(j, Init(fs), Last(fs), Init(gs), Last(gs), r, h);
    }
  }

  lemma NothingBelow(j: Job, fr: Frame, gs: seq<Frame>, gr: Frame)
    requires Sized(j) && At(j, [], fr, gs, gr)
    ensures gs == []
  {
    BelowUnpaired(j, []);
  }

  lemma LeaveSame(j: Job, fs: seq<Frame>, fr: Frame, gs: seq<Frame>, gr: Frame, r: Option<Int32>)
    requires Sound(j) && Sized(j) && At(j, fs, fr, gs, gr) && FrameOk(j.p, j.s, fr) && fr.rest == [] && !Paired(j, fs)
    requires Follow(j.p[fr.fn].code[fr.block].term, fr.env) == Leave(r)
    ensures FrameOk(j.q, j.t, gr) && gr.rest == [] && Follow(j.q[gr.fn].code[gr.block].term, gr.env) == Leave(r)
  {
    hide Sound, FrameWf, StackWf, StackRel, PlaceRel, ClonedEnv, Paired, Calling, Below;
    PlainEnd(j, fs, fr, gr);
    FollowSame(j.p[fr.fn].code[fr.block].term, fr.env, gr.env);
  }

  // ---- Leaving a copy ----

  lemma OneStep(w: World, p: Program, s: Slots, fs: seq<Frame>, fr: Frame, h: seq<Event>)
    requires FrameOk(p, s, fr)
    ensures StepMachine(w, p, s, Running(fs + [fr], h)) == StepTop(w, p, s, fs, fr, h)
    ensures RunMachine(w, p, s, Running(fs + [fr], h), 1) == StepTop(w, p, s, fs, fr, h)
  {
    hide StepTop;
    var all := fs + [fr];
    assert all[..|all| - 1] == fs && all[|all| - 1] == fr;
    assert RunMachine(w, p, s, Running(all, h), 0) == Running(all, h);
  }

  /** The value that a return hands to the result of the call. */
  function Handed(call: Instr, e: Env, r: Option<Int32>): Env {
    if Target(call).Some? && r.Some? then e[Target(call).value := r.value] else e
  }

  lemma TopJumps(w: World, p: Program, s: Slots, fs: seq<Frame>, fr: Frame, h: seq<Event>, v: nat)
    requires FrameOk(p, s, fr) && fr.rest == [] && p[fr.fn].code[fr.block].term == Jump(v) && v < |p[fr.fn].code|
    ensures StepTop(w, p, s, fs, fr, h) == Running(fs + [Enter(p, s, fr.fn, v, fr.env)], h)
  {
    hide Kept;
  }

  lemma TopMoves(w: World, p: Program, s: Slots, fs: seq<Frame>, fr: Frame, h: seq<Event>, x: Name, o: Operand)
    requires FrameOk(p, s, fr) && fr.rest == [Move(x, o)] && Lookup(fr.env, o).Some?
    ensures StepTop(w, p, s, fs, fr, h) == Running(fs + [fr.(rest := [], env := fr.env[x := Lookup(fr.env, o).value])],
        h)
  {
    hide Kept;
    assert fr.rest[1..] == [];
  }

  /** A returning copy hands over its value and jumps to the continuation, in one or two steps. */
  lemma CopyReturns(w: World, j: Job, gs: seq<Frame>, gr: Frame, h: seq<Event>, term: Term, e: Env, r: Option<Int32>)
      returns (k: nat)
    requires Sized(j) && gr.fn == j.c.g && FrameOk(j.q, j.t, gr) && Cont(j) < |After(j)|
    requires gr.rest == Tail(term, j.c.call, j.c.remap) &&
        After(j)[gr.block].term == CloneTerm(term, j.c.remap, Base(j), |Inner(j).code|)
    requires Follow(term, e) == Leave(r) && ClonedEnv(j.c.remap, e, gr.env)
    ensures 1 <= k
    ensures RunMachine(w, j.q, j.t, Running(gs + [gr], h), k) ==
        Running(gs + [Enter(j.q, j.t, j.c.g, Cont(j), Handed(j.c.call, gr.env, r))], h)
  {
    hide ClonedEnv, StepTop, RunMachine, Enter, StepMachine;
    OneStep(w, j.q, j.t, gs, gr, h);
    if gr.rest == [] {
      TopJumps(w, j.q, j.t, gs, gr, h, Cont(j));
      k := 1;
    } else {
      var o := term.value.value;
      LookupCloned(j.c.remap, e, gr.env, o);
      TopMoves(w, j.q, j.t, gs, gr, h, Target(j.c.call).value, Renamed(j.c.remap, o));
      var mid := gr.(rest := [], env := Handed(j.c.call, gr.env, r));
      TopJumps(w, j.q, j.t, gs, mid, h, Cont(j));
      OneStep(w, j.q, j.t, gs, mid, h);
      RunMore(w, j.q, j.t, Running(gs + [gr], h), 1, 1);
      k := 2;
    }
  }

  lemma LeftPlace(j: Job, fs: seq<Frame>, below: Frame, e: Env, d: Env)
    requires Sound(j) && Sized(j) && !Paired(j, fs) && AtSite(j, below) && below.rest == [j.c.call] + AfterCall(j)
    ensures Cont(j) < |After(j)| && PlaceRel(j, fs, Advanced(below, e), Enter(j.q, j.t, j.c.g, Cont(j), d))
  {
    hide Sound, Kept, AfterCall, BeforeCall, Paired;
    Shape(j);
    SplitBlock(j);
    assert below.rest[1..] == AfterCall(j);
    assert Enter(j.q, j.t, j.c.g, Cont(j), d).rest == AfterCall(j);
  }

  lemma LeftEnv(j: Job, fs: seq<Frame>, e: Env, d: Env, r: Option<Int32>)
    requires Sized(j) && !Paired(j, fs) && ClonedEnv(map[], e, d)
    ensures EnvRel(j, fs, Handed(j.c.call, e, r), Handed(j.c.call, d, r))
  {
    hide ClonedEnv, Paired, NewName;
    if Target(j.c.call).Some? && r.Some? {
      IdentityApart(e, Target(j.c.call).value);
      WriteCloned(map[], e, d, Target(j.c.call).value, r.value);
    }
  }

  /** The caller below a copy, and what of it is known. */
  lemma SiteBelow(j: Job, fs: seq<Frame>, fr: Frame, gs: seq<Frame>, gr: Frame)
    requires Sound(j) && Sized(j) && At(j, fs, fr, gs, gr) && Paired(j, fs)
    ensures fs != [] && AtSite(j, Last(fs)) && Last(fs).rest == [j.c.call] + AfterCall(j) && FrameWf(j, Last(fs))
    ensures !Paired(j, Init(fs)) && StackWf(j, Init(fs)) && (Init(fs) == [] || Calling(j, Last(Init(fs)), Last(fs).fn))
    ensures ClonedEnv(map[], Last(fs).env, gr.env) && StackRel(j, Below(j, Init(fs)), gs)
  {
    hide Sound, FrameWf, StackRel, ClonedEnv, Kept, AfterCall, Calling, PlaceRel;
    WfPush(j, Init(fs), Last(fs));
    AtSiteRest(j, Last(fs));
    SitesApart(j, Init(fs), Last(fs));
    BelowUnpaired(j, fs);
    BelowUnpaired(j, Init(fs));
  }

  lemma CopyLeft(j: Job, fs: seq<Frame>, fr: Frame, gs: seq<Frame>, gr: Frame, r: Option<Int32>)
    requires Sound(j) && Sized(j) && At(j, fs, fr, gs, gr) && Paired(j, fs)
    requires Target(j.c.call).Some? ==> r.Some?
    ensures AtSite(j, Last(fs)) && Last(fs).rest == [j.c.call] + AfterCall(j) && Cont(j) < |After(j)|
    ensures At(j, Init(fs), Advanced(Last(fs), Handed(j.c.call, Last(fs).env, r)), gs,
        Enter(j.q, j.t, j.c.g, Cont(j), Handed(j.c.call, gr.env, r)))
  {
    hide Sound, FrameWf, StackRel, ClonedEnv, AfterCall, Calling, PlaceRel, EnvRel, StackWf, Paired, AtSite, Last,
      Init, Below, Kept;
    SiteBelow(j, fs, fr, gs, gr);
    var below := Last(fs);
    var e, d := Handed(j.c.call, below.env, r), Handed(j.c.call, gr.env, r);
    HandedKeys(j.c.call, below.env, r);
    WfAdvance(j, below, e);
    LeftPlace(j, Init(fs), below, e, d);
    LeftEnv(j, Init(fs), below.env, gr.env, r);
  }

  lemma HandedKeys(call: Instr, e: Env, r: Option<Int32>)
    ensures forall x :: x in Handed(call, e, r) ==> x in e || Target(call) == Some(x)
  {
  }

  /** The return of an inlined call. */
  lemma StepReturn(w: World, j: Job, fs: seq<Frame>, fr: Frame, gs: seq<Frame>, gr: Frame, h: seq<Event>,
      r: Option<Int32>) returns (k: nat)
    requires Sound(j) && Sized(j) && At(j, fs, fr, gs, gr) && FrameOk(j.p, j.s, fr) && fr.rest == [] && Paired(j, fs)
    requires Follow(j.p[fr.fn].code[fr.block].term, fr.env) == Leave(r) && !StepTop(w, j.p, j.s, fs, fr, h).Wrong?
    ensures 1 <= k && Related(j, StepTop(w, j.p, j.s, fs, fr, h), RunMachine(w, j.q, j.t, Running(gs + [gr], h), k))
  {
    hide Sound, FrameWf, Follow, Paired, Related, Enter, StackWf, StackRel, ClonedEnv, AfterCall, Tail, CloneTerm,
      Calling, StepTop, AtSite, Last, Init, PlaceRel, RunMachine;
    AtPair(j, fs, fr, gs, gr);
    CopiedEnd(j, fs, fr, gr);
    var below := Last(fs);
    SiteWaits(j, fs, fr, gs, gr);
    TopLeaves(w, j.p, j.s, fs, fr, h, r);
    PairedEnv(j, fs, fr, gr);
    CopyLeft(j, fs, fr, gs, gr, r);
    k := CopyReturns(w, j, gs, gr, h, j.p[fr.fn].code[fr.block].term, fr.env, r);
    AtRelated(j, Init(fs), Advanced(below, Handed(j.c.call, below.env, r)), gs,
      Enter(j.q, j.t, j.c.g, Cont(j), Handed(j.c.call, gr.env, r)), h);
    hide At;
  }

  lemma PairedEnv(j: Job, fs: seq<Frame>, fr: Frame, gr: Frame)
    requires Sized(j) && TopRel(j, fs, fr, gr) && Paired(j, fs)
    ensures ClonedEnv(j.c.remap, fr.env, gr.env) && PlaceRel(j, fs, fr, gr) && fs != []
  {
    hide ClonedEnv, PlaceRel;
  }

  lemma SiteWaits(j: Job, fs: seq<Frame>, fr: Frame, gs: seq<Frame>, gr: Frame)
    requires Sound(j) && Sized(j) && At(j, fs, fr, gs, gr) && Paired(j, fs)
    ensures Last(fs).rest != [] && Last(fs).rest[0] == j.c.call && j.c.call.Effect?
  {
    AtPair(j, fs, fr, gs, gr);
    AtSiteRest(j, Last(fs));
    Shape(j);
    hide Sound, At, FrameWf, AfterCall, Kept;
  }

  // ---- Runs ----

  /** Every defined step of the original program is matched by one or two steps of the inlined one. */
  lemma StepMatched(w: World, j: Job, m: Machine, n: Machine) returns (k: nat)
    requires Sound(j) && Sized(j) && Related(j, m, n) && !StepMachine(w, j.p, j.s, m).Wrong?
    ensures 1 <= k && Related(j, StepMachine(w, j.p, j.s, m), RunMachine(w, j.q, j.t, n, k))
  {
    hide Sound;
    match m
    case Done(_, _) =>
      k := 1;
      assert RunMachine(w, j.q, j.t, n, 0) == n;
    case Running(frames, h) =>
      var fs, fr, gs, gr := Init(frames), Last(frames), Init(n.frames), Last(n.frames);
      AtRelated(j, fs, fr, gs, gr, h);
      AtPair(j, fs, fr, gs, gr);
      hide At, Related, FrameWf, StackRel, StackWf;
      OneStep(w, j.p, j.s, fs, fr, h);
      OneStep(w, j.q, j.t, gs, gr, h);
      k := TopMatched(w, j, fs, fr, gs, gr, h);
  }

  lemma TopMatched(w: World, j: Job, fs: seq<Frame>, fr: Frame, gs: seq<Frame>, gr: Frame, h: seq<Event>)
      returns (k: nat)
    requires Sound(j) && Sized(j) && At(j, fs, fr, gs, gr) && FrameOk(j.p, j.s, fr) &&
        !StepTop(w, j.p, j.s, fs, fr, h).Wrong?
    ensures 1 <= k && Related(j, StepTop(w, j.p, j.s, fs, fr, h), RunMachine(w, j.q, j.t, Running(gs + [gr], h), k))
  {
    hide Sound, At, Related, FrameWf, AtSite, Paired, Kept, RunMachine, Callee;
    AtPair(j, fs, fr, gs, gr);
    OneStep(w, j.q, j.t, gs, gr, h);
    k := 1;
    if fr.rest != [] {
      match Callee(j.p, fr.rest[0])
      case None => StepInstr(w, j, fs, fr, gs, gr, h);
      case Some(c) =>
        CalleeInRange(j.p, fr.rest[0]);
        if AtSite(j, fr) {
          StepSite(w, j, fs, fr, gs, gr, h);
        } else {
          StepCall(w, j, fs, fr, gs, gr, h, c);
        }
    } else {
      match Follow(j.p[fr.fn].code[fr.block].term, fr.env)
      case Goto(v) => StepGoto(w, j, fs, fr, gs, gr, h, v);
      case Leave(r) =>
        if Paired(j, fs) {
          k := StepReturn(w, j, fs, fr, gs, gr, h, r);
        } else {
          StepLeave(w, j, fs, fr, gs, gr, h, r);
        }
      case Undefined =>
    }
  }

  lemma CalleeInRange(p: Program, i: Instr)
    ensures Callee(p, i).Some? ==> Callee(p, i).value < |p|
  {
  }

  lemma StartRelated(j: Job, f: nat, vs: seq<Int32>)
    requires Sound(j) && Sized(j) && !StartMachine(j.p, j.s, f, vs).Wrong?
    ensures Related(j, StartMachine(j.p, j.s, f, vs), StartMachine(j.q, j.t, f, vs))
  {
    hide Sound, FrameWf, Bind, Enter, At, Related;
    var e := Bind(j.p[f].params, vs);
    SameParams(j, f);
    StartAt(j, f, vs);
    assert [] + [Enter(j.p, j.s, f, 0, e)] == [Enter(j.p, j.s, f, 0, e)] && [] + [Enter(j.q, j.t, f, 0, e)] ==
        [Enter(j.q, j.t, f, 0, e)];
    AtRelated(j, [], Enter(j.p, j.s, f, 0, e), [], Enter(j.q, j.t, f, 0, e), []);
  }

  lemma StartAt(j: Job, f: nat, vs: seq<Int32>)
    requires Sound(j) && Sized(j) && f < |j.p| && |vs| == |j.p[f].params| && j.p[f].code != [] && j.q[f].code != []
    ensures var e := Bind(j.p[f].params, vs); At(j, [], Enter(j.p, j.s, f, 0, e), [], Enter(j.q, j.t, f, 0, e))
  {
    hide Sound, FrameWf, Bind, PlaceRel, ClonedEnv, Kept;
    var e := Bind(j.p[f].params, vs);
    BindValues(j.p[f].params, vs);
    WfEnter(j, f, 0, e);
    PlaceEnter(j, [], f, 0, e, e);
    SameEnv(e);
    BelowUnpaired(j, []);
  }

  /** At every point of every defined run, a run of the inlined program is at the same point. */
  lemma {:induction false} InliningKeepsRuns(w: World, j: Job, f: nat, vs: seq<Int32>, n: nat) returns (m: nat)
    requires Sound(j) && Sized(j) && !RunMachine(w, j.p, j.s, StartMachine(j.p, j.s, f, vs), n).Wrong?
    ensures n <= m && Related(j, RunMachine(w, j.p, j.s, StartMachine(j.p, j.s, f, vs), n),
        RunMachine(w, j.q, j.t, StartMachine(j.q, j.t, f, vs), m))
  {
    hide Sound, StartMachine, StepMachine, Related;
    var x, y := StartMachine(j.p, j.s, f, vs), StartMachine(j.q, j.t, f, vs);
    if n == 0 {
      StartRelated(j, f, vs);
      m := 0;
    } else {
      WrongStays(w, j.p, j.s, RunMachine(w, j.p, j.s, x, n - 1));
      m := InliningKeepsRuns(w, j, f, vs, n - 1);
      var k := StepMatched(w, j, RunMachine(w, j.p, j.s, x, n - 1), RunMachine(w, j.q, j.t, y, m));
      RunMore(w, j.q, j.t, y, m, k);
      m := m + k;
    }
  }

  lemma WrongStays(w: World, p: Program, s: Slots, m: Machine)
    ensures m.Wrong? ==> StepMachine(w, p, s, m).Wrong?
  {
  }
}
