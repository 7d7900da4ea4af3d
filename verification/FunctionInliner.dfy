/** The inliner: small callees are copied into their callers, each pair of functions at most once. */
module FunctionInlining {
  import opened IR
  import opened SsaForms
  import opened PhiElimination
  import opened Inlining
  import opened InliningRuns
  import opened InliningSimulation
  import opened InliningInvariants

  const MAX_INLINE_INSTRUCTIONS := 50

  // ---- Names ----

  const INLINE: string := "%inline."

  /** The name that the allocator makes the `n`-th time. */
  function InlineName(n: nat): Name {
    INLINE + "." + Decimal(n)
  }

  lemma InlineNamesDiffer(m: nat, n: nat)
    requires InlineName(m) == InlineName(n)
    ensures m == n
  {
    hide Decimal;
    var k := |INLINE| + 1;
    assert InlineName(m)[k..] == Decimal(m) && InlineName(n)[k..] == Decimal(n);
    DecimalInjective(m, n);
  }

  /** A name for a returned value met before its definition; the definition replaces it. */
  function ReturnName(n: nat): Name {
    "%inline.ret." + "." + Decimal(n)
  }

  /** The function mentions no name that the allocator has not made yet. */
  ghost predicate NamesFree(f: Fn, slots: set<Name>, n: nat) {
    forall m: nat :: m > n ==> !Mentions(f, slots, InlineName(m))
  }

  // ---- Runs of two programs ----

  /** The same history, and the same result. */
  predicate SameSeen(m: Machine, n: Machine) {
    match m
    case Running(_, h) => n.Running? && n.history == h
    case Done(_, _) => n == m
    case Wrong => false
  }

  ghost predicate RunFound(w: World, p: Program, s: Slots, q: Program, t: Slots, f: nat, vs: seq<Int32>, n: nat) {
    exists m: nat :: n <= m && SameSeen(RunMachine(w, p, s, StartMachine(p, s, f, vs), n),
      RunMachine(w, q, t, StartMachine(q, t, f, vs), m))
  }

  /** Every defined run of `p` is seen in `q`, whichever function is started. */
  ghost predicate KeepsRuns(p: Program, s: Slots, q: Program, t: Slots) {
    forall w: World, f: nat, vs: seq<Int32>, n: nat :: !RunMachine(w, p, s, StartMachine(p, s, f, vs), n).Wrong? ==>
        RunFound(w, p, s, q, t, f, vs, n)
  }

  lemma KeepsItself(p: Program, s: Slots)
    ensures KeepsRuns(p, s, p, s)
  {
    hide RunMachine, StartMachine;
    forall w: World, f: nat, vs: seq<Int32>, n: nat | !RunMachine(w, p, s, StartMachine(p, s, f, vs), n).Wrong?
      ensures RunFound(w, p, s, p, s, f, vs, n)
    {
      assert SameSeen(RunMachine(w, p, s, StartMachine(p, s, f, vs), n), RunMachine(w, p, s, StartMachine(p, s, f, vs),
          n));
    }
  }

  lemma KeepsBoth(p: Program, s: Slots, q: Program, t: Slots, r: Program, u: Slots)
    requires KeepsRuns(p, s, q, t) && KeepsRuns(q, t, r, u)
    ensures KeepsRuns(p, s, r, u)
  {
    hide RunMachine, StartMachine;
    forall w: World, f: nat, vs: seq<Int32>, n: nat | !RunMachine(w, p, s, StartMachine(p, s, f, vs), n).Wrong?
      ensures RunFound(w, p, s, r, u, f, vs, n)
    {
      assert RunFound(w, p, s, q, t, f, vs, n);
      var m: nat :| n <= m && SameSeen(RunMachine(w, p, s, StartMachine(p, s, f, vs), n),
        RunMachine(w, q, t, StartMachine(q, t, f, vs), m));
      assert RunFound(w, q, t, r, u, f, vs, m);
      var k: nat :| m <= k && SameSeen(RunMachine(w, q, t, StartMachine(q, t, f, vs), m),
        RunMachine(w, r, u, StartMachine(r, u, f, vs), k));
      assert SameSeen(RunMachine(w, p, s, StartMachine(p, s, f, vs), n), RunMachine(w, r, u, StartMachine(r, u, f, vs),
          k));
    }
  }

  /** Inlining one call keeps every run. */
  lemma InlinedKeepsRuns(j: Job)
    requires Sound(j)
    ensures KeepsRuns(j.p, j.s, j.q, j.t)
  {
    hide Sound, RunMachine, StartMachine;
    Shape(j);
    forall w: World, f: nat, vs: seq<Int32>, n: nat | !RunMachine(w, j.p, j.s, StartMachine(j.p, j.s, f, vs), n).Wrong?
      ensures RunFound(w, j.p, j.s, j.q, j.t, f, vs, n)
    {
      var m := InliningKeepsRuns(w, j, f, vs, n);
      hide StackWf, StackRel;
      assert SameSeen(RunMachine(w, j.p, j.s, StartMachine(j.p, j.s, f, vs), n),
          RunMachine(w, j.q, j.t, StartMachine(j.q, j.t, f, vs), m));
    }
  }

  // ---- Cloning the blocks of the callee ----

  /** The copied terminator; returns are rewritten later. */
  function RenamedTerm(t: Term, remap: Remap, base: nat, size: nat): Term {
    match t
    case Return(Some(o)) => Return(Some(Renamed(remap, o)))
    case Return(None) => t
    case _ => CloneTerm(t, remap, base, size)
  }

  function RenamedBlock(blk: Block, remap: Remap, base: nat, size: nat): Block {
    Block([], CloneBody(blk.body, remap), RenamedTerm(blk.term, remap, base, size))
  }

  /** The first `n` blocks of the callee have been copied behind `orig`, their allocas to its entry. */
  predicate Cloned(orig: Func, callee: Func, remap: Remap, n: nat, code: Func) {
    && orig != [] && n <= |callee| && |code| == |orig| + n
    && code[0] == orig[0].(body := Hoisted(callee[..n], remap) + orig[0].body)
    && (forall v :: 0 < v < |orig| ==> code[v] == orig[v])
    && (forall v :: 0 <= v < n ==> code[|orig| + v] == RenamedBlock(callee[v], remap, |orig|, |callee|))
  }

  lemma {:induction false} CloneBodyMore(body: seq<Instr>, remap: Remap, i: Instr)
    ensures CloneBody(body + [i], remap) == CloneBody(body, remap) + CloneOne(i, remap)
  {
    hide CloneOne;
    if body == [] {
      assert body + [i] == [i] && [i][1..] == [];
    } else {
      assert (body + [i])[1..] == body[1..] + [i] && (body + [i])[0] == body[0];
      CloneBodyMore(body[1..], remap, i);
      assert CloneBody(body + [i], remap) == CloneOne(body[0], remap) + CloneBody(body[1..] + [i], remap);
      assert CloneBody(body, remap) == CloneOne(body[0], remap) + CloneBody(body[1..], remap);
    }
  }

  lemma HoistedBodyMore(body: seq<Instr>, remap: Remap, i: Instr)
    ensures HoistedBody(body + [i], remap) == (if IsAlloca(i) then [CloneInstr(i, remap)] else []) +
        HoistedBody(body, remap)
  {
    assert (body + [i])[..|body|] == body;
  }

  lemma HoistedMore(callee: Func, remap: Remap, n: nat)
    requires n < |callee|
    ensures Hoisted(callee[..n + 1], remap) == HoistedBody(callee[n].body, remap) + Hoisted(callee[..n], remap)
  {
    assert callee[..n + 1][..n] == callee[..n];
  }

  /** The code with other instructions in its entry. */
  function WithEntry(code: Func, body: seq<Instr>): Func
    requires code != []
  {
    code[0 := code[0].(body := body)]
  }

  /** The instructions `done` have been copied: allocas to the entry of `code`, the others to `body`. */
  predicate Copied(code: Func, done: seq<Instr>, remap: Remap, r: Func, body: seq<Instr>, pushed: nat) {
    && code != [] && r == WithEntry(code, HoistedBody(done, remap) + code[0].body)
    && body == CloneBody(done, remap) && pushed == |HoistedBody(done, remap)|
  }

  lemma CopiedMore(code: Func, done: seq<Instr>, remap: Remap, r: Func, body: seq<Instr>, pushed: nat, o: Instr)
    requires Copied(code, done, remap, r, body, pushed)
    ensures r != [] && (IsAlloca(o) <==> IsAlloca(CloneInstr(o, remap)))
    ensures var i := CloneInstr(o, remap);
      if IsAlloca(o) then Copied(code, done + [o], remap, r[0 := r[0].(body := [i] + r[0].body)], body, pushed + 1)
      else Copied(code, done + [o], remap, r, body + [i], pushed)
  {
    SameKind(o, remap);
    CloneBodyMore(done, remap, o);
    HoistedBodyMore(done, remap, o);
    hide CloneInstr, CloneBody, HoistedBody, IsAlloca;
    var a, b := HoistedBody(done, remap), code[0].body;
    assert [CloneInstr(o, remap)] + (a + b) == ([CloneInstr(o, remap)] + a) + b;
    assert [] + a == a;
  }

  method CloneBlock(code: Func, blk: Block, remap: Remap, base: nat, size: nat) returns (r: Func, pushed: nat)
    requires code != []
    ensures pushed == |HoistedBody(blk.body, remap)|
    ensures r == WithEntry(code, HoistedBody(blk.body, remap) + code[0].body) + [RenamedBlock(blk, remap, base, size)]
  {
    hide CloneInstr, IsAlloca, CloneBody, HoistedBody, RenamedTerm, WithEntry, Copied;
    r, pushed := code, 0;
    var body: seq<Instr> := [];
    NothingCopied(code, remap);
    for k := 0 to |blk.body|
      invariant Copied(code, blk.body[..k], remap, r, body, pushed)
    {
      var i := CloneInstr(blk.body[k], remap);
      assert blk.body[..k + 1] == blk.body[..k] + [blk.body[k]];
      CopiedMore(code, blk.body[..k], remap, r, body, pushed, blk.body[k]);
      if IsAlloca(i) {
        r := r[0 := r[0].(body := [i] + r[0].body)];
        pushed := pushed + 1;
      } else {
        body := body + [i];
      }
    }
    assert blk.body[..|blk.body|] == blk.body;
    AllCopied(code, blk.body, remap, r, body, pushed);
    r := r + [Block([], body, RenamedTerm(blk.term, remap, base, size))];
  }

  lemma NothingCopied(code: Func, remap: Remap)
    requires code != []
    ensures Copied(code, [], remap, code, [], 0)
  {
    assert [] + code[0].body == code[0].body;
  }

  lemma AllCopied(code: Func, done: seq<Instr>, remap: Remap, r: Func, body: seq<Instr>, pushed: nat)
    requires Copied(code, done, remap, r, body, pushed)
    ensures code != [] && r == WithEntry(code, HoistedBody(done, remap) + code[0].body)
    ensures body == CloneBody(done, remap) && pushed == |HoistedBody(done, remap)|
  {
  }

  method CloneBlocks(orig: Func, callee: Func, remap: Remap) returns (code: Func, pushed: nat)
    requires orig != []
    ensures Cloned(orig, callee, remap, |callee|, code) && pushed == |Hoisted(callee, remap)|
  {
    hide HoistedBody, CloneBody, Hoisted, RenamedBlock, Cloned, WithEntry;
    code, pushed := orig, 0;
    NothingClonedYet(orig, callee, remap);
    for n := 0 to |callee|
      invariant Cloned(orig, callee, remap, n, code) && pushed == |Hoisted(callee[..n], remap)|
    {
      ClonedMore(orig, callee, remap, n, code);
      var more;
      code, more := CloneBlock(code, callee[n], remap, |orig|, |callee|);
      HoistedMore(callee, remap, n);
      pushed := pushed + more;
    }
    assert callee[..|callee|] == callee;
  }

  lemma NothingClonedYet(orig: Func, callee: Func, remap: Remap)
    requires orig != []
    ensures Cloned(orig, callee, remap, 0, orig) && Hoisted(callee[..0], remap) == []
  {
    assert [] + orig[0].body == orig[0].body;
  }

  lemma ClonedMore(orig: Func, callee: Func, remap: Remap, n: nat, code: Func)
    requires n < |callee| && Cloned(orig, callee, remap, n, code)
    ensures code != []
    ensures Cloned(orig, callee, remap, n + 1,
      WithEntry(code, HoistedBody(callee[n].body, remap) + code[0].body) +
        [RenamedBlock(callee[n], remap, |orig|, |callee|)])
  {
    hide HoistedBody, RenamedBlock, Hoisted;
    HoistedMore(callee, remap, n);
    var a, b, c := HoistedBody(callee[n].body, remap), Hoisted(callee[..n], remap), orig[0].body;
    assert a + (b + c) == (a + b) + c;
  }

  // ---- Splitting the block and rewriting the returns ----

  method SplitAt(code: Func, b: nat, at: nat, to: nat) returns (r: Func)
    requires b < |code| && at < |code[b].body|
    ensures |r| == |code| + 1 && (forall v :: 0 <= v < |code| && v != b ==> r[v] == code[v])
    ensures r[b] == Block(code[b].phis, code[b].body[..at], Jump(to)) &&
        r[|code|] == Block([], code[b].body[at + 1..], code[b].term)
  {
    var continuation := Block([], code[b].body[at + 1..], code[b].term);
    r := code[b := Block(code[b].phis, code[b].body[..at], Jump(to))];
    r := r + [continuation];
  }

  /** A return of a copied block becomes a move into the result of the call, if any, and a jump. */
  function Rewritten(blk: Block, call: Instr, to: nat): Block {
    if !blk.term.Return? then blk
    else
      Block(blk.phis,
        blk.body + if Target(call).Some? && blk.term.value.Some? then [Move(Target(call).value, blk.term.value.value)]
          else [],
        Jump(to))
  }

  method RewriteReturns(code: Func, base: nat, size: nat, call: Instr, to: nat) returns (r: Func)
    requires base + size <= |code|
    ensures |r| == |code| && forall v :: 0 <= v < |code| ==> r[v] == if base <= v < base + size then
        Rewritten(code[v], call, to) else code[v]
  {
    r := code;
    for n := 0 to size
      invariant |r| == |code| && forall v :: 0 <= v < |code| ==> r[v] == if base <= v < base + n then
          Rewritten(code[v], call, to) else code[v]
    {
      if r[base + n].term.Return? {
        var body := r[base + n].body;
        if Target(call).Some? && r[base + n].term.value.Some? {
          body := body + [Move(Target(call).value, r[base + n].term.value.value)];
        } else {
          assert body + [] == body;
        }
        r := r[base + n := Block(r[base + n].phis, body, Jump(to))];
      }
    }
  }

  lemma RewrittenIsClone(blk: Block, c: CallSite, base: nat, size: nat)
    ensures Rewritten(RenamedBlock(blk, c.remap, base, size), c.call, base + size) == Inlining.CloneBlock(blk, c, base,
        size)
  {
    hide CloneBody, Renamed;
    assert CloneBody(blk.body, c.remap) + [] == CloneBody(blk.body, c.remap);
  }

  /** Copying, splitting and rewriting together replace the call. */
  lemma PhasesReplace(orig: Func, callee: Func, c: CallSite, cloned: Func, split: Func, r: Func)
    requires c.b < |orig| && orig[c.b].body == c.before + [c.call] + c.after &&
        Cloned(orig, callee, c.remap, |callee|, cloned)
    requires var at := |c.before| + if c.b == 0 then |Hoisted(callee, c.remap)| else 0;
      && |split| == |cloned| + 1 && at < |cloned[c.b].body|
      && (forall v :: 0 <= v < |cloned| && v != c.b ==> split[v] == cloned[v])
      && split[c.b] == Block(cloned[c.b].phis, cloned[c.b].body[..at], Jump(|orig|))
      && split[|cloned|] == Block([], cloned[c.b].body[at + 1..], cloned[c.b].term)
    requires |r| == |split|
    requires forall v :: 0 <= v < |split| ==> r[v] == if |orig| <= v < |orig| + |callee| then
        Rewritten(split[v], c.call, |cloned|) else split[v]
    ensures Replaced(orig, callee, c, Hoisted(callee, c.remap), r)
  {
    hide Hoisted, Inlining.CloneBlock, Rewritten, RenamedBlock, Cloned;
    var hoisted := Hoisted(callee, c.remap);
    ClonedFacts(orig, callee, c.remap, cloned);
    var front := if c.b == 0 then hoisted else [];
    AroundCall(front, c.before, c.call, c.after);
    forall x | 0 <= x < |orig| && x != c.b
      ensures r[x] == orig[x].(body := (if x == 0 then hoisted else []) + orig[x].body)
    {
    }
    assert OldBlocks(orig, c, hoisted, r);
    assert SplitBlocks(orig, |callee|, c, hoisted, r);
    forall x | 0 <= x < |callee|
      ensures r[|orig| + x] == Inlining.CloneBlock(callee[x], c, |orig|, |callee|)
    {
      assert split[|orig| + x] == cloned[|orig| + x];
      RewrittenIsClone(callee[x], c, |orig|, |callee|);
    }
  }

  lemma AroundCall(front: seq<Instr>, before: seq<Instr>, call: Instr, after: seq<Instr>)
    ensures var body := front + (before + [call] + after);
      body[..|before| + |front|] == front + before && body[|before| + |front| + 1..] == after
  {
  }

  lemma ClonedFacts(orig: Func, callee: Func, remap: Remap, cloned: Func)
    requires Cloned(orig, callee, remap, |callee|, cloned)
    ensures |cloned| == |orig| + |callee|
    ensures forall x :: 0 <= x < |orig| ==>
        cloned[x] == orig[x].(body := (if x == 0 then Hoisted(callee, remap) else []) + orig[x].body)
    ensures forall x :: 0 <= x < |callee| ==>
        cloned[|orig| + x] == RenamedBlock(callee[x], remap, |orig|, |callee|)
  {
    hide Hoisted, RenamedBlock;
    assert callee[..|callee|] == callee;
    forall x | 0 <= x < |orig|
      ensures [] + orig[x].body == orig[x].body
    {
    }
  }

  lemma ClonedAt(orig: Func, callee: Func, remap: Remap, code: Func, b: nat, at: nat)
    requires Has(orig, b, at) && Cloned(orig, callee, remap, |callee|, code)
    ensures |code| == |orig| + |callee| && Has(code, b, if b == 0 then at + |Hoisted(callee, remap)| else at)
  {
    assert callee[..|callee|] == callee;
  }

  /** Copy the blocks, split the block of the call, and rewrite the returns. */
  method ReplaceCall(orig: Func, callee: Func, ghost c: CallSite, b: nat, at: nat, remap: Remap) returns (code: Func)
    requires Has(orig, b, at) && c.b == b && c.remap == remap
    requires c.before == orig[b].body[..at] && c.call == orig[b].body[at] && c.after == orig[b].body[at + 1..]
    ensures Replaced(orig, callee, c, Hoisted(callee, remap), code)
  {
    hide Cloned, Replaced, Hoisted, Rewritten;
    var call := orig[b].body[at];
    var base, size := |orig|, |callee|;
    var cloned, pushed := CloneBlocks(orig, callee, remap);
    ClonedAt(orig, callee, remap, cloned, b, at);
    var index := if b == 0 then at + pushed else at;
    var cont := |cloned|;
    var split := SplitAt(cloned, b, index, if size == 0 then cont else base);
    code := RewriteReturns(split, base, size, call, cont);
    PhasesReplace(orig, callee, c, cloned, split, code);
  }

  // ---- The rename map ----

  /** The `nums[x]`-th name belongs to the result `x`; results before instruction `k` of block `b` have names. */
  ghost predicate Numbered(callee: Fn, args: seq<Operand>, b: nat, k: nat, remap: Remap, nums: map<Name, nat>, lo: nat,
      hi: nat) {
    && lo <= hi && |args| == |callee.params|
    && (forall x :: x in nums ==>
      Defines(callee, x) && lo < nums[x] <= hi && x in remap &&
      remap[x] == Var(InlineName(nums[x])))
    && (forall x, y :: x in nums && y in nums && x != y ==> nums[x] != nums[y])
    && (forall j :: 0 <= j < |args| ==> callee.params[j] in remap && remap[callee.params[j]] == args[j])
    && (forall x :: x in remap ==> x in callee.params || Defines(callee, x))
    && (forall c: nat, i: nat ::
      Has(callee.code, c, i) && (c < b || (c == b && i < k)) && Target(callee.code[c].body[i]).Some? ==>
      Target(callee.code[c].body[i]).value in nums)
  }

  lemma NumberTarget(callee: Fn, args: seq<Operand>, b: nat, k: nat, remap: Remap, nums: map<Name, nat>, lo: nat,
      hi: nat)
    requires Numbered(callee, args, b, k, remap, nums, lo, hi) && NamesOk(callee) && Has(callee.code, b, k)
    ensures match Target(callee.code[b].body[k])
      case None => Numbered(callee, args, b, k + 1, remap, nums, lo, hi)
      case Some(x) => Numbered(callee, args, b, k + 1, remap[x := Var(InlineName(hi + 1))], nums[x := hi + 1], lo,
        hi + 1)
  {
    match Target(callee.code[b].body[k])
    case None => hide InlineName, Defines;
    case Some(x) => NumberResult(callee, args, b, k, remap, nums, lo, hi, x);
  }

  lemma NumberResult(callee: Fn, args: seq<Operand>, b: nat, k: nat, remap: Remap, nums: map<Name, nat>, lo: nat,
      hi: nat, x: Name)
    requires Numbered(callee, args, b, k, remap, nums, lo, hi) && NamesOk(callee) && Has(callee.code, b, k) &&
        Target(callee.code[b].body[k]) == Some(x)
    ensures Numbered(callee, args, b, k + 1, remap[x := Var(InlineName(hi + 1))], nums[x := hi + 1], lo, hi + 1)
  {
    assert Defines(callee, x);
    hide InlineName, Defines, Mentions, NamesOk;
    assert x !in callee.params by {
      NotParam(callee, x);
    }
    var more, named := nums[x := hi + 1], remap[x := Var(InlineName(hi + 1))];
    forall c: nat, i: nat | Has(callee.code, c, i) && (c < b || (c == b && i < k + 1)) &&
        Target(callee.code[c].body[i]).Some?
      ensures Target(callee.code[c].body[i]).value in more
    {
      assert c < b || (c == b && i < k) || (c == b && i == k);
    }
  }

  lemma NotParam(f: Fn, x: Name)
    requires NamesOk(f) && Defines(f, x)
    ensures x !in f.params
  {
  }

  lemma NumberReturn(callee: Fn, args: seq<Operand>, b: nat, k: nat, remap: Remap, nums: map<Name, nat>, lo: nat,
      hi: nat, x: Name, n: Name)
    requires Numbered(callee, args, b, k, remap, nums, lo, hi) && NamesOk(callee) && b < |callee.code| &&
        Var(x) in TermUses(callee.code[b].term)
    requires x !in remap
    ensures Numbered(callee, args, b, k, remap[x := Var(n)], nums, lo, hi)
  {
    assert Mentions(callee, {}, x);
    hide Defines, InlineName, Mentions;
  }

  lemma NextBlock(callee: Fn, args: seq<Operand>, b: nat, remap: Remap, nums: map<Name, nat>, lo: nat, hi: nat)
    requires b < |callee.code| && Numbered(callee, args, b, |callee.code[b].body|, remap, nums, lo, hi)
    ensures Numbered(callee, args, b + 1, 0, remap, nums, lo, hi)
  {
    hide Defines, InlineName;
  }

  /** When everything has been seen the map renames every result to a new name. */
  lemma NumberedRemap(f: Fn, slots: set<Name>, callee: Fn, c: CallSite, nums: map<Name, nat>, lo: nat, hi: nat)
    requires c.call.Effect? && Numbered(callee, c.call.args, |callee.code|, 0, c.remap, nums, lo, hi) &&
        NamesFree(f, slots, lo) && NamesOk(callee)
    ensures RemapOk(f, slots, callee, c) && lo <= hi
    ensures forall x :: Defines(callee, x) ==>
        x in nums && x in c.remap && c.remap[x] == Var(InlineName(nums[x])) &&
        nums[x] <= hi
  {
    hide InlineName, Mentions;
    forall x | Defines(callee, x)
      ensures x in nums
    {
      var i := DefinedBy(callee, x);
      var b: nat, k: nat :| Has(callee.code, b, k) && callee.code[b].body[k] == i;
    }
    hide Defines;
    forall x, y | Defines(callee, x) && Defines(callee, y) && x != y
      ensures c.remap[x] != c.remap[y]
    {
      if c.remap[x] == c.remap[y] {
        InlineNamesDiffer(nums[x], nums[y]);
      }
    }
    forall x | Defines(callee, x)
      ensures !Mentions(f, slots, c.remap[x].name)
    {
      assert !Mentions(f, slots, InlineName(nums[x]));
    }
    forall x | x in callee.params
      ensures x in c.remap
    {
      var j :| 0 <= j < |callee.params| && callee.params[j] == x;
    }
  }

  lemma FreeKept(j: Job, nums: map<Name, nat>, lo: nat, hi: nat)
    requires Sound(j) && Sized(j) && NamesFree(Caller(j), j.s[j.c.g], lo) && lo <= hi
    requires forall x :: Defines(Inner(j), x) ==>
        x in nums && x in j.c.remap &&
        j.c.remap[x] == Var(InlineName(nums[x])) && nums[x] <= hi
    ensures NamesFree(j.q[j.c.g], j.t[j.c.g], hi)
  {
    hide Sound, Mentions, InlineName;
    Shape(j);
    forall m: nat | m > hi
      ensures !Mentions(j.q[j.c.g], j.t[j.c.g], InlineName(m))
    {
      var x := InlineName(m);
      if Mentions(j.q[j.c.g], j.t[j.c.g], x) {
        if x in j.t[j.c.g] {
          NewSlotIsFresh(j, x);
          if x in j.s[j.c.g] {
            SlotMentioned(Caller(j), j.s[j.c.g], x);
          }
        } else {
          NotSlotMentions(j.q[j.c.g], j.t[j.c.g], x);
          MentionOrigin(j, x);
          if Mentions(Caller(j), {}, x) {
            MoreMentions(Caller(j), j.s[j.c.g], x);
          }
        }
        var y :| Defines(Inner(j), y) && y in j.c.remap && j.c.remap[y] == Var(x);
        InlineNamesDiffer(nums[y], m);
      }
    }
  }

  lemma SlotMentioned(f: Fn, slots: set<Name>, x: Name)
    requires x in slots
    ensures Mentions(f, slots, x)
  {
  }

  lemma NotSlotMentions(f: Fn, slots: set<Name>, x: Name)
    requires Mentions(f, slots, x) && x !in slots
    ensures Mentions(f, {}, x)
  {
  }

  // ---- Sizes ----

  /** The instructions of the blocks before `n`, terminators included. */
  function Size(code: Func, n: nat): nat
    requires n <= |code|
  {
    if n == 0 then 0 else Size(code, n - 1) + |code[n - 1].body| + if code[n - 1].term.Missing? then 0 else 1
  }

  method CountInstructions(code: Func) returns (count: nat)
    ensures count == Size(code, |code|)
  {
    count := 0;
    for n := 0 to |code|
      invariant count == Size(code, n)
    {
      count := count + |code[n].body|;
      if !code[n].term.Missing? {
        count := count + 1;
      }
    }
  }

  // ---- The pass ----

  predicate SettledAt(p: Program, g: nat, tried: set<nat>, i: Instr) {
    Callee(p, i).Some? ==> Callee(p, i).value == g || Callee(p, i).value in tried
  }

  /** Nothing is left to inline: each call is of the function itself, of the outside, or of a function tried before. */
  ghost predicate Settled(p: Program, g: nat, tried: set<nat>) {
    g < |p| && forall b: nat, k: nat :: Has(p[g].code, b, k) ==> SettledAt(p, g, tried, p[g].code[b].body[k])
  }

  /** Nothing but function `g` has changed. */
  ghost predicate Others(g: nat, p: Program, tried: seq<set<nat>>, q: Program, more: seq<set<nat>>) {
    |q| == |p| == |tried| == |more| && forall f :: 0 <= f < |p| && f != g ==> q[f] == p[f] && more[f] == tried[f]
  }

  /** Nothing is left to inline before instruction `k` of block `b`. */
  ghost predicate SettledBefore(p: Program, g: nat, tried: set<nat>, b: nat, k: nat) {
    g < |p| && forall c: nat, i: nat :: Has(p[g].code, c, i) && (c < b || (c == b && i < k)) ==>
      SettledAt(p, g, tried, p[g].code[c].body[i])
  }

  lemma NothingScanned(p: Program, g: nat, tried: set<nat>)
    requires g < |p|
    ensures SettledBefore(p, g, tried, 0, 0)
  {
  }

  lemma ScannedMore(p: Program, g: nat, tried: set<nat>, more: set<nat>, b: nat, k: nat)
    requires SettledBefore(p, g, tried, b, k) && tried <= more && Has(p[g].code, b, k) &&
        SettledAt(p, g, more, p[g].code[b].body[k])
    ensures SettledBefore(p, g, more, b, k + 1)
  {
    hide Callee;
  }

  lemma ScannedBlock(p: Program, g: nat, tried: set<nat>, b: nat)
    requires g < |p| && b < |p[g].code| && SettledBefore(p, g, tried, b, |p[g].code[b].body|)
    ensures SettledBefore(p, g, tried, b + 1, 0)
  {
    hide SettledAt;
  }

  lemma AllScanned(p: Program, g: nat, tried: set<nat>)
    requires g < |p| && SettledBefore(p, g, tried, |p[g].code|, 0)
    ensures Settled(p, g, tried)
  {
    hide SettledAt;
  }

  /** Another function below `n` has been tried. */
  ghost predicate Grown(n: nat, tried: set<nat>, more: set<nat>) {
    tried <= more && exists h: nat :: h < n && h in more && h !in tried
  }

  ghost predicate AllAllocasFirst(p: Program) {
    forall k: nat :: k < |p| ==> AllocasFirst(p[k].code)
  }

  /** From `p` to `q`: every run is kept, no function is forgotten among those tried, and allocas stay at the entry. */
  ghost predicate Onward(p: Program, s: Slots, tried: seq<set<nat>>, q: Program, t: Slots, more: seq<set<nat>>) {
    && |q| == |p| == |tried| == |more| && KeepsRuns(p, s, q, t) && (forall f :: 0 <= f < |p| ==>
      tried[f] <= more[f] &&
      q[f].builtin == p[f].builtin)
    && (AllAllocasFirst(p) ==> AllAllocasFirst(q))
  }

  lemma OnwardItself(p: Program, s: Slots, tried: seq<set<nat>>)
    requires |tried| == |p|
    ensures Onward(p, s, tried, p, s, tried)
  {
    KeepsItself(p, s);
    hide KeepsRuns;
  }

  lemma OnwardBoth(p: Program, s: Slots, a: seq<set<nat>>, q: Program, t: Slots, b: seq<set<nat>>, r: Program,
      u: Slots, c: seq<set<nat>>)
    requires Onward(p, s, a, q, t, b) && Onward(q, t, b, r, u, c)
    ensures Onward(p, s, a, r, u, c)
    ensures forall f, n :: 0 <= f < |p| && Grown(n, a[f], b[f]) ==> Grown(n, a[f], c[f])
    ensures forall f, n :: 0 <= f < |p| && Grown(n, b[f], c[f]) ==> Grown(n, a[f], c[f])
    ensures forall f :: 0 <= f < |p| ==> b[f] <= c[f]
  {
    KeepsBoth(p, s, q, t, r, u);
    hide KeepsRuns, AllAllocasFirst;
  }

  function Untried(n: nat, tried: set<nat>): nat {
    if n == 0 then 0 else Untried(n - 1, tried) + if n - 1 in tried then 0 else 1
  }

  lemma {:induction false} FewerUntried(n: nat, tried: set<nat>, more: set<nat>)
    requires tried <= more
    ensures Untried(n, more) <= Untried(n, tried)
    ensures Grown(n, tried, more) ==> Untried(n, more) < Untried(n, tried)
  {
    if n > 0 {
      FewerUntried(n - 1, tried, more);
      if Grown(n, tried, more) && n - 1 in more && n - 1 !in tried {
      } else if Grown(n, tried, more) {
        assert Grown(n - 1, tried, more);
      }
    }
  }

  lemma OnwardTried(p: Program, s: Slots, tried: seq<set<nat>>, q: Program, t: Slots, more: seq<set<nat>>, g: nat)
    requires Onward(p, s, tried, q, t, more) && g < |p|
    ensures |q| == |p| && |more| == |tried| == |p| && Untried(|p|, more[g]) <= Untried(|p|, tried[g])
    ensures Grown(|p|, tried[g], more[g]) ==> Untried(|p|, more[g]) < Untried(|p|, tried[g])
  {
    FewerUntried(|p|, tried[g], more[g]);
  }

  /** The pairs of caller and callee, among `n` functions, that have not been tried. */
  function UntriedPairs(n: nat, tried: seq<set<nat>>): nat {
    if tried == [] then 0 else UntriedPairs(n, tried[..|tried| - 1]) + Untried(n, tried[|tried| - 1])
  }

  lemma {:induction false} FewerPairs(n: nat, tried: seq<set<nat>>, more: seq<set<nat>>)
    requires |tried| == |more| && forall f :: 0 <= f < |tried| ==> tried[f] <= more[f]
    ensures UntriedPairs(n, more) <= UntriedPairs(n, tried)
    ensures (exists f :: 0 <= f < |tried| && Grown(n, tried[f], more[f])) ==>
        UntriedPairs(n, more) < UntriedPairs(n, tried)
  {
    hide Grown;
    if tried != [] {
      var k := |tried| - 1;
      FewerPairs(n, tried[..k], more[..k]);
      FewerUntried(n, tried[k], more[k]);
      if f :| 0 <= f < |tried| && Grown(n, tried[f], more[f]) && f < k {
        assert Grown(n, tried[..k][f], more[..k][f]);
      }
    }
  }

  lemma OnwardPairs(p: Program, s: Slots, tried: seq<set<nat>>, q: Program, t: Slots, more: seq<set<nat>>)
    requires Onward(p, s, tried, q, t, more)
    ensures |q| == |p| && UntriedPairs(|p|, more) <= UntriedPairs(|p|, tried)
    ensures (exists f :: 0 <= f < |p| && Grown(|p|, tried[f], more[f])) ==>
        UntriedPairs(|p|, more) < UntriedPairs(|p|, tried)
  {
    FewerPairs(|p|, tried, more);
  }

  ghost predicate NoPhis(p: Program) {
    forall k: nat, b: nat :: k < |p| && b < |p[k].code| ==> p[k].code[b].phis == []
  }

  // ---- The record of a run ----

  /** Function `g` has come upon a call of `h` that it had not tried before; the program before and after. */
  datatype Attempt = Attempt(g: nat, h: nat, call: Instr, before: Program, after: Program)

  /** The callee is small, the arguments match, and there is a result if one is used. */
  ghost predicate Fits(a: Attempt)
    requires a.h < |a.before|
  {
    var callee := a.before[a.h];
    Size(callee.code, |callee.code|) <= 50 && |Uses(a.call)| == |callee.params| &&
    (callee.code != [] || Target(a.call).None?)
  }

  /** The call has been replaced by a copy of its callee. */
  ghost predicate CallReplaced(a: Attempt)
    requires a.h < |a.before|
  {
    exists c: CallSite, s: Slots, t: Slots :: c.g == a.g && c.h == a.h && c.call == a.call &&
      Inlined(a.before, s, c, Hoisted(a.before[a.h].code, c.remap), a.after, t)
  }

  /** The call is there, its callee has not been tried in this caller, and it is replaced exactly when it fits. */
  ghost predicate Attempted(a: Attempt, tried: seq<set<nat>>) {
    && |tried| == |a.before| && a.g < |a.before| && a.h < |a.before| && a.g != a.h && a.h !in tried[a.g]
    && Contains(a.before[a.g].code, a.call) && Callee(a.before, a.call) == Some(a.h)
    && if Fits(a) then CallReplaced(a) else a.after == a.before
  }

  function TriedAfter(tried: seq<set<nat>>, log: seq<Attempt>): (r: seq<set<nat>>)
    ensures |r| == |tried|
  {
    if log == [] then tried
    else
      var r, a := TriedAfter(tried, log[..|log| - 1]), log[|log| - 1];
      if a.g < |tried| then r[a.g := r[a.g] + {a.h}] else r
  }

  /** The attempts lead from `p` to `q`, each taking over what the one before it left. */
  ghost predicate Account(p: Program, tried: seq<set<nat>>, log: seq<Attempt>, q: Program) {
    if log == [] then q == p
    else
      var n := |log| - 1;
      Attempted(log[n], TriedAfter(tried, log[..n])) && log[n].after == q &&
      Account(p, tried, log[..n], log[n].before)
  }

  ghost predicate Logged(p: Program, tried: seq<set<nat>>, log: seq<Attempt>, q: Program, more: seq<set<nat>>) {
    Account(p, tried, log, q) && more == TriedAfter(tried, log)
  }

  lemma LoggedFacts(p: Program, tried: seq<set<nat>>, log: seq<Attempt>, q: Program, more: seq<set<nat>>)
    requires Logged(p, tried, log, q, more)
    ensures Account(p, tried, log, q) && more == TriedAfter(tried, log) && |more| == |tried|
  {
  }

  lemma NothingLogged(p: Program, tried: seq<set<nat>>)
    ensures Logged(p, tried, [], p, tried)
  {
  }

  lemma OneLogged(tried: seq<set<nat>>, a: Attempt)
    requires Attempted(a, tried)
    ensures Logged(a.before, tried, [a], a.after, tried[a.g := tried[a.g] + {a.h}])
  {
    hide Attempted;
    assert [a][..0] == [];
    assert TriedAfter(tried, []) == tried && Account(a.before, tried, [], a.before);
    assert a.g < |tried| by {
      AttemptInRange(a, tried);
    }
  }

  /** The call at `k` of block `b` is one that `g` has not tried before. */
  ghost predicate NewCall(a: Attempt, tried: seq<set<nat>>, b: nat, k: nat) {
    && |tried| == |a.before| && a.g < |a.before| && a.h < |a.before| && a.g != a.h && a.h !in tried[a.g]
    && Has(a.before[a.g].code, b, k) && a.before[a.g].code[b].body[k] == a.call
    && Callee(a.before, a.call) == Some(a.h)
  }

  lemma CallLogged(tried: seq<set<nat>>, a: Attempt, b: nat, k: nat, c: CallSite, s: Slots, t: Slots)
    requires NewCall(a, tried, b, k) && Size(a.before[a.h].code, |a.before[a.h].code|) <= 50
    requires |Uses(a.call)| == |a.before[a.h].params| && (a.before[a.h].code != [] || Target(a.call).None?)
    requires c.g == a.g && c.h == a.h && c.call == a.call
    requires Inlined(a.before, s, c, Hoisted(a.before[a.h].code, c.remap), a.after, t)
    ensures Logged(a.before, tried, [a], a.after, tried[a.g := tried[a.g] + {a.h}])
  {
    hide Inlined, Hoisted, Logged, Callee;
    assert Contains(a.before[a.g].code, a.call);
    assert CallReplaced(a);
    OneLogged(tried, a);
  }

  lemma RefusalLogged(tried: seq<set<nat>>, a: Attempt, b: nat, k: nat)
    requires NewCall(a, tried, b, k) && !Fits(a) && a.after == a.before
    ensures Logged(a.before, tried, [a], a.after, tried[a.g := tried[a.g] + {a.h}])
  {
    hide Logged, Callee, Fits;
    assert Contains(a.before[a.g].code, a.call);
    OneLogged(tried, a);
  }

  lemma AttemptInRange(a: Attempt, tried: seq<set<nat>>)
    requires Attempted(a, tried)
    ensures a.g < |tried|
  {
  }

  lemma {:induction false} LoggedBoth(p: Program, tried: seq<set<nat>>, log: seq<Attempt>, q: Program,
      more: seq<set<nat>>, log': seq<Attempt>, r: Program, rest: seq<set<nat>>)
    requires Logged(p, tried, log, q, more) && Logged(q, more, log', r, rest)
    ensures Logged(p, tried, log + log', r, rest)
    decreases |log'|
  {
    hide Attempted;
    if log' == [] {
      assert log + log' == log;
    } else {
      var n := |log'| - 1;
      LoggedBoth(p, tried, log, q, more, log'[..n], log'[n].before, TriedAfter(more, log'[..n]));
      assert (log + log')[..|log| + n] == log + log'[..n];
    }
  }

  lemma {:induction false} LoggedAt(p: Program, tried: seq<set<nat>>, log: seq<Attempt>, q: Program, n: nat)
    requires Account(p, tried, log, q) && n < |log|
    ensures Attempted(log[n], TriedAfter(tried, log[..n])) && Account(p, tried, log[..n], log[n].before)
    decreases |log|
  {
    hide Attempted;
    var m := |log| - 1;
    if n < m {
      LoggedAt(p, tried, log[..m], log[m].before, n);
      assert log[..m][..n] == log[..n];
    }
  }

  lemma {:induction false} ListedIsTried(tried: seq<set<nat>>, log: seq<Attempt>, g: nat, h: nat)
    requires g < |tried|
    ensures h in TriedAfter(tried, log)[g] <==> h in tried[g] || Listed(log, g, h)
    decreases |log|
  {
    if log != [] {
      var n := |log| - 1;
      ListedIsTried(tried, log[..n], g, h);
      assert Listed(log, g, h) <==> Listed(log[..n], g, h) || (log[n].g == g && log[n].h == h) by {
        if i: nat :| i < |log| && log[i].g == g && log[i].h == h && i < n {
          assert log[..n][i] == log[i];
        }
        if i: nat :| i < n && log[..n][i].g == g && log[..n][i].h == h {
          assert log[i] == log[..n][i];
        }
      }
    }
  }

  ghost predicate Listed(log: seq<Attempt>, g: nat, h: nat) {
    exists n: nat :: n < |log| && log[n].g == g && log[n].h == h
  }

  /** No call of the same callee is tried twice in one caller. */
  lemma TriedOnce(p: Program, tried: seq<set<nat>>, log: seq<Attempt>, q: Program, m: nat, n: nat)
    requires Account(p, tried, log, q) && m < n < |log|
    ensures log[m].g != log[n].g || log[m].h != log[n].h
  {
    hide Account, CallReplaced, Fits;
    LoggedAt(p, tried, log, q, n);
    if log[m].g == log[n].g {
      ListedIsTried(tried, log[..n], log[n].g, log[m].h);
      assert log[..n][m] == log[m];
      assert Listed(log[..n], log[n].g, log[m].h);
    }
  }

  /** A call that is left goes to the caller itself, or was accounted for: some call of its callee was replaced, or the
   * callee was too large or did not match that call. */
  ghost predicate Answered(p: Program, g: nat, tried: set<nat>, log: seq<Attempt>, i: Instr) {
    Callee(p, i).Some? && Callee(p, i).value != g && Callee(p, i).value !in tried ==>
      Listed(log, g, Callee(p, i).value)
  }

  lemma SettledAnswered(p: Program, g: nat, tried: seq<set<nat>>, log: seq<Attempt>, b: nat, k: nat)
    requires g < |tried| && Settled(p, g, TriedAfter(tried, log)[g]) && Has(p[g].code, b, k)
    ensures Answered(p, g, tried[g], log, p[g].code[b].body[k])
  {
    var i := p[g].code[b].body[k];
    assert SettledAt(p, g, TriedAfter(tried, log)[g], i);
    if Callee(p, i).Some? {
      ListedIsTried(tried, log, g, Callee(p, i).value);
    }
  }

  class FunctionInliner {
    var program: Program
    /** How many names the allocator of each function has made. */
    var counters: seq<nat>
    var returnCounters: seq<nat>
    /** The functions that have been inlined, or tried, in each function. */
    var inlined: seq<set<nat>>
    ghost var slots: Slots

    ghost predicate Valid()
      reads this
    {
      && Safe(program, slots) && NoPhis(program) && |counters| == |returnCounters| == |inlined| == |program|
      && (forall k :: 0 <= k < |program| ==> NamesFree(program[k], slots[k], counters[k]))
    }

    method BuildRemap(g: nat, h: nat, args: seq<Operand>) returns (remap: Remap, ghost nums: map<Name, nat>)
      requires g < |counters| == |returnCounters| && h < |program| && NamesOk(program[h]) &&
          |args| == |program[h].params|
      modifies `counters, `returnCounters
      ensures |counters| == |returnCounters| == old(|counters|) && forall k :: 0 <= k < |counters| && k != g ==>
          counters[k] == old(counters[k])
      ensures Numbered(program[h], args, |program[h].code|, 0, remap, nums, old(counters[g]), counters[g])
    {
      hide InlineName, ReturnName, Numbered;
      var callee := program[h];
      ghost var lo := counters[g];
      remap, nums := map[], map[];
      for i := 0 to |args|
        invariant forall x :: x in remap ==> x in callee.params
        invariant forall j :: 0 <= j < i ==> callee.params[j] in remap && remap[callee.params[j]] == args[j]
      {
        remap := remap[callee.params[i] := args[i]];
      }
      NothingNumbered(callee, args, remap, lo);
      for b := 0 to |callee.code|
        invariant |counters| == |returnCounters| == old(|counters|) && forall k :: 0 <= k < |counters| && k != g ==>
            counters[k] == old(counters[k])
        invariant Numbered(callee, args, b, 0, remap, nums, lo, counters[g])
      {
        for k := 0 to |callee.code[b].body|
          invariant |counters| == |returnCounters| == old(|counters|) && forall k :: 0 <= k < |counters| && k != g ==>
              counters[k] == old(counters[k])
          invariant Numbered(callee, args, b, k, remap, nums, lo, counters[g])
        {
          NumberTarget(callee, args, b, k, remap, nums, lo, counters[g]);
          match Target(callee.code[b].body[k])
          case None =>
          case Some(x) =>
            counters := counters[g := counters[g] + 1];
            remap := remap[x := Var(InlineName(counters[g]))];
            nums := nums[x := counters[g]];
        }
        match callee.code[b].term {
        case Return(Some(Var(x))) =>
          if x !in remap {
            returnCounters := returnCounters[g := returnCounters[g] + 1];
            NumberReturn(callee, args, b, |callee.code[b].body|, remap, nums, lo, counters[g], x,
              ReturnName(returnCounters[g]));
            remap := remap[x := Var(ReturnName(returnCounters[g]))];
          }
        case _ =>
        }
        NextBlock(callee, args, b, remap, nums, lo, counters[g]);
      }
    }

    /** Replace one call by a copy of its callee. */
    method InlineCall(g: nat, b: nat, at: nat, h: nat) returns (ghost c: CallSite)
      requires Valid() && g < |program| && h < |program| && g != h
      requires Has(program[g].code, b, at) && Callee(program, program[g].code[b].body[at]) == Some(h)
      requires |program[g].code[b].body[at].args| == |program[h].params|
      requires program[h].code == [] ==> Target(program[g].code[b].body[at]).None?
      modifies `program, `counters, `returnCounters, `slots
      ensures Valid() && |program| == old(|program|)
      ensures c.g == g && c.h == h && c.b == b && |c.before| == at && c.call == old(program)[g].code[b].body[at]
      ensures Inlined(old(program), old(slots), c, Hoisted(old(program)[h].code, c.remap), program, slots)
      ensures KeepsRuns(old(program), old(slots), program, slots)
      ensures AllocasFirst(old(program)[g].code) ==> AllocasFirst(program[g].code)
    {
      hide Safe, InlineName, KeepsRuns, AllocasFirst, Numbered, RemapOk, Replaced, NamesFree, Inlined, NamesOk,
        SlotsOk, AllPrivate, NewSlots, NoPhis;
      SafeFacts(program, slots, g, h, b, at);
      var caller, callee := program[g], program[h];
      var call := caller.code[b].body[at];
      ghost var nums;
      var remap;
      remap, nums := BuildRemap(g, h, call.args);
      c := CallSite(g, h, b, caller.code[b].body[..at], call, caller.code[b].body[at + 1..], remap);
      NumberedRemap(caller, slots[g], callee, c, nums, old(counters[g]), counters[g]);
      var code := ReplaceCall(caller.code, callee.code, c, b, at, remap);
      ghost var j := Job(program, slots, c, Hoisted(callee.code, remap),
        program[g := caller.(code := code)], slots[g := NewSlots(slots[g], slots[h], remap)]);
      program := program[g := caller.(code := code)];
      slots := j.t;
      NowInlined(j);
      AfterInlining(j, nums, old(counters[g]), counters[g]);
    }

    /** Look at instruction `k` of block `b`: the first call of a function that is small enough is inlined. */
    method TryInline(g: nat, b: nat, k: nat) returns (changed: bool, ghost log: seq<Attempt>)
      requires Valid() && g < |program| && Has(program[g].code, b, k)
      modifies this
      ensures Valid() && Onward(old(program), old(slots), old(inlined), program, slots, inlined)
      ensures Others(g, old(program), old(inlined), program, inlined)
      ensures Logged(old(program), old(inlined), log, program, inlined)
      ensures !changed ==>
          program == old(program) && slots == old(slots) &&
          SettledAt(program, g, inlined[g], program[g].code[b].body[k])
      ensures changed ==> Grown(|program|, old(inlined[g]), inlined[g])
    {
      hide Safe, KeepsRuns, NamesFree, NoPhis, AllocasFirst, Callee, Inlined, Logged;
      changed, log := false, [];
      KeepsItself(program, slots);
      NothingLogged(program, inlined);
      var i := program[g].code[b].body[k];
      match Callee(program, i)
      case None =>
      case Some(h) =>
        CalleeInRange(program, i);
        CalleeIsCall(program, i);
        if h != g && h !in inlined[g] {
          inlined := inlined[g := inlined[g] + {h}];
          var count := CountInstructions(program[h].code);
          if count <= MAX_INLINE_INSTRUCTIONS && |i.args| == |program[h].params| &&
              (program[h].code != [] || Target(i).None?) {
            ghost var c := InlineCall(g, b, k, h);
            changed := true;
            InlinedRest(old(program), old(slots), c, Hoisted(old(program)[h].code, c.remap), program, slots);
            CallLogged(old(inlined), Attempt(g, h, i, old(program), program), b, k, c, old(slots), slots);
          } else {
            RefusalLogged(old(inlined), Attempt(g, h, i, program, program), b, k);
          }
          log := [Attempt(g, h, i, old(program), program)];
        }
    }

    /** One scan of function `g`, up to the first call that is inlined. */
    method ScanOnce(g: nat) returns (changed: bool, ghost log: seq<Attempt>)
      requires Valid() && g < |program|
      modifies this
      ensures Valid() && Onward(old(program), old(slots), old(inlined), program, slots, inlined)
      ensures Others(g, old(program), old(inlined), program, inlined)
      ensures Logged(old(program), old(inlined), log, program, inlined)
      ensures !changed ==> program == old(program) && slots == old(slots) && Settled(program, g, inlined[g])
      ensures changed ==> Grown(|program|, old(inlined[g]), inlined[g])
    {
      hide Onward, SettledBefore, Safe, NamesFree, NoPhis, Logged;
      changed, log := false, [];
      NothingLogged(program, inlined);
      OnwardItself(program, slots, inlined);
      NothingScanned(program, g, inlined[g]);
      var b := 0;
      while b < |program[g].code| && !changed
        invariant Valid() && g < |program| && Onward(old(program), old(slots), old(inlined), program, slots, inlined)
        invariant Others(g, old(program), old(inlined), program, inlined)
        invariant Logged(old(program), old(inlined), log, program, inlined)
        invariant !changed ==>
            b <= |program[g].code| && program == old(program) && slots == old(slots) &&
            SettledBefore(program, g, inlined[g], b, 0)
        invariant changed ==> Grown(|program|, old(inlined[g]), inlined[g])
        decreases !changed, |program[g].code| - b
      {
        var k := 0;
        while !changed && k < |program[g].code[b].body|
          invariant Valid() && g < |program| && Onward(old(program), old(slots), old(inlined), program, slots, inlined)
          invariant Others(g, old(program), old(inlined), program, inlined)
          invariant Logged(old(program), old(inlined), log, program, inlined)
          invariant !changed ==>
              b < |program[g].code| && k <= |program[g].code[b].body| && program == old(program) &&
              slots == old(slots) && SettledBefore(program, g, inlined[g], b, k)
          invariant changed ==> Grown(|program|, old(inlined[g]), inlined[g])
          decreases !changed, if changed then 0 else |program[g].code[b].body| - k
        {
          ghost var p, s, tried := program, slots, inlined;
          ghost var more;
          changed, more := TryInline(g, b, k);
          LoggedBoth(old(program), old(inlined), log, p, tried, more, program, inlined);
          log := log + more;
          OnwardBoth(old(program), old(slots), old(inlined), p, s, tried, program, slots, inlined);
          if !changed {
            ScannedMore(program, g, tried[g], inlined[g], b, k);
          }
          k := k + 1;
        }
        if !changed {
          ScannedBlock(program, g, inlined[g], b);
          b := b + 1;
        }
      }
      if !changed {
        AllScanned(program, g, inlined[g]);
      }
    }

    /** Inline calls of function `g`, starting over after each, until nothing is left to inline. */
    method InlineCallsInFunction(g: nat) returns (changed: bool, ghost log: seq<Attempt>)
      requires Valid() && g < |program|
      modifies this
      ensures Valid() && Onward(old(program), old(slots), old(inlined), program, slots, inlined)
      ensures Settled(program, g, inlined[g])
      ensures Logged(old(program), old(inlined), log, program, inlined)
      ensures Others(g, old(program), old(inlined), program, inlined)
      ensures !changed ==> program == old(program) && slots == old(slots)
      ensures changed ==> Grown(|program|, old(inlined[g]), inlined[g])
    {
      hide Onward, Settled, Safe, NamesFree, NoPhis, Logged;
      changed, log := false, [];
      NothingLogged(program, inlined);
      OnwardItself(program, slots, inlined);
      var localChanged := true;
      while localChanged
        invariant Valid() && g < |program| && Onward(old(program), old(slots), old(inlined), program, slots, inlined)
        invariant Others(g, old(program), old(inlined), program, inlined)
        invariant Logged(old(program), old(inlined), log, program, inlined)
        invariant !changed ==> program == old(program) && slots == old(slots)
        invariant changed ==> Grown(|program|, old(inlined[g]), inlined[g])
        invariant !localChanged ==> Settled(program, g, inlined[g])
        decreases Untried(|program|, inlined[g]), localChanged
      {
        ghost var p, s, tried := program, slots, inlined;
        ghost var more;
        localChanged, more := ScanOnce(g);
        LoggedBoth(old(program), old(inlined), log, p, tried, more, program, inlined);
        log := log + more;
        OnwardBoth(old(program), old(slots), old(inlined), p, s, tried, program, slots, inlined);
        OnwardTried(p, s, tried, program, slots, inlined, g);
        changed := changed || localChanged;
      }
    }

    /** The whole pass: all functions again and again until a round inlines nothing. */
    method Run() returns (ghost log: seq<Attempt>)
      requires Valid()
      modifies this
      ensures Valid() && Onward(old(program), old(slots), old(inlined), program, slots, inlined)
      ensures forall g :: 0 <= g < |program| && !program[g].builtin ==> Settled(program, g, inlined[g])
      // Every call replaced, and every one left, is accounted for.
      ensures Account(old(program), old(inlined), log, program)
      ensures forall g: nat, b: nat, k: nat :: g < |program| && !program[g].builtin && Has(program[g].code, b, k) ==>
          Answered(program, g, old(inlined)[g], log, program[g].code[b].body[k])
    {
      hide Onward, Settled, Safe, NamesFree, NoPhis, Logged, Answered;
      log := [];
      NothingLogged(program, inlined);
      OnwardItself(program, slots, inlined);
      var changed := true;
      while changed
        invariant Valid() && Onward(old(program), old(slots), old(inlined), program, slots, inlined)
        invariant Logged(old(program), old(inlined), log, program, inlined)
        invariant !changed ==> forall g :: 0 <= g < |program| && !program[g].builtin ==> Settled(program, g, inlined[g])
        decreases UntriedPairs(|program|, inlined), changed
      {
        changed := false;
        ghost var p, s, tried := program, slots, inlined;
        OnwardItself(program, slots, inlined);
        for f := 0 to |program|
          invariant Valid() && |program| == |p| == |tried|
          invariant Onward(p, s, tried, program, slots, inlined)
          invariant Logged(old(program), old(inlined), log, program, inlined)
          invariant !changed ==> program == p && slots == s
          invariant !changed ==> forall g :: 0 <= g < f && !program[g].builtin ==> Settled(program, g, inlined[g])
          invariant changed ==> exists g :: 0 <= g < |program| && Grown(|program|, tried[g], inlined[g])
        {
          if !program[f].builtin {
            ghost var p1, s1, tried1 := program, slots, inlined;
            var c;
            ghost var more;
            c, more := InlineCallsInFunction(f);
            LoggedBoth(old(program), old(inlined), log, p1, tried1, more, program, inlined);
            log := log + more;
            OnwardBoth(p, s, tried, p1, s1, tried1, program, slots, inlined);
            OnwardPairs(p1, s1, tried1, program, slots, inlined);
            changed := changed || c;
          }
        }
        OnwardBoth(old(program), old(slots), old(inlined), p, s, tried, program, slots, inlined);
        OnwardPairs(p, s, tried, program, slots, inlined);
      }
      LoggedFacts(old(program), old(inlined), log, program, inlined);
      forall g: nat, b: nat, k: nat | g < |program| && !program[g].builtin && Has(program[g].code, b, k)
        ensures Answered(program, g, old(inlined)[g], log, program[g].code[b].body[k])
      {
        SettledAnswered(program, g, old(inlined), log, b, k);
      }
    }
  }

  lemma CalleeIsCall(p: Program, i: Instr)
    ensures Callee(p, i).Some? ==> i.Effect? && !p[Callee(p, i).value].builtin
  {
  }

  /** What a call of a program ready for inlining provides. */
  lemma SafeFacts(p: Program, s: Slots, g: nat, h: nat, b: nat, at: nat)
    requires Safe(p, s) && g < |p| && Has(p[g].code, b, at) && Callee(p, p[g].code[b].body[at]) == Some(h) && h < |p|
    ensures |s| == |p| && NamesOk(p[h]) && SlotsOk(p[g], s[g]) && SlotsOk(p[h], s[h]) && AllPrivate(p[h], s[h])
    ensures p[g].code[b].body[at].Effect?
    ensures Target(p[g].code[b].body[at]).Some? && p[h].code != [] ==> ReturnsValue(p[h].code)
  {
    assert Contains(p[g].code, p[g].code[b].body[at]);
    assert Called(p, h);
  }

  lemma NowInlined(j: Job)
    requires |j.s| == |j.p| && j.c.g < |j.p| && j.c.h < |j.p| && j.c.g != j.c.h &&
        Has(j.p[j.c.g].code, j.c.b, |j.c.before|)
    requires j.p[j.c.g].code[j.c.b].body == j.c.before + [j.c.call] + j.c.after && Callee(j.p, j.c.call) == Some(j.c.h)
    requires NamesOk(Inner(j)) && SlotsOk(Caller(j), j.s[j.c.g]) && SlotsOk(Inner(j), j.s[j.c.h]) &&
        AllPrivate(Inner(j), j.s[j.c.h])
    requires RemapOk(Caller(j), j.s[j.c.g], Inner(j), j.c)
    requires exists code ::
        Replaced(Caller(j).code, Inner(j).code, j.c, j.hoisted, code) &&
        j.q == j.p[j.c.g := Caller(j).(code := code)]
    requires j.t == j.s[j.c.g := NewSlots(j.s[j.c.g], j.s[j.c.h], j.c.remap)]
    ensures Sound(j) && Sized(j)
  {
    hide Replaced, RemapOk, NamesOk, SlotsOk, AllPrivate, NewSlots;
  }

  /** What inlining a call leaves alone. */
  lemma InlinedRest(p: Program, s: Slots, c: CallSite, hoisted: seq<Instr>, q: Program, t: Slots)
    requires Inlined(p, s, c, hoisted, q, t)
    ensures |q| == |p| && forall k :: 0 <= k < |p| ==> q[k].builtin == p[k].builtin && (k != c.g ==> q[k] == p[k])
  {
    Shape(Job(p, s, c, hoisted, q, t));
  }

  /** The program is ready for the next call; nothing can observe that the call is gone. */
  lemma AfterInlining(j: Job, nums: map<Name, nat>, lo: nat, hi: nat)
    requires Sound(j) && Sized(j) && Safe(j.p, j.s) && NoPhis(j.p) && CallValued(j) &&
        NamesFree(Caller(j), j.s[j.c.g], lo) && lo <= hi
    requires forall x :: Defines(Inner(j), x) ==>
        x in nums && x in j.c.remap &&
        j.c.remap[x] == Var(InlineName(nums[x])) && nums[x] <= hi
    ensures Safe(j.q, j.t) && NoPhis(j.q) && NamesFree(j.q[j.c.g], j.t[j.c.g], hi) && KeepsRuns(j.p, j.s, j.q, j.t)
    ensures AllocasFirst(Caller(j).code) ==> AllocasFirst(After(j))
    ensures forall k :: 0 <= k < |j.p| && k != j.c.g ==> j.q[k] == j.p[k] && j.t[k] == j.s[k]
  {
    hide Sound, Safe, CallValued, NamesFree, KeepsRuns, AllocasFirst, InlineName;
    Shape(j);
    SafeKept(j);
    FreeKept(j, nums, lo, hi);
    InlinedKeepsRuns(j);
    if AllocasFirst(Caller(j).code) {
      AllocasStayFirst(j);
    }
    NoPhisKept(j);
  }

  lemma NoPhisKept(j: Job)
    requires Sound(j) && Sized(j) && NoPhis(j.p)
    ensures NoPhis(j.q)
  {
    hide Sound;
    Shape(j);
    forall k: nat, b: nat | k < |j.q| && b < |j.q[k].code|
      ensures j.q[k].code[b].phis == []
    {
      if k == j.c.g {
        if b < Base(j) && b != j.c.b {
          OtherBlockIs(j, b);
        } else if b == j.c.b || b == Cont(j) {
          SplitBlockIs(j);
        } else {
          CopiedBlockIs(j, b - Base(j));
        }
      }
    }
  }

  lemma NothingNumbered(callee: Fn, args: seq<Operand>, remap: Remap, n: nat)
    requires |args| == |callee.params| && (forall x :: x in remap ==> x in callee.params)
    requires forall j :: 0 <= j < |args| ==> callee.params[j] in remap && remap[callee.params[j]] == args[j]
    ensures Numbered(callee, args, 0, 0, remap, map[], n, n)
  {
  }
}
