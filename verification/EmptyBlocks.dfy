/** Threading jumps through blocks that only jump, and around blocks that have become empty. */
module EmptyBlocks {
  import opened Graphs
  import opened IR

  /** A block after phi elimination; `gone` is the destination of its last jump that has been removed. */
  datatype Node = Node(body: seq<Instr>, term: Term, gone: Option<nat>)

  /** Everything in the block has been removed. */
  predicate IsEmpty(n: Node) {
    n.body == [] && n.term.Missing?
  }

  predicate JumpOnly(n: Node) {
    n.body == [] && n.term.Jump?
  }

  /** The terminator, an emptied block being read as its last removed jump. */
  function Reading(n: Node): Term {
    if IsEmpty(n) && n.gone.Some? then Jump(n.gone.value) else n.term
  }

  /** The function as it is emitted: an emptied block is no code at all. */
  function Emitted(f: seq<Node>): (r: Func)
    ensures |r| == |f| && forall b :: 0 <= b < |f| ==> r[b] == Block([], f[b].body, f[b].term)
  {
    seq(|f|, b requires 0 <= b < |f| => Block([], f[b].body, f[b].term))
  }

  predicate NodeInRange(n: Node, size: nat) {
    (forall v :: v in Successors(n.term) ==> v < size) && (n.gone.Some? ==> n.gone.value < size)
  }

  predicate InRange(f: seq<Node>) {
    0 < |f| && forall b :: 0 <= b < |f| ==> NodeInRange(f[b], |f|)
  }

  // ---- Silent steps ----

  /** A block that does something: an instruction or a return. */
  predicate Visible(f: seq<Node>, b: nat) {
    b < |f| && (f[b].body != [] || f[b].term.Return?)
  }

  /** The next block, when the block does nothing but choose it. */
  function Skip(f: seq<Node>, env: Env, b: nat): Option<nat> {
    if b >= |f| || f[b].body != [] then None
    else match Follow(Reading(f[b]), env)
      case Goto(v) => Some(v)
      case _ => None
  }

  /** The block after `k` silent steps. */
  function Walk(f: seq<Node>, env: Env, b: nat, k: nat): Option<nat>
    decreases k
  {
    if k == 0 then Some(b)
    else match Skip(f, env, b)
      case None => None
      case Some(v) => Walk(f, env, v, k - 1)
  }

  /** Silent steps lead from `b` to the visible block `x`. */
  ghost predicate Lands(f: seq<Node>, env: Env, b: nat, x: nat) {
    Visible(f, x) && exists k: nat :: Walk(f, env, b, k) == Some(x)
  }

  /** From `b` on there are only silent steps, for ever. */
  ghost predicate Diverges(f: seq<Node>, env: Env, b: nat) {
    forall k: nat :: Walk(f, env, b, k).Some?
  }

  /** What happens from `v` in `f` happens from `u` in `g`. */
  ghost predicate SameFate(f: seq<Node>, v: nat, g: seq<Node>, u: nat, env: Env) {
    && (forall x: nat :: Lands(f, env, v, x) ==> Lands(g, env, u, x))
    && (Diverges(f, env, v) ==> Diverges(g, env, u))
  }

  lemma {:induction false} WalkFurther(f: seq<Node>, env: Env, b: nat, j: nat, k: nat)
    requires Walk(f, env, b, j).Some?
    ensures Walk(f, env, b, j + k) == Walk(f, env, Walk(f, env, b, j).value, k)
    decreases j
  {
    if j > 0 {
      WalkFurther(f, env, Skip(f, env, b).value, j - 1, k);
    }
  }

  /** A visible block takes no silent step. */
  lemma VisibleStays(f: seq<Node>, env: Env, x: nat)
    requires Visible(f, x)
    ensures Skip(f, env, x) == None
  {
  }

  /** Stepping silently does not change where it ends. */
  lemma FateAfterSkip(f: seq<Node>, env: Env, b: nat)
    requires Skip(f, env, b).Some?
    ensures SameFate(f, Skip(f, env, b).value, f, b, env) && SameFate(f, b, f, Skip(f, env, b).value, env)
  {
    var v := Skip(f, env, b).value;
    forall x: nat | Lands(f, env, v, x)
      ensures Lands(f, env, b, x)
    {
      var k: nat :| Walk(f, env, v, k) == Some(x);
      assert Walk(f, env, b, k + 1) == Some(x);
    }
    forall x: nat | Lands(f, env, b, x)
      ensures Lands(f, env, v, x)
    {
      var k: nat :| Walk(f, env, b, k) == Some(x);
      if k > 0 {
        assert Walk(f, env, v, k - 1) == Some(x);
      } else {
        VisibleStays(f, env, x);
      }
    }
    if Diverges(f, env, v) {
      forall k: nat
        ensures Walk(f, env, b, k).Some?
      {
        if k > 0 {
          assert Walk(f, env, v, k - 1).Some?;
        }
      }
    }
    if Diverges(f, env, b) {
      forall k: nat
        ensures Walk(f, env, v, k).Some?
      {
        assert Walk(f, env, b, k + 1).Some?;
      }
    }
  }

  // ---- Redirecting along jumps ----

  /** `k` blocks that only jump lead from `a` to `t`, whatever the environment. */
  predicate Jumps(f: seq<Node>, a: nat, t: nat, k: nat)
    decreases k
  {
    if k == 0 then a == t
    else a < |f| && f[a].body == [] && Reading(f[a]).Jump? && Jumps(f, Reading(f[a]).dest, t, k - 1)
  }

  ghost predicate JumpsTo(f: seq<Node>, a: nat, t: nat) {
    exists k: nat :: Jumps(f, a, t, k)
  }

  lemma {:induction false} JumpsWalk(f: seq<Node>, env: Env, a: nat, t: nat, k: nat)
    requires Jumps(f, a, t, k)
    ensures Walk(f, env, a, k) == Some(t)
    decreases k
  {
    if k > 0 {
      JumpsWalk(f, env, Reading(f[a]).dest, t, k - 1);
    }
  }

  lemma StayPut(f: seq<Node>, a: nat)
    ensures JumpsTo(f, a, a)
  {
    assert Jumps(f, a, a, 0);
  }

  /** `u` replaces the terminator `t`: targets move along jumps, and a branch with one target left is a jump. */
  ghost predicate TermThreaded(f: seq<Node>, t: Term, u: Term) {
    match t
    case Jump(d) => u.Jump? && JumpsTo(f, d, u.dest)
    case Branch(c, a, b) =>
      (u.Branch? && u.cond == c && JumpsTo(f, a, u.onTrue) && JumpsTo(f, b, u.onFalse)) ||
      (u.Jump? && JumpsTo(f, a, u.dest) && JumpsTo(f, b, u.dest))
    case _ => u == t
  }

  ghost predicate Threaded(f: seq<Node>, g: seq<Node>) {
    |g| == |f| && forall p :: 0 <= p < |f| ==> g[p].body == f[p].body && TermThreaded(f, Reading(f[p]), Reading(g[p]))
  }

  lemma ThreadedFollow(f: seq<Node>, g: seq<Node>, env: Env, p: nat)
    requires Threaded(f, g) && p < |f|
    ensures match Follow(Reading(f[p]), env)
      case Goto(v) => Follow(Reading(g[p]), env).Goto? && JumpsTo(f, v, Follow(Reading(g[p]), env).block)
      case Leave(r) => Follow(Reading(g[p]), env) == Leave(r)
      case Undefined => true
    ensures Follow(Reading(g[p]), env).Undefined? ==> Follow(Reading(f[p]), env).Undefined?
    ensures Visible(g, p) == Visible(f, p)
  {
    assert TermThreaded(f, Reading(f[p]), Reading(g[p]));
  }

  /** Where silent steps of `f` land, those of `g` land too. */
  lemma {:induction false} ThreadedLands(f: seq<Node>, g: seq<Node>, env: Env, b: nat, k: nat, x: nat)
    requires Threaded(f, g) && Visible(f, x) && Walk(f, env, b, k) == Some(x)
    ensures Lands(g, env, b, x)
    decreases k
  {
    hide Threaded, Skip;
    if k == 0 {
      VisibleToo(f, g, x);
      BlockLands(g, env, x);
    } else {
      SkipThreaded(f, g, env, b);
      var v, u := Skip(f, env, b).value, Skip(g, env, b).value;
      var j: nat :| Jumps(f, v, u, j);
      JumpsWalk(f, env, v, u, j);
      LandingIsLast(f, env, v, k - 1, x, j);
      WalkFurther(f, env, v, j, k - 1 - j);
      ThreadedLands(f, g, env, u, k - 1 - j, x);
      FateAfterSkip(g, env, b);
    }
  }

  lemma VisibleToo(f: seq<Node>, g: seq<Node>, x: nat)
    requires Threaded(f, g) && Visible(f, x)
    ensures Visible(g, x)
  {
    ThreadedFollow(f, g, map[], x);
  }

  /** A silent step of `f` is one of `g`, to a block further along the jumps. */
  lemma SkipThreaded(f: seq<Node>, g: seq<Node>, env: Env, b: nat)
    requires Threaded(f, g)
    ensures Skip(f, env, b).Some? ==> Skip(g, env, b).Some? && JumpsTo(f, Skip(f, env, b).value, Skip(g, env, b).value)
    ensures Skip(g, env, b).Some? && b < |f| && Skip(f, env, b).None? ==> Follow(Reading(f[b]), env).Undefined?
    ensures Skip(g, env, b).None? ==> Skip(f, env, b).None?
  {
    hide JumpsTo;
    if b < |f| {
      ThreadedFollow(f, g, env, b);
    }
  }

  lemma BlockLands(f: seq<Node>, env: Env, b: nat)
    requires Visible(f, b)
    ensures Lands(f, env, b, b)
  {
    assert Walk(f, env, b, 0) == Some(b);
  }

  /** No walk goes on from a visible block. */
  lemma LandingIsLast(f: seq<Node>, env: Env, b: nat, k: nat, x: nat, j: nat)
    requires Visible(f, x) && Walk(f, env, b, k) == Some(x) && Walk(f, env, b, j).Some?
    ensures j <= k
  {
    if j > k {
      WalkFurther(f, env, b, k, j - k);
      VisibleStays(f, env, x);
    }
  }

  /** If the silent steps of `g` come to an end, so do those of `f`. */
  lemma {:induction false} ThreadedEnds(f: seq<Node>, g: seq<Node>, env: Env, b: nat, k: nat)
    requires Threaded(f, g) && Walk(g, env, b, k).None?
    ensures !Diverges(f, env, b)
    decreases k
  {
    hide Threaded, Skip;
    SkipThreaded(f, g, env, b);
    if Skip(f, env, b).None? {
      assert Walk(f, env, b, 1).None?;
    } else {
      var v, u := Skip(f, env, b).value, Skip(g, env, b).value;
      ThreadedEnds(f, g, env, u, k - 1);
      var i: nat :| Walk(f, env, u, i).None?;
      var j: nat :| Jumps(f, v, u, j);
      JumpsWalk(f, env, v, u, j);
      WalkFurther(f, env, v, j, i);
      assert Walk(f, env, b, 1 + (j + i)).None?;
    }
  }

  lemma ThreadedFate(f: seq<Node>, g: seq<Node>, env: Env, b: nat)
    requires Threaded(f, g)
    ensures SameFate(f, b, g, b, env)
  {
    forall x: nat | Lands(f, env, b, x)
      ensures Lands(g, env, b, x)
    {
      var k: nat :| Walk(f, env, b, k) == Some(x);
      ThreadedLands(f, g, env, b, k, x);
    }
    forall k: nat | Diverges(f, env, b)
      ensures Walk(g, env, b, k).Some?
    {
      if Walk(g, env, b, k).None? {
        ThreadedEnds(f, g, env, b, k);
      }
    }
  }

  lemma {:induction false} JumpsFate(f: seq<Node>, env: Env, a: nat, t: nat, k: nat)
    requires Jumps(f, a, t, k)
    ensures SameFate(f, a, f, t, env)
    decreases k
  {
    if k > 0 {
      FateAfterSkip(f, env, a);
      JumpsFate(f, env, Reading(f[a]).dest, t, k - 1);
    }
  }

  // ---- What the passes keep ----

  /** After the instructions of `b`, both functions do the same. */
  ghost predicate SameExit(f: seq<Node>, g: seq<Node>, b: nat, env: Env)
    requires b < |f| == |g|
  {
    match Follow(Reading(f[b]), env)
    case Goto(v) => Follow(Reading(g[b]), env).Goto? && SameFate(f, v, g, Follow(Reading(g[b]), env).block, env)
    case Leave(r) => Follow(Reading(g[b]), env) == Leave(r)
    case Undefined => true
  }

  /** The same instructions in every block, and from every block the same blocks that do something, in the same
   * order. */
  ghost predicate Keeps(f: seq<Node>, g: seq<Node>) {
    && |f| == |g| && (forall b :: 0 <= b < |f| ==> g[b].body == f[b].body)
    && (forall env: Env, b: nat :: SameFate(f, b, g, b, env))
    && (forall env: Env, b: nat :: b < |f| ==> SameExit(f, g, b, env))
  }

  lemma KeepsSelf(f: seq<Node>)
    ensures Keeps(f, f)
  {
  }

  lemma FateTwice(f: seq<Node>, a: nat, g: seq<Node>, b: nat, h: seq<Node>, c: nat, env: Env)
    requires SameFate(f, a, g, b, env) && SameFate(g, b, h, c, env)
    ensures SameFate(f, a, h, c, env)
  {
    hide Lands, Diverges;
  }

  /** One round of redirections keeps what has been kept so far. */
  lemma KeepsThreaded(f: seq<Node>, g: seq<Node>, h: seq<Node>)
    requires Keeps(f, g) && Threaded(g, h)
    ensures Keeps(f, h)
  {
    hide SameFate, Follow;
    forall env: Env, b: nat
      ensures SameFate(f, b, h, b, env)
    {
      ThreadedFate(g, h, env, b);
      assert SameFate(f, b, g, b, env);
      FateTwice(f, b, g, b, h, b, env);
    }
    forall env: Env, b: nat | b < |f|
      ensures SameExit(f, h, b, env)
    {
      assert SameExit(f, g, b, env);
      ThreadedFollow(g, h, env, b);
      if Follow(Reading(f[b]), env).Goto? {
        var v, u, t := Follow(Reading(f[b]), env).block, Follow(Reading(g[b]), env).block,
          Follow(Reading(h[b]), env).block;
        var k: nat :| Jumps(g, u, t, k);
        JumpsFate(g, env, u, t, k);
        FateTwice(f, v, g, u, g, t, env);
        ThreadedFate(g, h, env, t);
        FateTwice(f, v, g, t, h, t, env);
      }
    }
  }

  // ---- The passes ----

  /** The terminator with target `id` replaced by `target`. */
  function RedirectTerm(t: Term, id: nat, target: nat): Term {
    match t
    case Jump(d) => if d == id then Jump(target) else t
    case Branch(c, a, b) =>
      var onTrue, onFalse := if a == id then target else a, if b == id then target else b;
      if onTrue == onFalse then Jump(onTrue) else Branch(c, onTrue, onFalse)
    case _ => t
  }

  function RedirectOne(f: seq<Node>, p: nat, id: nat, target: nat): seq<Node>
    requires p < |f|
  {
    f[p := f[p].(term := RedirectTerm(f[p].term, id, target))]
  }

  lemma RedirectThreaded(f: seq<Node>, p: nat, id: nat, target: nat)
    requires p < |f| && JumpsTo(f, id, target)
    ensures Threaded(f, RedirectOne(f, p, id, target))
  {
    hide JumpsTo;
    forall v
      ensures JumpsTo(f, v, v)
    {
      StayPut(f, v);
    }
  }

  /** A jump-only block becomes empty. */
  function EmptyOut(f: seq<Node>, id: nat): seq<Node>
    requires id < |f| && f[id].term.Jump?
  {
    f[id := f[id].(term := Missing, gone := Some(f[id].term.dest))]
  }

  lemma EmptyThreaded(f: seq<Node>, id: nat)
    requires id < |f| && JumpOnly(f[id])
    ensures Threaded(f, EmptyOut(f, id))
  {
    hide JumpsTo;
    forall v
      ensures JumpsTo(f, v, v)
    {
      StayPut(f, v);
    }
  }

  /** Jumps from `a` to `t` none of which leads to `id`. */
  predicate JumpsPast(f: seq<Node>, a: nat, t: nat, k: nat, id: nat)
    decreases k
  {
    if k == 0 then a == t
    else
      a < |f| && f[a].body == [] && Reading(f[a]).Jump? && Reading(f[a]).dest != id &&
      JumpsPast(f, Reading(f[a]).dest, t, k - 1, id)
  }

  lemma {:induction false} PastIsJumps(f: seq<Node>, a: nat, t: nat, k: nat, id: nat)
    requires JumpsPast(f, a, t, k, id)
    ensures Jumps(f, a, t, k)
    decreases k
  {
    if k > 0 {
      PastIsJumps(f, Reading(f[a]).dest, t, k - 1, id);
    }
  }

  lemma {:induction false} PastMore(f: seq<Node>, a: nat, t: nat, k: nat, id: nat)
    requires JumpsPast(f, a, t, k, id) && t < |f| && f[t].body == [] && Reading(f[t]).Jump? && Reading(f[t]).dest != id
    ensures JumpsPast(f, a, Reading(f[t]).dest, k + 1, id)
    decreases k
  {
    if k > 0 {
      PastMore(f, Reading(f[a]).dest, t, k - 1, id);
    }
  }

  /** Redirecting from `id` does not touch jumps that lead elsewhere. */
  lemma {:induction false} PastStays(f: seq<Node>, a: nat, t: nat, k: nat, p: nat, id: nat, target: nat)
    requires JumpsPast(f, a, t, k, id) && p < |f|
    ensures JumpsPast(RedirectOne(f, p, id, target), a, t, k, id)
    decreases k
  {
    if k > 0 {
      PastStays(f, Reading(f[a]).dest, t, k - 1, p, id, target);
    }
  }

  /** Blocks that still have a terminator. */
  ghost function Alive(f: seq<Node>): (s: set<nat>) {
    set b: nat | b < |f| && !f[b].term.Missing?
  }

  /** Removed jumps lead from `a` to `t` through empty blocks. */
  predicate GoneTo(f: seq<Node>, a: nat, t: nat, k: nat)
    decreases k
  {
    if k == 0 then a == t else a < |f| && IsEmpty(f[a]) && f[a].gone.Some? && GoneTo(f, f[a].gone.value, t, k - 1)
  }

  /** The removed jumps from `v` on lead to no block that is still there. */
  ghost predicate DeadEnd(f: seq<Node>, v: nat) {
    forall t: nat, k: nat :: GoneTo(f, v, t, k) ==> t < |f| && IsEmpty(f[t])
  }

  /** Control may be sent to `v`: there is code, or nothing to be found behind it either. */
  ghost predicate Fine(f: seq<Node>, v: nat) {
    v < |f| && (!IsEmpty(f[v]) || DeadEnd(f, v))
  }

  ghost predicate AllFine(f: seq<Node>) {
    forall b, v: nat {:trigger v in Successors(f[b].term)} :: 0 <= b < |f| && v in Successors(f[b].term) ==> Fine(f, v)
  }

  lemma {:induction false} GoneMore(f: seq<Node>, a: nat, t: nat, k: nat)
    requires GoneTo(f, a, t, k) && t < |f| && IsEmpty(f[t]) && f[t].gone.Some?
    ensures GoneTo(f, a, f[t].gone.value, k + 1)
    decreases k
  {
    if k > 0 {
      GoneMore(f, f[a].gone.value, t, k - 1);
    }
  }

  lemma {:induction false} GoneIsJumps(f: seq<Node>, a: nat, t: nat, k: nat)
    requires GoneTo(f, a, t, k)
    ensures Jumps(f, a, t, k)
    decreases k
  {
    if k > 0 {
      GoneIsJumps(f, f[a].gone.value, t, k - 1);
    }
  }

  /** The empty blocks, and what is gone from them, are the same. */
  ghost predicate SameEmpties(f: seq<Node>, g: seq<Node>) {
    |f| == |g| && forall b :: 0 <= b < |f| ==> IsEmpty(f[b]) == IsEmpty(g[b]) && (IsEmpty(f[b]) ==> g[b] == f[b])
  }

  lemma {:induction false} GoneStays(f: seq<Node>, g: seq<Node>, a: nat, t: nat, k: nat)
    requires SameEmpties(f, g)
    ensures GoneTo(g, a, t, k) == GoneTo(f, a, t, k)
    decreases k
  {
    if k > 0 && a < |f| && IsEmpty(f[a]) && f[a].gone.Some? {
      GoneStays(f, g, f[a].gone.value, t, k - 1);
    }
  }

  lemma FineStays(f: seq<Node>, g: seq<Node>, v: nat)
    requires SameEmpties(f, g)
    ensures Fine(g, v) == Fine(f, v)
  {
    forall t: nat, k: nat
      ensures GoneTo(g, v, t, k) == GoneTo(f, v, t, k)
    {
      GoneStays(f, g, v, t, k);
    }
  }

  /** A set of empty blocks that the removed jumps do not leave. */
  ghost predicate ClosedEmpties(f: seq<Node>, s: set<nat>) {
    forall v :: v in s ==> v < |f| && IsEmpty(f[v]) && (f[v].gone.Some? ==> f[v].gone.value in s)
  }

  lemma {:induction false} ClosedStays(f: seq<Node>, s: set<nat>, v: nat, t: nat, k: nat)
    requires ClosedEmpties(f, s) && v in s && GoneTo(f, v, t, k)
    ensures t in s
    decreases k
  {
    if k > 0 {
      ClosedStays(f, s, f[v].gone.value, t, k - 1);
    }
  }

  lemma ClosedDead(f: seq<Node>, s: set<nat>, v: nat)
    requires ClosedEmpties(f, s) && v in s
    ensures DeadEnd(f, v) && Fine(f, v)
  {
    forall t: nat, k: nat | GoneTo(f, v, t, k)
      ensures t < |f| && IsEmpty(f[t])
    {
      ClosedStays(f, s, v, t, k);
    }
  }

  // ---- What is left of the jumps ----

  /** A block that only jumps, and not to itself. */
  predicate JumpsAway(f: seq<Node>, b: nat) {
    b < |f| && JumpOnly(f[b]) && f[b].term.dest != b
  }

  /** Only terminators change: a branch may become a jump, a jump to another block stems from one or from a branch. */
  ghost predicate Simpler(f: seq<Node>, g: seq<Node>) {
    |g| == |f| && forall b: nat :: b < |f| ==>
        && g[b].body == f[b].body
        && (g[b].term.Branch? ==> f[b].term.Branch?)
        && (g[b].term.Jump? && g[b].term.dest != b ==>
          f[b].term.Branch? || (f[b].term.Jump? && f[b].term.dest != b))
  }

  lemma RedirectSimpler(f0: seq<Node>, f: seq<Node>, p: nat, id: nat, target: nat)
    requires Simpler(f0, f) && p < |f| && id < |f| && f[id].term != Jump(id)
    ensures Simpler(f0, RedirectOne(f, p, id, target))
  {
  }

  lemma EmptySimpler(f0: seq<Node>, f: seq<Node>, id: nat)
    requires Simpler(f0, f) && id < |f| && JumpOnly(f[id])
    ensures Simpler(f0, EmptyOut(f, id))
  {
  }

  lemma SimplerSelf(f: seq<Node>)
    ensures Simpler(f, f)
  {
  }

  /** No block but the first only jumps away. */
  ghost predicate NoJumpsLeft(f: seq<Node>) {
    forall b: nat :: 0 < b < |f| ==> !JumpsAway(f, b)
  }

  lemma OnlyLoopsLeft(f: seq<Node>)
    requires NoJumpsLeft(f)
    ensures forall b: nat :: 0 < b < |f| && JumpOnly(f[b]) ==> f[b].term.dest == b
  {
    forall b: nat | 0 < b < |f| && JumpOnly(f[b])
      ensures f[b].term.dest == b
    {
      assert !JumpsAway(f, b);
    }
  }

  lemma LeftoverJumps(f0: seq<Node>, f1: seq<Node>, g: seq<Node>)
    requires Simpler(f0, f1) && NoJumpsLeft(f1) && Simpler(f1, g)
    ensures forall b: nat :: 0 < b < |g| && JumpsAway(g, b) ==> f0[b].body == [] && f0[b].term.Branch?
  {
    forall b: nat | 0 < b < |g| && JumpsAway(g, b)
      ensures f0[b].body == [] && f0[b].term.Branch?
    {
      assert !JumpsAway(f1, b);
    }
  }

  class EmptyBlockEliminator {
    var blocks: seq<Node>

    constructor (blocks: seq<Node>)
      ensures this.blocks == blocks
    {
      this.blocks := blocks;
    }

    /** For every block the blocks whose terminator leads to it. */
    method Predecessors() returns (preds: seq<seq<nat>>)
      requires InRange(blocks)
      ensures |preds| == |blocks| && (forall v, p :: 0 <= v < |preds| && p in preds[v] ==> p < |blocks|)
      ensures forall b, v :: 0 <= b < |blocks| && v in Successors(blocks[b].term) ==> b in preds[v]
    {
      preds := seq(|blocks|, v => []);
      for b := 0 to |blocks|
        invariant |preds| == |blocks| && (forall v, p :: 0 <= v < |preds| && p in preds[v] ==> p < |blocks|)
        invariant forall c, v :: 0 <= c < b && v in Successors(blocks[c].term) ==> c in preds[v]
      {
        assert NodeInRange(blocks[b], |blocks|);
        match blocks[b].term {
          case Branch(_, x, y) =>
            assert x in Successors(blocks[b].term) && y in Successors(blocks[b].term);
            preds := AddPred(preds, x, b);
            preds := AddPred(preds, y, b);
          case Jump(d) =>
            assert d in Successors(blocks[b].term);
            preds := AddPred(preds, d, b);
          case _ =>
        }
      }
    }

    static function AddPred(preds: seq<seq<nat>>, v: nat, b: nat): (r: seq<seq<nat>>)
      requires v < |preds|
      ensures |r| == |preds| && b in r[v]
      ensures forall u, p :: 0 <= u < |preds| ==> (p in r[u] <==> p in preds[u] || (u == v && p == b))
    {
      preds[v := preds[v] + [b]]
    }

    /** Where the jumps from `target` on end, without coming back. */
    method FollowJumps(id: nat, target0: nat) returns (target: nat, ghost k: nat)
      requires InRange(blocks) && id < |blocks| && JumpOnly(blocks[id]) && blocks[id].term.dest == target0 != id
      ensures target < |blocks| && target != id && JumpsPast(blocks, id, target, k, id)
    {
      assert NodeInRange(blocks[id], |blocks|) && target0 in Successors(blocks[id].term);
      target, k := target0, 1;
      assert JumpsPast(blocks, target, target, 0, id);
      var visited: set<nat> := {id};
      while true
        invariant target < |blocks| && id in visited && target !in visited && JumpsPast(blocks, id, target, k, id)
        decreases NodesBelow(|blocks|) - visited
      {
        if !JumpOnly(blocks[target]) {
          return;
        }
        var next := blocks[target].term.dest;
        if next == target || next in visited {
          return;
        }
        assert NodeInRange(blocks[target], |blocks|) && next in Successors(blocks[target].term);
        PastMore(blocks, id, target, k, id);
        visited := visited + {target};
        target, k := next, k + 1;
      }
    }

    /** One predecessor is sent to `target` instead of `id`. */
    method Redirect(p: nat, id: nat, target: nat)
      requires p < |blocks|
      modifies `blocks
      ensures blocks == RedirectOne(old(blocks), p, id, target)
    {
      match blocks[p].term {
        case Branch(c, x, y) =>
          var onTrue, onFalse := if x == id then target else x, if y == id then target else y;
          blocks := blocks[p := blocks[p].(term := Branch(c, onTrue, onFalse))];
          if onTrue == onFalse {
            blocks := blocks[p := blocks[p].(term := Jump(onTrue))];
          }
        case Jump(d) =>
          if d == id {
            blocks := blocks[p := blocks[p].(term := Jump(target))];
          }
        case _ =>
      }
    }

    /** A jump-only block is taken out: its predecessors go on to `target`, and it becomes empty. */
    method Bypass(id: nat, preds: seq<nat>, target: nat, ghost k: nat, ghost f0: seq<Node>)
      requires InRange(blocks) && id < |blocks| && JumpOnly(blocks[id]) && blocks[id].term.dest != id
      requires target < |blocks| && JumpsPast(blocks, id, target, k, id) && Keeps(f0, blocks)
      requires Simpler(f0, blocks)
      requires forall p :: p in preds ==> p < |blocks|
      modifies `blocks
      ensures InRange(blocks) && |blocks| == |old(blocks)| && Keeps(f0, blocks) && Simpler(f0, blocks)
      ensures Alive(blocks) == Alive(old(blocks)) - {id}
    {
      hide Keeps, Threaded, JumpsPast, JumpsTo, Simpler;
      for j := 0 to |preds|
        invariant InRange(blocks) && |blocks| == |old(blocks)| && blocks[id] == old(blocks)[id]
        invariant JumpsPast(blocks, id, target, k, id) && Keeps(f0, blocks) && Alive(blocks) == Alive(old(blocks))
        invariant Simpler(f0, blocks)
      {
        assert preds[j] in preds;
        ghost var before := blocks;
        Redirect(preds[j], id, target);
        PastReaches(before, id, target, k);
        RedirectThreaded(before, preds[j], id, target);
        KeepsThreaded(f0, before, blocks);
        PastStays(before, id, target, k, preds[j], id, target);
        RedirectSimpler(f0, before, preds[j], id, target);
        RedirectFacts(before, preds[j], id, target);
      }
      EmptyThreaded(blocks, id);
      KeepsThreaded(f0, blocks, EmptyOut(blocks, id));
      EmptyFacts(blocks, id);
      EmptySimpler(f0, blocks, id);
      blocks := EmptyOut(blocks, id);
    }

    /** Jump-only blocks are taken out until none is left; every round but the last empties a block. */
    method ThreadJumps()
      requires InRange(blocks)
      modifies `blocks
      ensures InRange(blocks) && |blocks| == |old(blocks)| && Keeps(old(blocks), blocks)
      ensures 0 in Alive(old(blocks)) ==> 0 in Alive(blocks)
      ensures Simpler(old(blocks), blocks)
      ensures forall b: nat :: 0 < b < |blocks| && JumpOnly(blocks[b]) ==> blocks[b].term.dest == b
    {
      hide Keeps, InRange, JumpsPast, Alive, Simpler;
      KeepsSelf(blocks);
      ghost var f0 := blocks;
      SimplerSelf(f0);
      var changed := true;
      while changed
        invariant InRange(blocks) && |blocks| == |f0| && Keeps(f0, blocks) && Simpler(f0, blocks)
        invariant 0 in Alive(f0) ==> 0 in Alive(blocks)
        invariant changed || NoJumpsLeft(blocks)
        decreases Alive(blocks), changed
      {
        changed := false;
        ghost var alive := Alive(blocks);
        var preds := Predecessors();
        for id := 0 to |blocks|
          invariant InRange(blocks) && |blocks| == |f0| == |preds| && Keeps(f0, blocks) && Simpler(f0, blocks)
          invariant changed || forall b: nat :: 0 < b < id ==> !JumpsAway(blocks, b)
          invariant 0 in Alive(f0) ==> 0 in Alive(blocks)
          invariant forall v, p :: 0 <= v < |preds| && p in preds[v] ==> p < |blocks|
          invariant Alive(blocks) <= alive && (changed ==> Alive(blocks) < alive)
        {
          if id != 0 && JumpOnly(blocks[id]) && blocks[id].term.dest != id {
            var target;
            ghost var k;
            target, k := FollowJumps(id, blocks[id].term.dest);
            LiveBlock(blocks, id);
            Bypass(id, preds[id], target, k, f0);
            changed := true;
          }
        }
      }
      OnlyLoopsLeft(blocks);
    }

    /** The first block with code behind an empty one, along its removed jumps. */
    method FollowChain(id: nat) returns (r: nat, ghost k: nat)
      requires InRange(blocks) && id < |blocks|
      ensures r < |blocks| && Fine(blocks, r) && GoneTo(blocks, id, r, k)
      ensures r == id ==> Fine(blocks, id)
    {
      var cur: nat := id;
      k := 0;
      var visited: set<nat> := {};
      while cur !in visited
        invariant cur < |blocks| && (visited == {} ==> cur == id) && (visited != {} ==> id in visited)
        invariant forall v :: v in visited ==>
            v < |blocks| && IsEmpty(blocks[v]) &&
            (blocks[v].gone.Some? ==> blocks[v].gone.value in visited + {cur})
        invariant GoneTo(blocks, id, cur, k)
        decreases NodesBelow(|blocks|) - visited
      {
        visited := visited + {cur};
        if !IsEmpty(blocks[cur]) {
          return cur, k;
        }
        if blocks[cur].gone.None? || blocks[cur].gone.value == cur {
          break;
        }
        assert NodeInRange(blocks[cur], |blocks|);
        GoneMore(blocks, id, cur, k);
        cur, k := blocks[cur].gone.value, k + 1;
      }
      r := cur;
      ClosedDead(blocks, visited, cur);
      ClosedDead(blocks, visited, id);
    }

    /** Jumps and branches to empty blocks are sent to the code behind them. */
    method RedirectAroundEmpty()
      requires InRange(blocks) && !IsEmpty(blocks[0])
      modifies `blocks
      ensures InRange(blocks) && |blocks| == |old(blocks)| && Keeps(old(blocks), blocks) &&
          SameEmpties(old(blocks), blocks)
      ensures AllFine(blocks) && Simpler(old(blocks), blocks)
    {
      hide Keeps, Fine, GoneTo, InRange, Simpler;
      KeepsSelf(blocks);
      SimplerSelf(blocks);
      ghost var f0 := blocks;
      var preds := Predecessors();
      AllListed(blocks, preds);
      for id := 0 to |blocks|
        invariant InRange(blocks) && |blocks| == |f0| == |preds| && Keeps(f0, blocks) && SameEmpties(f0, blocks)
        invariant Simpler(f0, blocks)
        invariant forall v, p :: 0 <= v < |preds| && p in preds[v] ==> p < |blocks|
        invariant ListedOrFine(blocks, preds) && FineBelow(blocks, id)
      {
        if id != 0 && IsEmpty(blocks[id]) {
          var target;
          ghost var k;
          target, k := FollowChain(id);
          if target != id {
            RedirectAll(id, preds, target, k, f0);
          } else {
            FineNow(blocks, id);
          }
        } else {
          CodeIsFine(blocks, id);
          FineNow(blocks, id);
        }
      }
      SuccessorsFine(blocks);
    }

    method RedirectAll(id: nat, preds: seq<seq<nat>>, target: nat, ghost k: nat, ghost f0: seq<Node>)
      requires InRange(blocks) && |blocks| == |f0| == |preds| && Keeps(f0, blocks) && SameEmpties(f0, blocks)
      requires forall v, p :: 0 <= v < |preds| && p in preds[v] ==> p < |blocks|
      requires ListedOrFine(blocks, preds) && FineBelow(blocks, id) && Simpler(f0, blocks)
      requires id < |blocks| && target < |blocks| && target != id && Fine(blocks, target) &&
          GoneTo(blocks, id, target, k) && IsEmpty(blocks[id])
      modifies `blocks
      ensures InRange(blocks) && |blocks| == |f0| && Keeps(f0, blocks) && SameEmpties(f0, blocks)
      ensures Simpler(f0, blocks)
      ensures ListedOrFine(blocks, preds) && FineBelow(blocks, id + 1)
    {
      hide Keeps, Fine, GoneTo, InRange, Threaded, JumpsTo, SameEmpties, Simpler;
      for j := 0 to |preds[id]|
        invariant InRange(blocks) && |blocks| == |f0| == |preds| && Keeps(f0, blocks) && SameEmpties(f0, blocks)
        invariant ListedOrFine(blocks, preds) && FineBelow(blocks, id)
        invariant Fine(blocks, target) && GoneTo(blocks, id, target, k)
        invariant Simpler(f0, blocks) && IsEmpty(blocks[id])
        invariant Sent(blocks, preds[id], id, j)
      {
        var p := preds[id][j];
        assert p in preds[id];
        ghost var before := blocks;
        Redirect(p, id, target);
        GoneReaches(before, id, target, k);
        RedirectThreaded(before, p, id, target);
        KeepsThreaded(f0, before, blocks);
        RedirectSimpler(f0, before, p, id, target);
        RedirectEmpties(f0, before, p, id, target);
        RedirectedFine(before, preds, p, id, target, k);
        SentOne(before, preds[id], id, j, target);
      }
      AllSent(blocks, preds, id);
    }

    method ThreadAndRedirect()
      requires InRange(blocks) && !blocks[0].term.Missing?
      modifies `blocks
      ensures InRange(blocks) && Keeps(old(blocks), blocks) && AllFine(blocks) && Fine(blocks, 0)
      ensures forall w: World, params: Env, m: nat :: Followed(old(blocks), blocks, w, params, m)
      ensures forall b: nat :: 0 < b < |blocks| && JumpsAway(blocks, b) ==>
          old(blocks)[b].body == [] && old(blocks)[b].term.Branch?
    {
      hide Simpler, Keeps, AllFine, SameWork, InRange, DeadEnd, Followed;
      ghost var f0 := blocks;
      EntryStays(blocks);
      ThreadJumps();
      ghost var f1 := blocks;
      RedirectAroundEmpty();
      KeepsTwice(f0, f1, blocks);
      LeftoverJumps(f0, f1, blocks);
      forall w: World, params: Env, m: nat
        ensures Followed(f0, blocks, w, params, m)
      {
        RunIsFollowed(f0, blocks, w, params, m);
      }
    }
  }

  lemma EntryStays(f: seq<Node>)
    requires InRange(f) && !f[0].term.Missing?
    ensures 0 in Alive(f)
    ensures forall g: seq<Node> :: |g| == |f| && 0 in Alive(g) ==> !IsEmpty(g[0])
  {
  }

  lemma LiveBlock(f: seq<Node>, id: nat)
    requires id < |f| && JumpOnly(f[id])
    ensures id in Alive(f)
  {
  }

  lemma PastReaches(f: seq<Node>, id: nat, target: nat, k: nat)
    requires JumpsPast(f, id, target, k, id)
    ensures JumpsTo(f, id, target)
  {
    PastIsJumps(f, id, target, k, id);
  }

  lemma GoneReaches(f: seq<Node>, id: nat, target: nat, k: nat)
    requires GoneTo(f, id, target, k)
    ensures JumpsTo(f, id, target)
  {
    GoneIsJumps(f, id, target, k);
  }

  lemma RedirectFacts(f: seq<Node>, p: nat, id: nat, target: nat)
    requires InRange(f) && p < |f| && target < |f|
    ensures var g := RedirectOne(f, p, id, target);
      && InRange(g) && Alive(g) == Alive(f)
      && (id < |f| && f[id].term.Jump? && f[id].term.dest != id ==> g[id] == f[id])
  {
    var g := RedirectOne(f, p, id, target);
    forall b | 0 <= b < |g|
      ensures NodeInRange(g[b], |g|) && g[b].term.Missing? == f[b].term.Missing?
    {
      assert NodeInRange(f[b], |f|);
      RedirectTargets(f[b].term, id, target);
    }
  }

  lemma RedirectTargets(t: Term, id: nat, target: nat)
    ensures forall v :: v in Successors(RedirectTerm(t, id, target)) ==> v == target || (v in Successors(t) && v != id)
    ensures RedirectTerm(t, id, target).Missing? == t.Missing?
  {
    match t
    case Branch(_, a, b) =>
      assert a in Successors(t) && b in Successors(t);
    case Jump(d) =>
      assert d in Successors(t);
    case _ =>
  }

  lemma EmptyFacts(f: seq<Node>, id: nat)
    requires InRange(f) && id < |f| && JumpOnly(f[id])
    ensures InRange(EmptyOut(f, id)) && Alive(EmptyOut(f, id)) == Alive(f) - {id}
  {
    var g := EmptyOut(f, id);
    assert NodeInRange(f[id], |f|) && f[id].term.dest in Successors(f[id].term);
    forall b | 0 <= b < |g|
      ensures NodeInRange(g[b], |g|)
    {
      assert NodeInRange(f[b], |f|);
    }
  }

  /** Every block that leads to `v` is listed, or `v` needs no redirection. */
  ghost predicate ListedOrFine(f: seq<Node>, preds: seq<seq<nat>>) {
    |preds| == |f| && forall b, v: nat {:trigger v in Successors(f[b].term)} ::
      0 <= b < |f| && v in Successors(f[b].term) ==>
      v < |f| && (b in preds[v] || Fine(f, v))
  }

  ghost predicate FineBelow(f: seq<Node>, n: nat) {
    forall b, v: nat {:trigger v in Successors(f[b].term)} :: 0 <= b < |f| && v in Successors(f[b].term) && v < n ==>
        Fine(f, v)
  }

  lemma CodeIsFine(f: seq<Node>, id: nat)
    requires id < |f| && !IsEmpty(f[id])
    ensures Fine(f, id)
  {
  }

  lemma FineNow(f: seq<Node>, id: nat)
    requires FineBelow(f, id) && Fine(f, id)
    ensures FineBelow(f, id + 1)
  {
    hide Fine;
  }

  /** The first `n` of the listed blocks no longer lead to `id`. */
  ghost predicate Sent(f: seq<Node>, ps: seq<nat>, id: nat, n: nat) {
    n <= |ps| && forall i :: 0 <= i < n ==> ps[i] < |f| && id !in Successors(f[ps[i]].term)
  }

  lemma SentOne(f: seq<Node>, ps: seq<nat>, id: nat, n: nat, target: nat)
    requires Sent(f, ps, id, n) && n < |ps| && ps[n] < |f| && target != id
    ensures Sent(RedirectOne(f, ps[n], id, target), ps, id, n + 1)
  {
    RedirectTargets(f[ps[n]].term, id, target);
  }

  lemma AllListed(f: seq<Node>, preds: seq<seq<nat>>)
    requires InRange(f) && |preds| == |f| && forall b, v :: 0 <= b < |f| && v in Successors(f[b].term) ==> b in preds[v]
    ensures ListedOrFine(f, preds) && FineBelow(f, 0)
  {
    hide Fine;
    forall b, v | 0 <= b < |f| && v in Successors(f[b].term)
      ensures v < |f|
    {
      assert NodeInRange(f[b], |f|);
    }
  }

  lemma AllSent(f: seq<Node>, preds: seq<seq<nat>>, id: nat)
    requires ListedOrFine(f, preds) && FineBelow(f, id) && id < |f|
    requires Sent(f, preds[id], id, |preds[id]|)
    ensures FineBelow(f, id + 1)
  {
    hide Fine;
    forall b | 0 <= b < |f| && id in Successors(f[b].term)
      ensures b !in preds[id]
    {
      forall i | 0 <= i < |preds[id]|
        ensures preds[id][i] != b
      {
      }
    }
  }

  lemma SuccessorsFine(f: seq<Node>)
    requires InRange(f) && FineBelow(f, |f|)
    ensures AllFine(f)
  {
    hide Fine;
    forall b, v | 0 <= b < |f| && v in Successors(f[b].term)
      ensures Fine(f, v)
    {
      assert NodeInRange(f[b], |f|);
    }
  }

  lemma RedirectEmpties(f0: seq<Node>, f: seq<Node>, p: nat, id: nat, target: nat)
    requires SameEmpties(f0, f) && InRange(f) && p < |f| && target < |f|
    ensures SameEmpties(f0, RedirectOne(f, p, id, target)) && SameEmpties(f, RedirectOne(f, p, id, target)) &&
        InRange(RedirectOne(f, p, id, target))
  {
    RedirectFacts(f, p, id, target);
    RedirectTargets(f[p].term, id, target);
  }

  lemma RedirectedFine(f: seq<Node>, preds: seq<seq<nat>>, p: nat, id: nat, target: nat, k: nat)
    requires ListedOrFine(f, preds) && FineBelow(f, id) && p < |f| && target < |f| && target != id &&
        Fine(f, target) && GoneTo(f, id, target, k)
    requires SameEmpties(f, RedirectOne(f, p, id, target))
    ensures var g := RedirectOne(f, p, id, target);
      ListedOrFine(g, preds) && FineBelow(g, id) && Fine(g, target) && GoneTo(g, id, target, k)
  {
    hide Fine, SameEmpties;
    var g := RedirectOne(f, p, id, target);
    RedirectTargets(f[p].term, id, target);
    GoneStays(f, g, id, target, k);
    forall v: nat
      ensures Fine(g, v) == Fine(f, v)
    {
      FineStays(f, g, v);
    }
    forall b, v: nat {:trigger v in Successors(g[b].term)} | 0 <= b < |g| && v in Successors(g[b].term)
      ensures v < |g| && (b in preds[v] || Fine(g, v)) && (v < id ==> Fine(g, v))
    {
      if b == p {
        assert g[b].term == RedirectTerm(f[p].term, id, target);
      }
      assert v == target || v in Successors(f[b].term);
    }
  }

  lemma KeepsTwice(f: seq<Node>, g: seq<Node>, h: seq<Node>)
    requires Keeps(f, g) && Keeps(g, h)
    ensures Keeps(f, h)
  {
    hide SameFate, Follow;
    forall env: Env, b: nat
      ensures SameFate(f, b, h, b, env)
    {
      assert SameFate(f, b, g, b, env) && SameFate(g, b, h, b, env);
      FateTwice(f, b, g, b, h, b, env);
    }
    forall env: Env, b: nat | b < |f|
      ensures SameExit(f, h, b, env)
    {
      assert SameExit(f, g, b, env) && SameExit(g, h, b, env);
      if Follow(Reading(f[b]), env).Goto? {
        var v, u, t := Follow(Reading(f[b]), env).block, Follow(Reading(g[b]), env).block,
          Follow(Reading(h[b]), env).block;
        FateTwice(f, v, g, u, h, t, env);
      }
    }
  }

  // ---- Runs of the emitted function ----

  /** The runs stand in the same state, from which the same will be done; or they have left alike. */
  ghost predicate SameWork(f: seq<Node>, g: seq<Node>, c: Config, d: Config) {
    match c
    case At(b, s) => d.At? && d.state == s && SameFate(f, b, g, d.block, s.env) && Fine(g, d.block)
    case Left(_, _) => d == c
    case Stuck => true
  }

  lemma {:induction false} DeadStaysDead(f: seq<Node>, env: Env, y: nat, j: nat, x: nat)
    requires DeadEnd(f, y) && Walk(f, env, y, j) == Some(x)
    ensures !Visible(f, x)
    decreases j
  {
    assert GoneTo(f, y, y, 0);
    if j > 0 {
      var z := f[y].gone.value;
      forall t: nat, k: nat | GoneTo(f, z, t, k)
        ensures t < |f| && IsEmpty(f[t])
      {
        assert GoneTo(f, y, t, k + 1);
      }
      DeadStaysDead(f, env, z, j - 1, x);
    }
  }

  /** One silent step of a block with code, as a step of the emitted function. */
  lemma SilentStep(w: World, f: seq<Node>, y: nat, s: State)
    requires InRange(f) && Skip(f, s.env, y).Some? && !IsEmpty(f[y])
    ensures StepBlock(w, Emitted(f), At(y, s)) == At(Skip(f, s.env, y).value, s)
    ensures Skip(f, s.env, y).value in Successors(f[y].term)
  {
    assert NodeInRange(f[y], |f|);
    var v := Skip(f, s.env, y).value;
    assert v in Successors(f[y].term);
    assert s.(env := ParallelCopy(s.env, EdgeCopies([], y))) == s;
  }

  /** Silent steps towards a visible block never meet an empty one. */
  lemma {:induction false} RealWalk(w: World, f: seq<Node>, s: State, y: nat, j: nat, x: nat)
    requires InRange(f) && AllFine(f) && Fine(f, y) && Walk(f, s.env, y, j) == Some(x) && Visible(f, x)
    ensures Runs(w, Emitted(f), At(y, s), j) == At(x, s)
    decreases j
  {
    hide StepBlock, InRange, Skip, DeadEnd;
    if IsEmpty(f[y]) {
      DeadStaysDead(f, s.env, y, j, x);
    } else if j > 0 {
      SilentStep(w, f, y, s);
      var v := Skip(f, s.env, y).value;
      RealWalk(w, f, s, v, j - 1, x);
      RunsOn(w, Emitted(f), At(y, s), 1, j - 1);
      assert Runs(w, Emitted(f), At(y, s), 0) == At(y, s);
    }
  }

  /** A visible block, in both functions. */
  lemma VisibleStep(w: World, f: seq<Node>, g: seq<Node>, b: nat, s: State)
    requires InRange(f) && InRange(g) && Keeps(f, g) && AllFine(g) && b < |f| && Visible(f, b) && Visible(g, b)
    ensures SameWork(f, g, StepBlock(w, Emitted(f), At(b, s)), StepBlock(w, Emitted(g), At(b, s)))
  {
    hide SameFate, Fine;
    match ExecAll(w, f[b].body, s)
    case None =>
    case Some(s') =>
      assert SameExit(f, g, b, s'.env);
      assert Reading(f[b]) == f[b].term && Reading(g[b]) == g[b].term;
      assert s'.(env := ParallelCopy(s'.env, EdgeCopies([], b))) == s';
      if Follow(f[b].term, s'.env).Goto? {
        var v, u := Follow(f[b].term, s'.env).block, Follow(g[b].term, s'.env).block;
        assert u in Successors(g[b].term);
        assert Fine(g, u);
        assert u < |g| by {
          assert NodeInRange(g[b], |g|);
        }
      }
  }

  /** The main result: whatever a run of the function does, a run of the emitted result does, in the same order. */
  lemma {:induction false} EliminationKeepsRuns(f: seq<Node>, g: seq<Node>, w: World, params: Env, m: nat)
      returns (n: nat)
    requires InRange(f) && InRange(g) && Keeps(f, g) && AllFine(g) && Fine(g, 0)
    ensures SameWork(f, g, Runs(w, Emitted(f), Start(params), m), Runs(w, Emitted(g), Start(params), n))
  {
    hide StepBlock, SameFate, Fine, AllFine, InRange;
    if m == 0 {
      n := 0;
      assert SameFate(f, 0, g, 0, params);
    } else {
      n := EliminationKeepsRuns(f, g, w, params, m - 1);
      var c, d := Runs(w, Emitted(f), Start(params), m - 1), Runs(w, Emitted(g), Start(params), n);
      if !c.At? {
        Stopped(w, Emitted(f), c);
      } else {
        var more := WorkOn(f, g, w, c.block, c.state, d.block);
        RunsOn(w, Emitted(g), Start(params), n, more);
        n := n + more;
      }
    }
  }

  /** The first `m` blocks of a run are matched by some number of blocks of the other. */
  ghost predicate Followed(f: seq<Node>, g: seq<Node>, w: World, params: Env, m: nat) {
    exists n: nat :: SameWork(f, g, Runs(w, Emitted(f), Start(params), m), Runs(w, Emitted(g), Start(params), n))
  }

  lemma RunIsFollowed(f: seq<Node>, g: seq<Node>, w: World, params: Env, m: nat)
    requires InRange(f) && InRange(g) && Keeps(f, g) && AllFine(g) && Fine(g, 0)
    ensures Followed(f, g, w, params, m)
  {
    hide SameWork, InRange, Keeps, AllFine, Fine, Emitted;
    var n := EliminationKeepsRuns(f, g, w, params, m);
  }

  lemma WorkOn(f: seq<Node>, g: seq<Node>, w: World, b: nat, s: State, b': nat) returns (more: nat)
    requires InRange(f) && InRange(g) && Keeps(f, g) && AllFine(g) && SameWork(f, g, At(b, s), At(b', s))
    ensures SameWork(f, g, StepBlock(w, Emitted(f), At(b, s)), Runs(w, Emitted(g), At(b', s), more))
  {
    hide SameFate, Fine, AllFine, InRange, Keeps;
    more := 0;
    if b >= |f| {
    } else if Visible(f, b) {
      more := VisibleOn(f, g, w, b, s, b');
    } else if Skip(f, s.env, b).Some? && !IsEmpty(f[b]) {
      SilentStep(w, f, b, s);
      FateAfterSkip(f, s.env, b);
      FateTwice(f, Skip(f, s.env, b).value, f, b, g, b', s.env);
    }
  }

  lemma VisibleOn(f: seq<Node>, g: seq<Node>, w: World, b: nat, s: State, b': nat) returns (more: nat)
    requires InRange(f) && InRange(g) && Keeps(f, g) && AllFine(g) && SameWork(f, g, At(b, s), At(b', s))
    requires Visible(f, b)
    ensures SameWork(f, g, StepBlock(w, Emitted(f), At(b, s)), Runs(w, Emitted(g), At(b', s), more))
  {
    assert SameFate(f, b, g, b', s.env) && Fine(g, b');
    hide SameFate, Fine, AllFine, InRange, Keeps, SameWork, StepBlock, Emitted;
    BlockLands(f, s.env, b);
    var j := LandsAlso(f, b, g, b', s.env, b);
    RealWalk(w, g, s, b', j, b);
    more := j + 1;
    VisibleStep(w, f, g, b, s);
  }

  lemma LandsAlso(f: seq<Node>, v: nat, g: seq<Node>, u: nat, env: Env, x: nat) returns (j: nat)
    requires SameFate(f, v, g, u, env) && Lands(f, env, v, x)
    ensures Visible(g, x) && Walk(g, env, u, j) == Some(x)
  {
    assert Lands(g, env, u, x);
    j :| Walk(g, env, u, j) == Some(x);
  }
}
