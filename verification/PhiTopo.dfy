/** Turning a parallel copy into a sequence of moves with one temporary for each cycle. */
module ParallelCopies {
  import opened Graphs
  import opened IR

  /** A move of the sequence: a plain copy, a save to the temporary, or a copy out of it. */
  datatype Step = Plain(from: Operand, to: Name) | Save(from: Operand) | Restore(to: Name)

  datatype Machine = Machine(env: Env, temp: Option<Int32>)

  function Do(m: Machine, s: Step): Machine {
    match s
    case Plain(from, to) => m.(env := Assign(m.env, to, Lookup(m.env, from)))
    case Save(from) => m.(temp := Lookup(m.env, from))
    case Restore(to) => m.(env := Assign(m.env, to, m.temp))
  }

  /** Run the moves in order. */
  function Run(m: Machine, moves: seq<Step>): Machine
    decreases |moves|
  {
    if moves == [] then m else Do(Run(m, moves[..|moves| - 1]), moves[|moves| - 1])
  }

  // ---- Symbolic runs: which original value each variable now holds ----

  datatype Origin = Of(o: Operand) | OldTemp

  datatype Symbolic = Symbolic(val: map<Name, Origin>, temp: Origin) {
    function Now(o: Operand): Origin {
      match o
      case Const(_) => Of(o)
      case Var(x) => if x in val then val[x] else Of(o)
    }
  }

  function Original(m: Machine, r: Origin): Option<Int32> {
    match r
    case Of(o) => Lookup(m.env, o)
    case OldTemp => m.temp
  }

  function SymStep(m: Symbolic, s: Step): Symbolic {
    match s
    case Plain(from, to) => m.(val := m.val[to := m.Now(from)])
    case Save(from) => m.(temp := m.Now(from))
    case Restore(to) => m.(val := m.val[to := m.temp])
  }

  function SymRun(moves: seq<Step>): Symbolic
    decreases |moves|
  {
    if moves == [] then Symbolic(map[], OldTemp)
    else SymStep(SymRun(moves[..|moves| - 1]), moves[|moves| - 1])
  }

  /** `m` is what `sym` describes, started from `m0`. */
  ghost predicate Describes(sym: Symbolic, m0: Machine, m: Machine) {
    && m.temp == Original(m0, sym.temp)
    && forall o :: Lookup(m.env, o) == Original(m0, sym.Now(o))
  }

  /** The symbolic run tells what the run computes from every machine. */
  lemma {:induction false} SymRunSound(m: Machine, moves: seq<Step>)
    ensures Describes(SymRun(moves), m, Run(m, moves))
    decreases |moves|
  {
    if moves != [] {
      var k := |moves| - 1;
      SymRunSound(m, moves[..k]);
      SymStepSound(SymRun(moves[..k]), m, Run(m, moves[..k]), moves[k]);
    }
  }

  lemma SymStepSound(sym: Symbolic, m0: Machine, m: Machine, s: Step)
    requires Describes(sym, m0, m)
    ensures Describes(SymStep(sym, s), m0, Do(m, s))
  {
    match s
    case Save(from) =>
      assert Lookup(m.env, from) == Original(m0, sym.Now(from));
    case Restore(to) =>
      WriteSound(sym, m0, m, to, sym.temp, m.temp);
    case Plain(from, to) =>
      assert Lookup(m.env, from) == Original(m0, sym.Now(from));
      WriteSound(sym, m0, m, to, sym.Now(from), Lookup(m.env, from));
  }

  lemma WriteSound(sym: Symbolic, m0: Machine, m: Machine, to: Name, r: Origin, v: Option<Int32>)
    requires Describes(sym, m0, m) && v == Original(m0, r)
    ensures Describes(sym.(val := sym.val[to := r]), m0, m.(env := Assign(m.env, to, v)))
  {
    var sym', m' := sym.(val := sym.val[to := r]), m.(env := Assign(m.env, to, v));
    forall o
      ensures Lookup(m'.env, o) == Original(m0, sym'.Now(o))
    {
      assert Lookup(m.env, o) == Original(m0, sym.Now(o));
      if o.Var? && o.name == to {
        assert o == Var(to);
      } else if o.Var? {
        assert Lookup(m'.env, Var(o.name)) == Lookup(m.env, Var(o.name));
      }
    }
  }

  lemma {:induction false} ParallelCopyAt(env: Env, copies: seq<Copy>, x: Name)
    requires DistinctTargets(copies)
    ensures forall c :: c in copies && c.to == x ==> Lookup(ParallelCopy(env, copies), Var(x)) == Lookup(env, c.from)
    ensures (forall c :: c in copies ==> c.to != x) ==> Lookup(ParallelCopy(env, copies), Var(x)) == Lookup(env, Var(x))
    decreases |copies|
  {
    if copies != [] {
      var k := |copies| - 1;
      ParallelCopyAt(env, copies[..k], x);
      assert copies == copies[..k] + [copies[k]];
    }
  }

  /** The moves have the effect of the simultaneous copy, whatever the environment. */
  ghost predicate Sequentialises(moves: seq<Step>, copies: seq<Copy>) {
    && (forall c :: c in copies ==> SymRun(moves).Now(Var(c.to)) == Of(c.from))
    && (forall x :: (forall c :: c in copies ==> c.to != x) ==> SymRun(moves).Now(Var(x)) == Of(Var(x)))
  }

  lemma SequentialisedRun(m: Machine, moves: seq<Step>, copies: seq<Copy>)
    requires DistinctTargets(copies) && Sequentialises(moves, copies)
    ensures Run(m, moves).env == ParallelCopy(m.env, copies)
  {
    SymRunSound(m, moves);
    forall x
      ensures Lookup(Run(m, moves).env, Var(x)) == Lookup(ParallelCopy(m.env, copies), Var(x))
    {
      ParallelCopyAt(m.env, copies, x);
    }
    EnvEqual(Run(m, moves).env, ParallelCopy(m.env, copies));
  }

  // ---- The solver ----

  /** Every step copies between the ends of some edge. */
  ghost predicate Drawn(moves: seq<Step>, copies: seq<Copy>) {
    forall k :: 0 <= k < |moves| ==>
      match moves[k]
      case Plain(from, to) => Copy(from, to) in copies
      case Save(from) => exists c :: c in copies && c.from == from
      case Restore(to) => exists c :: c in copies && c.to == to
  }

  datatype Source = NoSource | Source(node: nat, edge: nat)

  /** The tables of the solver agree with the edge list: `g[v]` is the one edge into node `v`. */
  ghost predicate Tables(copies: seq<Copy>, name: seq<Operand>, g: seq<Source>) {
    && |g| == |name|
    && (forall a, b :: 0 <= a < b < |name| ==> name[a] != name[b])
    && (forall v :: 0 <= v < |g| && g[v].Source? ==> SourceOk(copies, name, g, v))
    && (forall i :: 0 <= i < |copies| ==> HasTarget(copies, name, g, i))
  }

  ghost predicate SourceOk(copies: seq<Copy>, name: seq<Operand>, g: seq<Source>, v: nat)
    requires v < |g| == |name| && g[v].Source?
  {
    && g[v].edge < |copies| && g[v].node < |name|
    && name[v] == Var(copies[g[v].edge].to) && name[g[v].node] == copies[g[v].edge].from
  }

  ghost predicate HasTarget(copies: seq<Copy>, name: seq<Operand>, g: seq<Source>, i: nat)
    requires |g| == |name| && i < |copies|
  {
    exists v :: 0 <= v < |g| && g[v].Source? && g[v].edge == i
  }

  /** The targets still to be written that read node `u`. */
  ghost function Readers(g: seq<Source>, done: set<nat>, u: nat): (s: set<nat>) {
    set v | 0 <= v < |g| && v !in done && g[v].Source? && g[v].node == u
  }

  /** `deg` counts the pending readers of every node. */
  ghost predicate Counts(g: seq<Source>, done: set<nat>, deg: seq<nat>) {
    |deg| == |g| && forall u :: 0 <= u < |g| ==> deg[u] == |Readers(g, done, u)|
  }

  /** Exactly the nodes of `done` have received their source's original value. */
  ghost predicate Written(sym: Symbolic, name: seq<Operand>, g: seq<Source>, done: set<nat>) {
    && |g| == |name|
    && (forall v :: v in done ==> v < |g| && g[v].Source? && g[v].node < |name|)
    && (forall v :: 0 <= v < |g| ==> sym.Now(name[v]) == Of(if v in done then name[g[v].node] else name[v]))
    && (forall x :: Var(x) !in name ==> sym.Now(Var(x)) == Of(Var(x)))
  }

  /** Node `u` is written with the original value of its source. */
  lemma WriteNode(sym: Symbolic, copies: seq<Copy>, name: seq<Operand>, g: seq<Source>, done: set<nat>, u: nat,
      r: Origin)
    requires Tables(copies, name, g) && Written(sym, name, g, done)
    requires u < |g| && g[u].Source? && r == Of(name[g[u].node])
    ensures Written(sym.(val := sym.val[copies[g[u].edge].to := r]), name, g, done + {u})
  {
    assert SourceOk(copies, name, g, u);
    var to := copies[g[u].edge].to;
    var sym' := sym.(val := sym.val[to := r]);
    forall v | 0 <= v < |g|
      ensures sym'.Now(name[v]) == Of(if v in done + {u} then name[g[v].node] else name[v])
    {
      if v != u { assert name[v] != name[u]; }
    }
  }

  /** Writing `u` removes it from the readers of its source and from no others. */
  lemma WriteCounts(g: seq<Source>, done: set<nat>, deg: seq<nat>, u: nat)
    requires Counts(g, done, deg) && u < |g| && u !in done && g[u].Source? && g[u].node < |g|
    ensures 0 < deg[g[u].node] && Counts(g, done + {u}, deg[g[u].node := deg[g[u].node] - 1])
  {
    var v := g[u].node;
    assert u in Readers(g, done, v);
    forall w | 0 <= w < |g|
      ensures |Readers(g, done + {u}, w)| == if w == v then deg[w] - 1 else deg[w]
    {
      if w == v {
        assert Readers(g, done + {u}, w) == Readers(g, done, w) - {u};
      } else {
        assert Readers(g, done + {u}, w) == Readers(g, done, w);
      }
    }
  }

  // ---- After peeling, only disjoint cycles remain ----

  /** The nodes with pending readers. */
  ghost function Busy(deg: seq<nat>): (s: set<nat>) {
    set u | 0 <= u < |deg| && 0 < deg[u]
  }

  /** On `rem` the sources form a permutation, and every node of it has one pending reader. */
  ghost predicate Cycles(g: seq<Source>, rem: set<nat>, deg: seq<nat>) {
    && Permutes(g, rem)
    && |deg| == |g|
    && (forall w :: 0 <= w < |g| ==> deg[w] == if w in rem then 1 else 0)
  }

  /** Every node of `rem` has a source in `rem`, and no two share one. */
  ghost predicate Permutes(g: seq<Source>, rem: set<nat>) {
    && (forall w :: w in rem ==> w < |g|)
    && (forall w {:trigger g[w]} :: w in rem ==> g[w].Source? && g[w].node in rem)
    && (forall a, b {:trigger g[a], g[b]} :: a in rem && b in rem && a != b ==> g[a].node != g[b].node)
  }

  /** The image of a finite set under an injective map is as large as the set. */
  lemma {:induction false} InjectiveImage(m: map<nat, nat>)
    requires forall a, b :: a in m && b in m && a != b ==> m[a] != m[b]
    ensures |m.Values| == |m.Keys|
    decreases |m|
  {
    if m != map[] {
      var k :| k in m;
      var m' := m - {k};
      InjectiveImage(m');
      assert m.Keys == m'.Keys + {k};
      assert m.Values == m'.Values + {m[k]} by {
        forall y | y in m.Values
          ensures y in m'.Values + {m[k]}
        {
          var a :| a in m && m[a] == y;
          if a != k { assert a in m' && m'[a] == y; }
        }
      }
    }
  }

  ghost function Pending(g: seq<Source>, done: set<nat>): (s: set<nat>) {
    set v | 0 <= v < |g| && g[v].Source? && v !in done
  }

  /** Every target still to be written is itself read by a pending copy. */
  ghost predicate PendingAreRead(g: seq<Source>, done: set<nat>, deg: seq<nat>) {
    |deg| == |g| && forall v :: v in Pending(g, done) ==> 0 < deg[v]
  }

  /** A reader for every busy node. */
  lemma SomeReaders(g: seq<Source>, done: set<nat>, deg: seq<nat>) returns (reader: map<nat, nat>)
    requires Counts(g, done, deg)
    ensures reader.Keys == Busy(deg)
    ensures forall u :: u in reader ==> Reads(g, done, reader[u], u)
  {
    forall u | u in Busy(deg)
      ensures exists v :: v in Readers(g, done, u)
    {
      assert Readers(g, done, u) != {};
    }
    reader := map u | u in Busy(deg) :: var v :| v in Readers(g, done, u); v;
  }

  /** The copy into `v` is pending and reads `u`. */
  ghost predicate Reads(g: seq<Source>, done: set<nat>, v: nat, u: nat) {
    v < |g| && v !in done && g[v].Source? && g[v].node == u
  }

  lemma Squeeze(a: set<nat>, b: set<nat>, c: set<nat>)
    requires a <= b <= c && |a| == |c|
    ensures a == b == c
  {
    SubsetSize(a, b);
    SubsetSize(b, c);
    assert c == a + (c - a);
    assert b == a + (b - a);
  }

  lemma SubsetSize(a: set<nat>, b: set<nat>)
    requires a <= b
    ensures |a| <= |b|
  {
    assert b == a + (b - a);
  }

  /** The chosen readers are all different, hence they are all the pending targets, and all the busy nodes. */
  lemma ReadersAreAll(g: seq<Source>, done: set<nat>, busy: set<nat>, reader: map<nat, nat>)
    requires Pending(g, done) <= busy == reader.Keys
    requires forall u :: u in reader ==> Reads(g, done, reader[u], u)
    ensures Pending(g, done) == busy == reader.Values
  {
    forall a, b | a in reader && b in reader && reader[a] == reader[b]
      ensures a == b
    {
      assert Reads(g, done, reader[a], a) && Reads(g, done, reader[b], b);
    }
    InjectiveImage(reader);
    forall v | v in reader.Values
      ensures v in Pending(g, done)
    {
      var u :| u in reader && reader[u] == v;
      assert Reads(g, done, v, u);
    }
    Squeeze(reader.Values, Pending(g, done), busy);
  }

  lemma OneReader(g: seq<Source>, done: set<nat>, deg: seq<nat>, reader: map<nat, nat>, u: nat)
    requires Counts(g, done, deg) && u in reader && u < |g| && Pending(g, done) <= reader.Values
    requires forall w :: w in reader ==> Reads(g, done, reader[w], w)
    ensures deg[u] == 1 && forall v :: Reads(g, done, v, u) ==> v == reader[u]
  {
    forall v | Reads(g, done, v, u)
      ensures v == reader[u]
    {
      assert v in Pending(g, done);
      var w :| w in reader && reader[w] == v;
      assert Reads(g, done, v, w);
    }
    assert Reads(g, done, reader[u], u);
    forall v
      ensures v in Readers(g, done, u) <==> v == reader[u]
    {
      assert v in Readers(g, done, u) ==> Reads(g, done, v, u);
    }
    assert Readers(g, done, u) == {reader[u]};
  }

  lemma PendingAreBusy(g: seq<Source>, done: set<nat>, deg: seq<nat>)
    requires PendingAreRead(g, done, deg)
    ensures Pending(g, done) <= Busy(deg) && forall u :: u in Busy(deg) ==> u < |g|
  {
  }

  /** After peeling, the busy nodes form disjoint cycles of sources. */
  lemma OnlyCycles(copies: seq<Copy>, name: seq<Operand>, g: seq<Source>, done: set<nat>, deg: seq<nat>)
    requires Tables(copies, name, g) && Counts(g, done, deg)
    requires PendingAreRead(g, done, deg)
    ensures Cycles(g, Busy(deg), deg)
    ensures Pending(g, done) == Busy(deg)
  {
    var busy := Busy(deg);
    CountsSize(g, done, deg);
    PendingAreBusy(g, done, deg);
    hide Counts, Tables, Cycles, Permutes, Readers, Reads, Pending, PendingAreRead, Busy;
    var reader := SomeReaders(g, done, deg);
    ReadersAreAll(g, done, busy, reader);
    BusyCycles(copies, name, g, done, deg, reader);
  }

  lemma BusyCycles(copies: seq<Copy>, name: seq<Operand>, g: seq<Source>, done: set<nat>, deg: seq<nat>,
      reader: map<nat, nat>)
    requires Tables(copies, name, g) && Counts(g, done, deg) && reader.Keys == Busy(deg) == Pending(g, done) ==
        reader.Values
    requires forall w :: w in reader ==> Reads(g, done, reader[w], w)
    ensures Cycles(g, Busy(deg), deg)
  {
    hide Counts, Tables, Readers, Reads, Pending, Permutes;
    CountsSize(g, done, deg);
    BusyPermute(copies, name, g, done, deg, reader);
    forall w | 0 <= w < |g|
      ensures deg[w] == if w in Busy(deg) then 1 else 0
    {
      if w in reader {
        BusyNode(copies, name, g, done, deg, reader, w);
      }
    }
  }

  lemma BusyPermute(copies: seq<Copy>, name: seq<Operand>, g: seq<Source>, done: set<nat>, deg: seq<nat>,
      reader: map<nat, nat>)
    requires Tables(copies, name, g) && Counts(g, done, deg) && reader.Keys == Busy(deg) == Pending(g, done) ==
        reader.Values
    requires forall w :: w in reader ==> Reads(g, done, reader[w], w)
    ensures Permutes(g, Busy(deg))
  {
    hide Counts, Tables, Readers, Reads, Pending, Busy;
    forall u | u in reader
      ensures u < |g|
    {
      BusyNode(copies, name, g, done, deg, reader, u);
    }
    forall u {:trigger g[u]} | u in reader
      ensures g[u].Source? && g[u].node in reader
    {
      BusyNode(copies, name, g, done, deg, reader, u);
    }
    forall a, b {:trigger g[a], g[b]} | a in reader && b in reader && a != b
      ensures g[a].node != g[b].node
    {
      DifferentSources(copies, name, g, done, deg, reader, a, b);
    }
  }

  lemma BusyNode(copies: seq<Copy>, name: seq<Operand>, g: seq<Source>, done: set<nat>, deg: seq<nat>, reader: map<nat,
      nat>, u: nat)
    requires Tables(copies, name, g) && Counts(g, done, deg) && u in reader &&
        reader.Keys == Busy(deg) == Pending(g, done) == reader.Values
    requires forall w :: w in reader ==> Reads(g, done, reader[w], w)
    ensures u < |g| == |deg| && g[u].Source? && deg[u] == 1 && g[u].node in Busy(deg) && Reads(g, done, u, g[u].node)
  {
    assert u in Busy(deg) && u in Pending(g, done);
    OneReader(g, done, deg, reader, u);
    SourceIsBusy(copies, name, g, done, deg, u);
  }

  lemma DifferentSources(copies: seq<Copy>, name: seq<Operand>, g: seq<Source>, done: set<nat>, deg: seq<nat>,
      reader: map<nat, nat>, a: nat, b: nat)
    requires Tables(copies, name, g) && Counts(g, done, deg) && a in reader && b in reader &&
        reader.Keys == Busy(deg) == Pending(g, done) == reader.Values
    requires a != b && forall w :: w in reader ==> Reads(g, done, reader[w], w)
    ensures a < |g| && b < |g| && g[a].Source? && g[b].Source? && g[a].node != g[b].node
  {
    hide Counts, Tables, Pending, Busy, Readers;
    BusyNode(copies, name, g, done, deg, reader, a);
    BusyNode(copies, name, g, done, deg, reader, b);
    CountsSize(g, done, deg);
    OneReader(g, done, deg, reader, g[a].node);
  }

  lemma SourceIsBusy(copies: seq<Copy>, name: seq<Operand>, g: seq<Source>, done: set<nat>, deg: seq<nat>, u: nat)
    requires Tables(copies, name, g) && Counts(g, done, deg) && u in Pending(g, done)
    ensures g[u].node in Busy(deg)
  {
    assert SourceOk(copies, name, g, u);
    WriteCounts(g, done, deg, u);
  }

  lemma CountsSize(g: seq<Source>, done: set<nat>, deg: seq<nat>)
    requires Counts(g, done, deg)
    ensures |deg| == |g|
  {
  }

  class PhiTopo {
    var edges_: seq<Copy>
    var id_: map<Operand, nat>
    var name_: seq<Operand>
    var g_: seq<Source>
    var deg_: seq<nat>

    constructor ()
      ensures Valid() && edges_ == [] && g_ == []
    {
      edges_, id_, name_, g_, deg_ := [], map[], [], [], [];
    }

    /** Node numbers and names match, and every edge has its ends named. */
    ghost predicate Valid()
      reads this
    {
      && Numbered()
      && (forall i :: 0 <= i < |edges_| ==> edges_[i].from in id_ && Var(edges_[i].to) in id_)
    }

    /** The names get consecutive numbers, in the order they are first met. */
    ghost predicate Numbered()
      reads this
    {
      && (forall o :: o in id_ ==> id_[o] < |name_| && name_[id_[o]] == o)
      && (forall k :: 0 <= k < |name_| ==> name_[k] in id_ && id_[name_[k]] == k)
      && |id_| == |name_|
    }

    method Number(o: Operand)
      requires Numbered()
      modifies `id_, `name_
      ensures Numbered() && o in id_ && forall p :: p in old(id_) ==> p in id_
    {
      if o !in id_ {
        var newId := |id_|;
        id_ := id_[o := newId];
        name_ := name_ + [o];
      }
    }

    method AddEdge(from: Operand, to: Name)
      requires Valid()
      modifies `edges_, `id_, `name_
      ensures Valid() && edges_ == old(edges_) + [Copy(from, to)]
    {
      edges_ := edges_ + [Copy(from, to)];
      Number(from);
      Number(Var(to));
    }

    /** Node `v` is the one that edge `i` writes. */
    method BuildTables()
      requires Valid() && g_ == [] && DistinctTargets(edges_)
      modifies `g_, `deg_
      ensures Tables(edges_, name_, g_) && Counts(g_, {}, deg_)
    {
      var n := |name_|;
      g_ := seq(n, i => NoSource);
      deg_ := seq(n, i => 0);
      NoReaders(g_, deg_);
      for i := 0 to |edges_|
        invariant |g_| == n
        invariant TablesUpTo(edges_, name_, g_, i) && Counts(g_, {}, deg_)
      {
        var u := id_[edges_[i].from];
        var v := id_[Var(edges_[i].to)];
        AddSource(edges_, name_, g_, deg_, i, u, v);
        g_ := g_[v := Source(u, i)];
        deg_ := deg_[u := deg_[u] + 1];
      }
    }

    /** The nodes that no copy reads, in order. */
    static method FreeNodes(deg: seq<nat>) returns (q: seq<nat>)
      ensures IsFree(deg, q)
    {
      q := [];
      for i := 0 to |deg|
        invariant forall k :: 0 <= k < |q| ==> q[k] < i && deg[q[k]] == 0
        invariant forall k :: 0 <= k < i && deg[k] == 0 ==> k in q
        invariant forall j, k :: 0 <= j < k < |q| ==> q[j] != q[k]
      {
        if deg[i] == 0 {
          QueueGrows(q, i);
          q := q + [i];
        }
      }
    }

    /** The nodes of `popped` have left the queue, and the copies into `done` have been emitted. */
    ghost predicate Peeling(q: seq<nat>, popped: set<nat>, res: seq<Step>, done: set<nat>)
      reads this
    {
      && Tables(edges_, name_, g_) && Counts(g_, done, deg_) && Written(SymRun(res), name_, g_, done) &&
        Drawn(res, edges_)
      && Queued(g_, deg_, q, popped, done)
    }

    lemma Peeled(popped: set<nat>, res: seq<Step>, done: set<nat>)
      requires Peeling([], popped, res, done)
      ensures Counts(g_, done, deg_) && Written(SymRun(res), name_, g_, done) && Drawn(res, edges_) &&
          PendingAreRead(g_, done, deg_)
    {
      QueueEmpty(g_, deg_, popped, done);
    }

    /** Take one node from the queue; if it is a target, its copy is emitted and its source may become free. */
    method PopNode(q: seq<nat>, ghost popped: set<nat>, res0: seq<Step>, ghost done0: set<nat>)
      returns (rest: seq<nat>, ghost gone: set<nat>, res: seq<Step>, ghost done: set<nat>)
      requires q != [] && Peeling(q, popped, res0, done0)
      modifies `deg_
      ensures Peeling(rest, gone, res, done) && gone == popped + {q[0]} && q[0] in NodesBelow(|g_|) - popped
    {
      hide Counts, Written, Queued, Tables, NodesBelow, SymRun, Drawn;
      QueueHead(g_, deg_, q, popped, done0);
      var u := q[0];
      gone := popped + {u};
      rest := q[1..];
      res, done := res0, done0;
      if g_[u].NoSource? {
        PopUnwritten(g_, deg_, q, popped, done);
      } else {
        var v, origin := g_[u].node, g_[u].edge;
        PopWritten(edges_, name_, g_, deg_, q, popped, done, res);
        DrawPlain(edges_, res, origin);
        QueuedSize(g_, deg_, q, popped, done0);
        res := res + [Plain(edges_[origin].from, edges_[origin].to)];
        done := done + {u};
        deg_ := deg_[v := deg_[v] - 1];
        if deg_[v] == 0 {
          rest := rest + [v];
        }
      }
    }

    /** Emit every copy whose target no pending copy reads; `done` are the targets written. */
    method Peel() returns (res: seq<Step>, ghost done: set<nat>)
      requires Tables(edges_, name_, g_) && Counts(g_, {}, deg_)
      modifies `deg_
      ensures Counts(g_, done, deg_) && Written(SymRun(res), name_, g_, done) && Drawn(res, edges_)
      ensures PendingAreRead(g_, done, deg_)
    {
      hide Counts, Written, Queued, Tables, NodesBelow, SymRun, Drawn, IsFree, PendingAreRead;
      NothingDrawn(edges_);
      res, done := [], {};
      var q := FreeNodes(deg_);
      ghost var popped: set<nat> := {};
      NothingWritten(edges_, name_, g_, deg_, q);
      while q != []
        invariant Peeling(q, popped, res, done)
        decreases NodesBelow(|g_|) - popped
      {
        q, popped, res, done := PopNode(q, popped, res, done);
      }
      Peeled(popped, res, done);
    }

    /** The remaining cycles, one after the other, each broken by a save and a restore. */
    method BreakCycles(res0: seq<Step>, ghost done0: set<nat>) returns (res: seq<Step>, ghost done: set<nat>)
      requires Tables(edges_, name_, g_) && Written(SymRun(res0), name_, g_, done0)
      requires Cycles(g_, Busy(deg_), deg_) && Pending(g_, done0) == Busy(deg_) && Drawn(res0, edges_)
      modifies `deg_
      ensures Written(SymRun(res), name_, g_, done) && Pending(g_, done) == {} && Drawn(res, edges_)
    {
      hide Written, Tables, SymRun, Drawn, Pending, Permutes;
      WrittenSize(SymRun(res0), name_, g_, done0);
      res, done := res0, done0;
      for u := 0 to |name_|
        invariant |deg_| == |name_| && Drawn(res, edges_)
        invariant Written(SymRun(res), name_, g_, done)
        invariant Cycles(g_, Busy(deg_), deg_) && Pending(g_, done) == Busy(deg_)
        invariant forall w :: 0 <= w < u ==> deg_[w] == 0
      {
        if deg_[u] != 0 {
          res, done := BreakCycle(u, res, done);
        }
      }
      assert Busy(deg_) == {};
    }

    method BreakCycle(start: nat, res0: seq<Step>, ghost done0: set<nat>) returns (res: seq<Step>, ghost done: set<nat>)
      requires Tables(edges_, name_, g_) && Written(SymRun(res0), name_, g_, done0)
      requires Cycles(g_, Busy(deg_), deg_) && Pending(g_, done0) == Busy(deg_) && start in Busy(deg_) &&
          Drawn(res0, edges_)
      modifies `deg_
      ensures Written(SymRun(res), name_, g_, done) && Drawn(res, edges_)
      ensures Cycles(g_, Busy(deg_), deg_) && Pending(g_, done) == Busy(deg_)
      ensures |deg_| == |old(deg_)| && deg_[start] == 0 && forall w :: 0 <= w < |deg_| && old(deg_[w]) == 0 ==>
          deg_[w] == 0
    {
      hide Walk, Written, Tables, Cycles, Pending, Permutes, SymRun, Busy;
      ghost var rem := Busy(deg_);
      CycleNode(g_, rem, deg_, start);
      res, done := res0, done0;
      var u := start;
      deg_ := deg_[u := deg_[u] - 1];
      var vFirst, originFirst := g_[u].node, g_[u].edge;
      if vFirst == u {
        SelfLoop(SymRun(res), edges_, name_, g_, done, rem, deg_, u);
        done := done + {u};
        return;
      }
      StartWalk(edges_, name_, g_, done, rem, deg_, start, res);
      res := res + [Save(edges_[originFirst].from)];
      ghost var path: seq<nat> := [start];
      u := vFirst;
      while u != start
        invariant |deg_| == |g_| && deg_[start] == 0 && forall w :: 0 <= w < |deg_| && old(deg_[w]) == 0 ==>
            deg_[w] == 0
        invariant Walk(name_, g_, done, rem, deg_, start, path, u, SymRun(res)) && Drawn(res, edges_)
        decreases rem - Elems(path)
      {
        WalkOn(edges_, name_, g_, done, rem, deg_, start, path, u, res);
        deg_ := deg_[u := deg_[u] - 1];
        if g_[u].NoSource? {
          assert false; // the broken-cycle error cannot occur
        }
        var v, origin := g_[u].node, g_[u].edge;
        res := res + [Plain(edges_[origin].from, edges_[origin].to)];
        path := path + [u];
        u := v;
      }
      CloseWalk(edges_, name_, g_, done, rem, deg_, start, path, u, res);
      res := res + [Restore(edges_[originFirst].to)];
      done := done + Elems(path);
    }

    method Solve() returns (res: seq<Step>)
      requires Valid() && g_ == [] && DistinctTargets(edges_)
      modifies `g_, `deg_
      ensures Sequentialises(res, edges_) && Drawn(res, edges_)
      ensures forall m: Machine :: Run(m, res).env == ParallelCopy(m.env, edges_)
    {
      BuildTables();
      ghost var done;
      res, done := Peel();
      OnlyCycles(edges_, name_, g_, done, deg_);
      res, done := BreakCycles(res, done);
      AllWritten(edges_, name_, id_, g_, done, res);
      forall m: Machine
        ensures Run(m, res).env == ParallelCopy(m.env, edges_)
      {
        SequentialisedRun(m, res, edges_);
      }
    }
  }

  /** The tables when the edges before `i` have been entered. */
  ghost predicate TablesUpTo(copies: seq<Copy>, name: seq<Operand>, g: seq<Source>, i: nat) {
    && i <= |copies| && |g| == |name|
    && (forall a, b :: 0 <= a < b < |name| ==> name[a] != name[b])
    && (forall v :: 0 <= v < |g| && g[v].Source? ==> SourceOk(copies, name, g, v) && g[v].edge < i)
    && (forall k :: 0 <= k < i ==> HasTarget(copies, name, g, k))
  }

  lemma NoReaders(g: seq<Source>, deg: seq<nat>)
    requires |g| == |deg| && forall v :: 0 <= v < |g| ==> g[v].NoSource? && deg[v] == 0
    ensures Counts(g, {}, deg)
  {
    forall u | 0 <= u < |g|
      ensures Readers(g, {}, u) == {}
    {
    }
  }

  lemma AddSource(copies: seq<Copy>, name: seq<Operand>, g: seq<Source>, deg: seq<nat>, i: nat, u: nat, v: nat)
    requires i < |copies| && TablesUpTo(copies, name, g, i) && Counts(g, {}, deg) && DistinctTargets(copies)
    requires u < |name| && v < |name| && name[u] == copies[i].from && name[v] == Var(copies[i].to)
    ensures u < |deg| && TablesUpTo(copies, name, g[v := Source(u, i)], i + 1)
    ensures Counts(g[v := Source(u, i)], {}, deg[u := deg[u] + 1])
  {
    var g' := g[v := Source(u, i)];
    assert g[v].Source? ==> SourceOk(copies, name, g, v);
    forall w | 0 <= w < |g|
      ensures |Readers(g', {}, w)| == if w == u then deg[w] + 1 else deg[w]
    {
      if w == u {
        assert Readers(g', {}, w) == Readers(g, {}, w) + {v};
      } else {
        assert Readers(g', {}, w) == Readers(g, {}, w);
      }
    }
    forall w | 0 <= w < |g'| && g'[w].Source?
      ensures SourceOk(copies, name, g', w) && g'[w].edge < i + 1
    {
      if w != v { assert SourceOk(copies, name, g, w); }
    }
    forall k | 0 <= k < i + 1
      ensures HasTarget(copies, name, g', k)
    {
      if k < i {
        assert HasTarget(copies, name, g, k);
        var w :| 0 <= w < |g| && g[w].Source? && g[w].edge == k;
        assert g'[w].edge == k;
      } else {
        assert g'[v].edge == k;
      }
    }
  }

  /** The nodes that no copy reads, each once. */
  ghost predicate IsFree(deg: seq<nat>, q: seq<nat>) {
    && (forall k :: 0 <= k < |q| ==> q[k] < |deg| && deg[q[k]] == 0)
    && (forall k :: 0 <= k < |deg| && deg[k] == 0 ==> k in q)
    && (forall j, k :: 0 <= j < k < |q| ==> q[j] != q[k])
  }

  lemma QueueGrows(q: seq<nat>, v: nat)
    ensures forall k :: k in q + [v] <==> k in q || k == v
  {
  }

  /** The queue and the popped nodes are exactly the nodes nobody reads any more; targets among the popped are done. */
  ghost predicate Queued(g: seq<Source>, deg: seq<nat>, q: seq<nat>, popped: set<nat>, done: set<nat>) {
    && |deg| == |g|
    && (forall k :: 0 <= k < |q| ==> q[k] < |g| && deg[q[k]] == 0 && q[k] !in popped)
    && (forall j, k :: 0 <= j < k < |q| ==> q[j] != q[k])
    && (forall v :: v in popped ==> v < |g| && deg[v] == 0 && (g[v].Source? <==> v in done))
    && (forall v :: v in done ==> v in popped)
    && (forall v :: 0 <= v < |g| && deg[v] == 0 ==> v in q || v in popped)
  }

  lemma SymRunSnoc(moves: seq<Step>, s: Step)
    ensures SymRun(moves + [s]) == SymStep(SymRun(moves), s)
  {
    assert (moves + [s])[..|moves|] == moves;
  }

  lemma NothingWritten(copies: seq<Copy>, name: seq<Operand>, g: seq<Source>, deg: seq<nat>, q: seq<nat>)
    requires Tables(copies, name, g) && Counts(g, {}, deg)
    requires IsFree(deg, q)
    ensures |deg| == |g| && Written(SymRun([]), name, g, {}) && Queued(g, deg, q, {}, {})
  {
  }

  lemma QueuedSize(g: seq<Source>, deg: seq<nat>, q: seq<nat>, popped: set<nat>, done: set<nat>)
    requires Queued(g, deg, q, popped, done)
    ensures |deg| == |g|
  {
  }

  lemma QueueHead(g: seq<Source>, deg: seq<nat>, q: seq<nat>, popped: set<nat>, done: set<nat>)
    requires Queued(g, deg, q, popped, done) && q != []
    ensures q[0] < |g|
  {
  }

  lemma QueueEmpty(g: seq<Source>, deg: seq<nat>, popped: set<nat>, done: set<nat>)
    requires Queued(g, deg, [], popped, done)
    ensures PendingAreRead(g, done, deg)
  {
  }

  lemma CycleNode(g: seq<Source>, rem: set<nat>, deg: seq<nat>, u: nat)
    requires rem == Busy(deg) && Cycles(g, rem, deg) && u in rem
    ensures u < |deg| == |g| && deg[u] == 1 && g[u].Source? && deg[u := 0][u := 1] == deg
  {
    assert g[u] == g[u];
  }

  lemma NothingDrawn(copies: seq<Copy>)
    ensures Drawn([], copies)
  {
  }

  lemma DrawPlain(copies: seq<Copy>, res: seq<Step>, i: nat)
    requires Drawn(res, copies) && i < |copies|
    ensures Drawn(res + [Plain(copies[i].from, copies[i].to)], copies)
  {
    assert copies[i] in copies;
  }

  lemma PopUnwritten(g: seq<Source>, deg: seq<nat>, q: seq<nat>, popped: set<nat>, done: set<nat>)
    requires Queued(g, deg, q, popped, done) && q != [] && g[q[0]].NoSource?
    ensures Queued(g, deg, q[1..], popped + {q[0]}, done)
    ensures q[0] in NodesBelow(|g|) - popped
  {
  }

  /** The popped target is written with a plain copy; its source may become free. */
  lemma PopWritten(copies: seq<Copy>, name: seq<Operand>, g: seq<Source>, deg: seq<nat>, q: seq<nat>, popped: set<nat>,
      done: set<nat>, res: seq<Step>)
    requires Tables(copies, name, g) && Counts(g, done, deg) && Written(SymRun(res), name, g, done)
    requires Queued(g, deg, q, popped, done) && q != [] && g[q[0]].Source?
    ensures q[0] in NodesBelow(|g|) - popped && SourceOk(copies, name, g, q[0]) && 0 < deg[g[q[0]].node]
    ensures var u := q[0]; var v := g[u].node; var deg' := deg[v := deg[v] - 1];
      var q' := if deg'[v] == 0 then q[1..] + [v] else q[1..];
      && Counts(g, done + {u}, deg') && Queued(g, deg', q', popped + {u}, done + {u})
      && Written(SymRun(res + [Plain(copies[g[u].edge].from, copies[g[u].edge].to)]), name, g, done + {u})
  {
    var u := q[0];
    assert SourceOk(copies, name, g, u);
    var v := g[u].node;
    WriteCounts(g, done, deg, u);
    SymRunSnoc(res, Plain(copies[g[u].edge].from, copies[g[u].edge].to));
    WriteNode(SymRun(res), copies, name, g, done, u, Of(name[v]));
    RequeueSource(g, deg, q, popped, done);
  }

  lemma RequeueSource(g: seq<Source>, deg: seq<nat>, q: seq<nat>, popped: set<nat>, done: set<nat>)
    requires Queued(g, deg, q, popped, done) && q != [] && g[q[0]].Source? && g[q[0]].node < |g| &&
        0 < deg[g[q[0]].node]
    ensures var u := q[0]; var v := g[u].node; var deg' := deg[v := deg[v] - 1];
      Queued(g, deg', if deg'[v] == 0 then q[1..] + [v] else q[1..], popped + {u}, done + {u})
  {
  }

  // ---- Walking one cycle ----

  /** `path` starts at `start` and follows the sources through different nodes of `rem`; `u` comes next. */
  ghost predicate OnCycle(g: seq<Source>, rem: set<nat>, start: nat, path: seq<nat>, u: nat) {
    && Permutes(g, rem) && |path| > 0 && path[0] == start && u in rem
    && (forall k :: 0 <= k < |path| ==> path[k] in rem)
    && (forall j, k :: 0 <= j < k < |path| ==> path[j] != path[k])
    && (forall k :: 0 < k < |path| ==> g[path[k - 1]].node == path[k])
    && g[path[|path| - 1]].node == u
  }

  /**
   * In the middle of a cycle: all the visited nodes but the first are written, and the temporary
   * keeps what the first one reads.
   */
  ghost predicate Walk(name: seq<Operand>, g: seq<Source>, done: set<nat>, rem: set<nat>, deg: seq<nat>, start: nat,
      path: seq<nat>, u: nat, sym: Symbolic) {
    && |deg| == |g| == |name| && OnCycle(g, rem, start, path, u) && rem !! done
    && (forall w :: 0 <= w < |g| ==> deg[w] == if w in rem && w !in path then 1 else 0)
    && Written(sym, name, g, done + Elems(path[1..]))
    && g[start].Source? && g[start].node < |name| && sym.temp == Of(name[g[start].node])
  }

  /** The walk meets no node twice before it is back at the start. */
  lemma NextIsNew(g: seq<Source>, rem: set<nat>, start: nat, path: seq<nat>, u: nat)
    requires OnCycle(g, rem, start, path, u)
    ensures forall i :: 0 < i < |path| ==> path[i] != u
  {
    forall i | 0 < i < |path|
      ensures path[i] != u
    {
      assert g[path[i - 1]].node == path[i];
    }
  }

  lemma SelfLoop(sym: Symbolic, copies: seq<Copy>, name: seq<Operand>, g: seq<Source>, done: set<nat>, rem: set<nat>,
      deg: seq<nat>, u: nat)
    requires u < |deg| == |g| && u in rem && Cycles(g, rem, deg[u := 1]) && deg[u] == 0
    requires Written(sym, name, g, done) && Pending(g, done) == rem && g[u].Source? && g[u].node == u
    ensures Written(sym, name, g, done + {u}) && Busy(deg) == rem - {u}
    ensures Cycles(g, Busy(deg), deg) && Pending(g, done + {u}) == Busy(deg)
  {
    BusyAre(deg, rem - {u});
    LeaveCycle(g, rem, {u});
  }

  lemma BusyAre(deg: seq<nat>, rem: set<nat>)
    requires forall w :: w in rem ==> w < |deg|
    requires forall w :: 0 <= w < |deg| ==> deg[w] == if w in rem then 1 else 0
    ensures Busy(deg) == rem
  {
  }

  lemma LeaveCycle(g: seq<Source>, rem: set<nat>, cycle: set<nat>)
    requires Permutes(g, rem) && cycle <= rem
    requires forall w :: w in rem - cycle ==> g[w].node !in cycle
    ensures Permutes(g, rem - cycle)
  {
  }

  lemma WrittenSize(sym: Symbolic, name: seq<Operand>, g: seq<Source>, done: set<nat>)
    requires Written(sym, name, g, done)
    ensures |g| == |name|
  {
  }

  lemma NotYetWritten(sym: Symbolic, name: seq<Operand>, g: seq<Source>, done: set<nat>, v: nat)
    requires Written(sym, name, g, done) && v < |g| && v !in done
    ensures |g| == |name| && sym.Now(name[v]) == Of(name[v])
  {
  }

  lemma SaveWritesNothing(sym: Symbolic, name: seq<Operand>, g: seq<Source>, done: set<nat>, r: Origin)
    requires Written(sym, name, g, done)
    ensures Written(sym.(temp := r), name, g, done)
  {
    forall v | 0 <= v < |g|
      ensures sym.(temp := r).Now(name[v]) == sym.Now(name[v])
    {
    }
  }

  lemma SourceFacts(copies: seq<Copy>, name: seq<Operand>, g: seq<Source>, u: nat)
    requires Tables(copies, name, g) && u < |g| && g[u].Source?
    ensures SourceOk(copies, name, g, u)
  {
  }

  lemma CycleSource(g: seq<Source>, done: set<nat>, rem: set<nat>, start: nat)
    requires Permutes(g, rem) && Pending(g, done) == rem && start in rem
    ensures start < |g| && g[start].Source? && g[start].node in rem && g[start].node < |g| && rem !! done
  {
    assert g[start] == g[start];
  }

  lemma StartWalk(copies: seq<Copy>, name: seq<Operand>, g: seq<Source>, done: set<nat>, rem: set<nat>, deg: seq<nat>,
      start: nat, res: seq<Step>)
    requires Tables(copies, name, g) && Written(SymRun(res), name, g, done) && Pending(g, done) == rem
    requires start < |deg| == |g| && start in rem && Cycles(g, rem, deg[start := 1]) && deg[start] == 0
    ensures g[start].Source? && g[start].edge < |copies|
    ensures Walk(name, g, done, rem, deg, start, [start], g[start].node,
        SymRun(res + [Save(copies[g[start].edge].from)]))
  {
    hide Written, Tables, SymRun, Busy, Permutes, Pending;
    CycleSource(g, done, rem, start);
    SourceFacts(copies, name, g, start);
    NotYetWritten(SymRun(res), name, g, done, g[start].node);
    SymRunSnoc(res, Save(copies[g[start].edge].from));
    assert [start][1..] == [];
    assert done + Elems([]) == done;
    SaveWritesNothing(SymRun(res), name, g, done, SymRun(res).Now(copies[g[start].edge].from));
  }

  lemma WalkOn(copies: seq<Copy>, name: seq<Operand>, g: seq<Source>, done: set<nat>, rem: set<nat>, deg: seq<nat>,
      start: nat, path: seq<nat>, u: nat, res: seq<Step>)
    requires Tables(copies, name, g) && Walk(name, g, done, rem, deg, start, path, u, SymRun(res)) && u != start
    ensures u !in path && u in rem && u < |deg| == |g| && deg[u] == 1 && g[u].Source? && g[u].edge < |copies|
    ensures rem - Elems(path + [u]) < rem - Elems(path)
    ensures Walk(name, g, done, rem, deg[u := 0], start, path + [u], g[u].node,
        SymRun(res + [Plain(copies[g[u].edge].from, copies[g[u].edge].to)]))
  {
    hide Written, Tables, SymRun;
    assert |g| == |name| == |deg|;
    NextIsNew(g, rem, start, path, u);
    var v := g[u].node;
    assert OnCycle(g, rem, start, path + [u], v);
    NextIsNew(g, rem, start, path + [u], v);
    SourceFacts(copies, name, g, u);
    var written := done + Elems(path[1..]);
    assert forall i :: 0 <= i < |path[1..]| ==> path[1..][i] == (path + [u])[i + 1];
    SymRunSnoc(res, Plain(copies[g[u].edge].from, copies[g[u].edge].to));
    NotYetWritten(SymRun(res), name, g, written, v);
    WriteNode(SymRun(res), copies, name, g, written, u, Of(name[v]));
    assert (path + [u])[1..] == path[1..] + [u];
    assert done + Elems((path + [u])[1..]) == written + {u};
    assert Elems(path + [u]) == Elems(path) + {u};
  }

  lemma CycleStart(g: seq<Source>, rem: set<nat>, start: nat, path: seq<nat>, u: nat)
    requires OnCycle(g, rem, start, path, u)
    ensures |path| > 0 && path[0] == start && start in rem && start < |g| && g[start].Source?
  {
    assert g[start] == g[start];
  }

  lemma CloseWalk(copies: seq<Copy>, name: seq<Operand>, g: seq<Source>, done: set<nat>, rem: set<nat>, deg: seq<nat>,
      start: nat, path: seq<nat>, u: nat, res: seq<Step>)
    requires Tables(copies, name, g) && Walk(name, g, done, rem, deg, start, path, u, SymRun(res)) && u == start
    requires Pending(g, done) == rem
    ensures g[start].Source? && g[start].edge < |copies|
    ensures Written(SymRun(res + [Restore(copies[g[start].edge].to)]), name, g, done + Elems(path))
    ensures Busy(deg) == rem - Elems(path) && Cycles(g, Busy(deg), deg) && Pending(g, done + Elems(path)) == Busy(deg)
  {
    hide Written, Tables, Cycles, SymRun, Pending, Busy, OnCycle, Permutes;
    CycleStart(g, rem, start, path, u);
    SourceFacts(copies, name, g, start);
    SymRunSnoc(res, Restore(copies[g[start].edge].to));
    WriteNode(SymRun(res), copies, name, g, done + Elems(path[1..]), start, Of(name[g[start].node]));
    assert path == [start] + path[1..];
    assert done + Elems(path) == done + Elems(path[1..]) + {start};
    CycleDone(g, done, rem, deg, start, path);
  }

  lemma CycleDone(g: seq<Source>, done: set<nat>, rem: set<nat>, deg: seq<nat>, start: nat, path: seq<nat>)
    requires |deg| == |g| && OnCycle(g, rem, start, path, start) && Pending(g, done) == rem
    requires forall w :: 0 <= w < |g| ==> deg[w] == if w in rem && w !in path then 1 else 0
    ensures Busy(deg) == rem - Elems(path) && Cycles(g, Busy(deg), deg) && Pending(g, done + Elems(path)) == Busy(deg)
  {
    BusyAre(deg, rem - Elems(path));
    forall w | w in rem - Elems(path)
      ensures g[w].node !in Elems(path)
    {
      SourceLeavesPath(g, rem, start, path, w);
    }
    LeaveCycle(g, rem, Elems(path));
  }

  /** A node off a closed walk has its source off the walk too. */
  lemma SourceLeavesPath(g: seq<Source>, rem: set<nat>, start: nat, path: seq<nat>, w: nat)
    requires OnCycle(g, rem, start, path, start) && w in rem && w !in path
    ensures g[w].node !in path
  {
    forall i | 0 <= i < |path|
      ensures g[w].node != path[i]
    {
      var a := if i == 0 then path[|path| - 1] else path[i - 1];
      assert g[a].node == path[i];
    }
  }

  lemma AllWritten(copies: seq<Copy>, name: seq<Operand>, id: map<Operand, nat>, g: seq<Source>, done: set<nat>,
      res: seq<Step>)
    requires Tables(copies, name, g) && Written(SymRun(res), name, g, done) && Pending(g, done) == {}
    ensures Sequentialises(res, copies)
  {
    var sym := SymRun(res);
    forall c | c in copies
      ensures sym.Now(Var(c.to)) == Of(c.from)
    {
      var i :| 0 <= i < |copies| && copies[i] == c;
      assert HasTarget(copies, name, g, i);
      var v :| 0 <= v < |g| && g[v].Source? && g[v].edge == i;
      assert SourceOk(copies, name, g, v);
      assert v !in Pending(g, done);
    }
    forall x | forall c :: c in copies ==> c.to != x
      ensures sym.Now(Var(x)) == Of(Var(x))
    {
      if Var(x) in name {
        var v :| 0 <= v < |name| && name[v] == Var(x);
        assert v in done ==> SourceOk(copies, name, g, v) && copies[g[v].edge] in copies;
      }
    }
  }
}
