/** Block-level liveness over bit sets: a postorder pass, then a worklist, against liveness along paths. */
module Liveness {
  import opened BitSets
  import opened Graphs

  type VarId = nat

  /** Some path from block `b` reaches a block that uses `x` and no block before it defines `x`. */
  ghost predicate LiveAlong(g: Graph, use: seq<set<VarId>>, def: seq<set<VarId>>, b: nat, x: VarId, p: seq<nat>) {
    && IsPath(g, p) && p[0] == b && |use| == |def| == |g|
    && x in use[p[|p| - 1]]
    && forall i :: 0 <= i < |p| - 1 ==> x !in def[p[i]]
  }

  ghost predicate LiveIn(g: Graph, use: seq<set<VarId>>, def: seq<set<VarId>>, b: nat, x: VarId) {
    exists p :: LiveAlong(g, use, def, b, x, p)
  }

  /** The union of the sets that `ins` gives to the vertices of `vs`. */
  ghost function UnionOver(ins: seq<set<VarId>>, vs: seq<nat>): (s: set<VarId>)
    requires forall v :: v in vs ==> v < |ins|
    ensures forall x :: x in s <==> exists v :: v in vs && x in ins[v]
  {
    if vs == [] then {} else
      assert vs[0] in vs;
      assert forall v :: v in vs <==> v == vs[0] || v in vs[1..];
      ins[vs[0]] + UnionOver(ins, vs[1..])
  }

  lemma {:induction false} UnionOverGrows(ins: seq<set<VarId>>, ins': seq<set<VarId>>, vs: seq<nat>)
    requires forall v :: v in vs ==> v < |ins| && v < |ins'| && ins[v] <= ins'[v]
    ensures UnionOver(ins, vs) <= UnionOver(ins', vs)
  {
    if vs != [] {
      assert vs[0] in vs && forall v :: v in vs[1..] ==> v in vs;
      UnionOverGrows(ins, ins', vs[1..]);
    }
  }

  /** The dataflow equations at block `b`. */
  ghost predicate Balanced(g: Graph, use: seq<set<VarId>>, def: seq<set<VarId>>, ins: seq<set<VarId>>,
      outs: seq<set<VarId>>, b: nat) {
    && b < |g| == |use| == |def| == |ins| == |outs| && WellFormed(g)
    && outs[b] == UnionOver(ins, g[b])
    && ins[b] == use[b] + (outs[b] - def[b])
  }

  /** The recorded sets are justified by paths, and never ahead of the equations. */
  ghost predicate Justified(g: Graph, use: seq<set<VarId>>, def: seq<set<VarId>>, ins: seq<set<VarId>>,
      outs: seq<set<VarId>>) {
    && |g| == |use| == |def| == |ins| == |outs| && WellFormed(g)
    && (forall b, x :: 0 <= b < |g| && x in ins[b] ==> LiveIn(g, use, def, b, x))
    && (forall b :: 0 <= b < |g| ==> outs[b] <= UnionOver(ins, g[b]))
    && (forall b :: 0 <= b < |g| ==> ins[b] <= use[b] + (outs[b] - def[b]))
  }

  lemma LiveStep(g: Graph, use: seq<set<VarId>>, def: seq<set<VarId>>, b: nat, v: nat, x: VarId)
    requires |g| == |use| == |def| && b < |g| && v in g[b]
    requires x !in def[b] && LiveIn(g, use, def, v, x)
    ensures LiveIn(g, use, def, b, x)
  {
    var p :| LiveAlong(g, use, def, v, x, p);
    var q := [b] + p;
    assert forall i :: 0 < i < |q| ==> q[i] == p[i - 1];
    forall i | 0 <= i < |q| - 1
      ensures Edge(g, q[i], q[i + 1]) && x !in def[q[i]]
    {
      if i > 0 { assert Edge(g, p[i - 1], p[i]); }
    }
    assert LiveAlong(g, use, def, b, x, q);
  }

  lemma LiveAtUse(g: Graph, use: seq<set<VarId>>, def: seq<set<VarId>>, b: nat, x: VarId)
    requires |g| == |use| == |def| && b < |g| && x in use[b]
    ensures LiveIn(g, use, def, b, x)
  {
    assert LiveAlong(g, use, def, b, x, [b]);
  }

  /** What holds along a path where the equations hold: a live variable is recorded. */
  lemma {:induction false} LiveIsRecorded(g: Graph, use: seq<set<VarId>>, def: seq<set<VarId>>, ins: seq<set<VarId>>,
      outs: seq<set<VarId>>, x: VarId, p: seq<nat>)
    requires |p| > 0 && LiveAlong(g, use, def, p[0], x, p)
    requires forall i :: 0 <= i < |p| ==> Balanced(g, use, def, ins, outs, p[i])
    ensures p[0] < |ins| && x in ins[p[0]]
    decreases |p|
  {
    assert Balanced(g, use, def, ins, outs, p[0]);
    if |p| > 1 {
      var q := p[1..];
      forall i | 0 <= i < |q| - 1
        ensures Edge(g, q[i], q[i + 1]) && x !in def[q[i]]
      {
        assert Edge(g, p[i + 1], p[i + 2]);
      }
      LiveIsRecorded(g, use, def, ins, outs, x, q);
      assert Edge(g, p[0], p[1]);
    }
  }

  /** The blocks marked so far, and the marked blocks all of whose successors are marked. */
  ghost predicate MarkedFrom(g: Graph, root: nat, visited: seq<bool>) {
    |visited| == |g| && forall v :: 0 <= v < |g| && visited[v] ==> Reachable(g, root, v)
  }

  ghost function Unmarked(visited: seq<bool>): (s: set<nat>) {
    set v | 0 <= v < |visited| && !visited[v]
  }

  /** What one round gives for a block is live there. */
  lemma RoundLive(g: Graph, use: seq<set<VarId>>, def: seq<set<VarId>>, ins: seq<set<VarId>>, u: nat, x: VarId)
    requires |g| == |use| == |def| == |ins| && WellFormed(g) && u < |g|
    requires forall b, y :: 0 <= b < |g| && y in ins[b] ==> LiveIn(g, use, def, b, y)
    requires x in use[u] + (UnionOver(ins, g[u]) - def[u])
    ensures LiveIn(g, use, def, u, x)
  {
    hide LiveIn;
    if x in use[u] {
      LiveAtUse(g, use, def, u, x);
    } else {
      var v :| v in g[u] && x in ins[v];
      LiveStep(g, use, def, u, v, x);
    }
  }

  lemma JustifiedFacts(g: Graph, use: seq<set<VarId>>, def: seq<set<VarId>>, ins: seq<set<VarId>>,
      outs: seq<set<VarId>>)
    requires Justified(g, use, def, ins, outs)
    ensures |g| == |use| == |def| == |ins| == |outs| && WellFormed(g)
    ensures forall b, x :: 0 <= b < |g| && x in ins[b] ==> LiveIn(g, use, def, b, x)
    ensures forall b :: 0 <= b < |g| ==> outs[b] <= UnionOver(ins, g[b]) && ins[b] <= use[b] + (outs[b] - def[b])
  {
    hide LiveIn, UnionOver;
  }

  /** One process round keeps what was recorded justified and only adds. */
  lemma RoundJustified(g: Graph, use: seq<set<VarId>>, def: seq<set<VarId>>, ins: seq<set<VarId>>,
      outs: seq<set<VarId>>, u: nat)
    requires Justified(g, use, def, ins, outs) && u < |g|
    ensures var o := UnionOver(ins, g[u]); var i := use[u] + (o - def[u]);
      && outs[u] <= o && ins[u] <= i
      && Justified(g, use, def, ins[u := i], outs[u := o])
  {
    hide LiveIn, UnionOver;
    JustifiedFacts(g, use, def, ins, outs);
    var o := UnionOver(ins, g[u]);
    var i := use[u] + (o - def[u]);
    var ins', outs' := ins[u := i], outs[u := o];
    forall x | x in i
      ensures LiveIn(g, use, def, u, x)
    {
      RoundLive(g, use, def, ins, u, x);
    }
    forall b | 0 <= b < |g|
      ensures UnionOver(ins, g[b]) <= UnionOver(ins', g[b])
    {
      UnionOverGrows(ins, ins', g[b]);
    }
  }

  /** A round at `u` leaves every other block balanced unless it precedes `u`. */
  lemma RoundBalances(g: Graph, preds: Graph, use: seq<set<VarId>>, def: seq<set<VarId>>, ins: seq<set<VarId>>,
      outs: seq<set<VarId>>, u: nat, b: nat)
    requires Converses(g, preds) && |g| == |use| == |def| == |ins| == |outs| && u < |g| && b < |g|
    requires b == u || Balanced(g, use, def, ins, outs, b)
    ensures var o := UnionOver(ins, g[u]); var i := use[u] + (o - def[u]);
      (i != ins[u] && b in preds[u]) || Balanced(g, use, def, ins[u := i], outs[u := o], b)
  {
    var o := UnionOver(ins, g[u]);
    var i := use[u] + (o - def[u]);
    if i == ins[u] {
      assert ins[u := i] == ins;
    } else if b !in preds[u] {
      UnionOverSame(ins, ins[u := i], g[b]);
    }
  }

  lemma {:induction false} UnionOverSame(ins: seq<set<VarId>>, ins': seq<set<VarId>>, vs: seq<nat>)
    requires forall v :: v in vs ==> v < |ins| && v < |ins'| && ins[v] == ins'[v]
    ensures UnionOver(ins, vs) == UnionOver(ins', vs)
  {
    UnionOverGrows(ins, ins', vs);
    UnionOverGrows(ins', ins, vs);
  }

  // ---- Sets of bits ----

  /** The sets that the bit sets of `objects` stand for. */
  ghost function SetsOf(objects: seq<BitSet>): (sets: seq<set<VarId>>)
    reads set o | o in objects
    ensures |sets| == |objects| && forall b :: 0 <= b < |sets| ==> sets[b] == objects[b].Contents()
  {
    seq(|objects|, b requires 0 <= b < |objects| reads set o | o in objects => objects[b].Contents())
  }

  /** Words for the numbers below `count`. */
  function WordsFor(count: nat): nat {
    (count + 63) / 64
  }

  predicate FitBelow(sets: seq<set<VarId>>, count: nat) {
    forall b, x :: 0 <= b < |sets| && x in sets[b] ==> x < count
  }

  predicate Different(objects: seq<BitSet>) {
    forall b, c :: 0 <= b < c < |objects| ==> objects[b] != objects[c]
  }

  lemma InWords(x: nat, count: nat)
    requires x < count
    ensures x / 64 < WordsFor(count)
  {
  }

  class LivenessSolver {
    const succs: Graph
    const preds: Graph
    const def: seq<set<VarId>>
    const use: seq<set<VarId>>
    const varCount: nat
    const in_: seq<BitSet>
    const out_: seq<BitSet>
    const newOut: BitSet
    const newIn: BitSet

    /** IN and OUT of every block as sets. */
    ghost function In(): (sets: seq<set<VarId>>)
      reads set o | o in in_
      ensures |sets| == |in_|
    {
      SetsOf(in_)
    }

    ghost function Out(): (sets: seq<set<VarId>>)
      reads set o | o in out_
      ensures |sets| == |out_|
    {
      SetsOf(out_)
    }

    ghost function Repr(): set<BitSet> {
      (set o | o in in_) + (set o | o in out_) + {newOut, newIn}
    }

    ghost predicate Shape() {
      && Converses(succs, preds) && 0 < |succs|
      && |def| == |use| == |in_| == |out_| == |succs| && FitBelow(use, varCount) && FitBelow(def, varCount)
      && Different(in_) && Different(out_) && (forall o :: o in in_ ==> o !in out_)
      && newOut != newIn && newOut !in in_ && newOut !in out_ && newIn !in in_ && newIn !in out_
    }

    /** Every bit set has words for all variables and no more. */
    ghost predicate Sized()
      reads Repr()
    {
      forall o :: o in Repr() ==> |o.bits| == WordsFor(varCount)
    }

    constructor (g: Graph, back: Graph, uses: seq<set<VarId>>, defs: seq<set<VarId>>, count: nat)
      requires Converses(g, back) && 0 < |g| == |uses| == |defs| && FitBelow(uses, count) && FitBelow(defs, count)
      ensures Shape() && succs == g && preds == back && use == uses && def == defs && fresh(Repr())
      ensures forall b :: 0 <= b < |g| ==> In()[b] == Out()[b] == {}
    {
      hide BitSet.Contents;
      var ins: seq<BitSet>, outs: seq<BitSet> := [], [];
      for b := 0 to |g|
        invariant |ins| == |outs| == b && Different(ins) && Different(outs)
        invariant (forall o :: o in ins ==> o !in outs) && forall o :: o in ins || o in outs ==> fresh(o)
        invariant forall o :: o in ins || o in outs ==> o.Contents() == {}
      {
        var i := new BitSet();
        var o := new BitSet();
        ins, outs := ins + [i], outs + [o];
      }
      succs, preds, use, def, varCount := g, back, uses, defs, count;
      in_, out_ := ins, outs;
      var spareOut := new BitSet();
      var spareIn := new BitSet();
      newOut, newIn := spareOut, spareIn;
    }

    /** Room for every variable; what the sets hold stays. */
    method ResizeAll()
      requires Shape() && forall b :: 0 <= b < |succs| ==> In()[b] == Out()[b] == {}
      modifies Repr()
      ensures Sized() && forall b :: 0 <= b < |succs| ==> In()[b] == Out()[b] == {}
    {
      hide BitSet.Contents;
      forall c | 0 <= c < |succs|
        ensures in_[c].Contents() == out_[c].Contents() == {}
      {
        assert In()[c] == Out()[c] == {};
      }
      for b := 0 to |succs|
        invariant forall c :: 0 <= c < |succs| ==> in_[c].Contents() == out_[c].Contents() == {}
        invariant forall c :: 0 <= c < b ==> |in_[c].bits| == |out_[c].bits| == WordsFor(varCount)
      {
        in_[b].Resize(varCount);
        out_[b].Resize(varCount);
      }
      newOut.Resize(varCount);
      newIn.Resize(varCount);
    }

    /** Depth-first postorder from `u`. */
    method Postorder(u: nat, visited0: seq<bool>, order0: seq<nat>, ghost root: nat)
        returns (visited: seq<bool>, order: seq<nat>)
      requires Shape() && u < |succs| && MarkedFrom(succs, root, visited0) && !visited0[u] && Reachable(succs, root, u)
      ensures MarkedFrom(succs, root, visited) && visited[u]
      ensures forall v :: 0 <= v < |succs| && visited0[v] ==> visited[v]
      ensures |order0| <= |order| && order[..|order0|] == order0
      ensures forall k :: |order0| <= k < |order| ==> order[k] < |succs| && visited[order[k]]
      ensures forall v :: 0 <= v < |succs| && visited[v] && !visited0[v] ==> v in order[|order0|..]
      ensures forall v, w :: 0 <= v < |succs| && visited[v] && !visited0[v] && w in succs[v] ==> visited[w]
      decreases Unmarked(visited0)
    {
      visited, order := visited0[u := true], order0;
      assert u in Unmarked(visited0);
      var j := 0;
      while j < |succs[u]|
        invariant j <= |succs[u]|
        invariant MarkedFrom(succs, root, visited) && visited[u]
        invariant forall v :: 0 <= v < |succs| && visited0[v] ==> visited[v]
        invariant |order0| <= |order| && order[..|order0|] == order0
        invariant forall k :: |order0| <= k < |order| ==> order[k] < |succs| && visited[order[k]]
        invariant forall v :: 0 <= v < |succs| && visited[v] && !visited0[v] ==> v == u || v in order[|order0|..]
        invariant forall v, w :: 0 <= v < |succs| && v != u && visited[v] && !visited0[v] && w in succs[v] ==>
            visited[w]
        invariant forall i :: 0 <= i < j ==> visited[succs[u][i]]
      {
        var v := succs[u][j];
        if !visited[v] {
          ghost var p :| PathFromTo(succs, root, u, p);
          ExtendPath(succs, root, u, v, p);
          ghost var order1 := order;
          visited, order := Postorder(v, visited, order, root);
          assert order[|order0|..] == order1[|order0|..] + order[|order1|..];
          assert order[..|order0|] == order1[..|order0|];
        }
        j := j + 1;
      }
      ghost var order2 := order;
      order := order + [u];
      assert order[|order0|..] == order2[|order0|..] + [u];
    }

    /** What the equations give for OUT and IN of `u`. */
    method Recompute(u: nat)
      requires Shape() && Sized() && u < |succs|
      modifies newOut, newIn
      ensures Sized() && In() == old(In()) && Out() == old(Out())
      ensures newOut.Contents() == UnionOver(In(), succs[u])
      ensures newIn.Contents() == use[u] + (newOut.Contents() - def[u])
    {
      hide BitSet.Contents, UnionOver;
      newOut.Clear();
      for k := 0 to |succs[u]|
        invariant Sized() && In() == old(In()) && Out() == old(Out())
        invariant newOut.Contents() == UnionOver(In(), succs[u][..k])
      {
        UnionOverSnoc(In(), succs[u][..k], succs[u][k]);
        assert succs[u][..k + 1] == succs[u][..k] + [succs[u][k]];
        ContentsFit(in_[succs[u][k]]);
        newOut.Union(in_[succs[u][k]]);
      }
      assert succs[u][..|succs[u]|] == succs[u];
      newIn.Copy(newOut);
      ClearAll(newIn, def[u]);
      SetAll(newIn, use[u]);
    }

    /** Clear the bits of a set of variables. */
    method ClearAll(bits: BitSet, vars: set<VarId>)
      requires |bits.bits| == WordsFor(varCount) && forall x :: x in vars ==> x < varCount
      modifies bits
      ensures |bits.bits| == WordsFor(varCount) && bits.Contents() == old(bits.Contents()) - vars
    {
      hide BitSet.Contents;
      var rest := vars;
      while rest != {}
        invariant rest <= vars && |bits.bits| == WordsFor(varCount)
        invariant bits.Contents() == old(bits.Contents()) - (vars - rest)
        decreases |rest|
      {
        var x :| x in rest;
        InWords(x, varCount);
        bits.ClearBit(x);
        rest := rest - {x};
      }
    }

    /** Set the bits of a set of variables. */
    method SetAll(bits: BitSet, vars: set<VarId>)
      requires |bits.bits| == WordsFor(varCount) && forall x :: x in vars ==> x < varCount
      modifies bits
      ensures |bits.bits| == WordsFor(varCount) && bits.Contents() == old(bits.Contents()) + vars
    {
      hide BitSet.Contents;
      var rest := vars;
      while rest != {}
        invariant rest <= vars && |bits.bits| == WordsFor(varCount)
        invariant bits.Contents() == old(bits.Contents()) + (vars - rest)
        decreases |rest|
      {
        var x :| x in rest;
        InWords(x, varCount);
        bits.Set(x);
        rest := rest - {x};
      }
    }

    /** Push those of `vs` that are not queued yet. */
    static method Enqueue(vs: seq<nat>, worklist0: seq<nat>, inWorklist0: seq<bool>)
      returns (worklist: seq<nat>, inWorklist: seq<bool>)
      requires Flags(worklist0, inWorklist0) && forall v :: v in vs ==> v < |inWorklist0|
      ensures Flags(worklist, inWorklist) && |inWorklist| == |inWorklist0|
      ensures forall b :: 0 <= b < |inWorklist| ==> (inWorklist[b] <==> inWorklist0[b] || b in vs)
    {
      worklist, inWorklist := worklist0, inWorklist0;
      for k := 0 to |vs|
        invariant Flags(worklist, inWorklist) && |inWorklist| == |inWorklist0|
        invariant forall b :: 0 <= b < |inWorklist| ==> (inWorklist[b] <==> inWorklist0[b] || b in vs[..k])
      {
        assert vs[k] in vs;
        assert forall b :: b in vs[..k + 1] <==> b in vs[..k] || b == vs[k];
        if !inWorklist[vs[k]] {
          EnqueueOne(worklist, inWorklist, vs[k]);
          worklist := worklist + [vs[k]];
          inWorklist := inWorklist[vs[k] := true];
        }
      }
      assert vs[..|vs|] == vs;
    }

    /** Recompute OUT and IN of `u`; when they change, its predecessors are queued. */
    method Process(u: nat, worklist0: seq<nat>, inWorklist0: seq<bool>)
        returns (worklist: seq<nat>, inWorklist: seq<bool>)
      requires Shape() && Sized() && u < |succs| == |inWorklist0| && Flags(worklist0, inWorklist0)
      requires Justified(succs, use, def, In(), Out())
      modifies Repr()
      ensures Sized() && Flags(worklist, inWorklist) && |inWorklist| == |succs|
      ensures Justified(succs, use, def, In(), Out())
      ensures Rounded(succs, use, def, old(In()), old(Out()), In(), Out(), u, inWorklist0, inWorklist)
      ensures In() == old(In()) && Out() == old(Out()) ==> worklist == worklist0
    {
      hide Justified, UnionOver, Balanced, Flags, BitSet.Contents, Rounded, SetsOf;
      worklist, inWorklist := worklist0, inWorklist0;
      ghost var ins, outs := In(), Out();
      Recompute(u);
      ghost var o, i := newOut.Contents(), newIn.Contents();
      RoundJustified(succs, use, def, ins, outs, u);
      var sameOut := newOut.Equals(out_[u]);
      var sameIn := newIn.Equals(in_[u]);
      if !sameOut || !sameIn {
        worklist, inWorklist := Enqueue(preds[u], worklist, inWorklist);
        RoundSettles(succs, preds, use, def, ins, outs, u, inWorklist0, inWorklist);
        StoreRound(u);
      } else {
        RoundSettles(succs, preds, use, def, ins, outs, u, inWorklist0, inWorklist);
        assert ins[u := i] == ins && outs[u := o] == outs;
      }
    }

    /** The new sets become OUT and IN of `u`. */
    method StoreRound(u: nat)
      requires Shape() && Sized() && u < |succs|
      modifies in_[u], out_[u]
      ensures Sized() && In() == old(In())[u := old(newIn.Contents())]
      ensures Out() == old(Out())[u := old(newOut.Contents())]
    {
      hide BitSet.Contents;
      ghost var ins, outs, i, o := In(), Out(), newIn.Contents(), newOut.Contents();
      out_[u].Copy(newOut);
      in_[u].Copy(newIn);
      forall b | 0 <= b < |succs|
        ensures In()[b] == ins[u := i][b] && Out()[b] == outs[u := o][b]
      {
        assert b != u ==> in_[b] != in_[u] && out_[b] != out_[u];
      }
    }

    /** Each block of the postorder in turn. */
    method FirstPass(order: seq<nat>) returns (worklist: seq<nat>, inWorklist: seq<bool>)
      requires Shape() && Sized() && (forall b :: 0 <= b < |succs| ==> In()[b] == Out()[b] == {})
      requires forall k :: 0 <= k < |order| ==> order[k] < |succs|
      modifies Repr()
      ensures Sized() && |inWorklist| == |succs| && Flags(worklist, inWorklist)
      ensures Justified(succs, use, def, In(), Out())
      ensures forall k :: 0 <= k < |order| ==> Settled(succs, use, def, In(), Out(), inWorklist, order[k])
    {
      hide Balanced, UnionOver, LiveIn, Flags, BitSet.Contents, Settled, Rounded, Justified, SetsOf, Repr;
      worklist, inWorklist := [], seq(|succs|, b => false);
      NothingQueued(inWorklist);
      EmptyJustified(succs, use, def, In(), Out());
      ghost var ins, outs := In(), Out();
      for k := 0 to |order|
        invariant Sized() && |inWorklist| == |succs| && Flags(worklist, inWorklist)
        invariant ins == In() && outs == Out() && Justified(succs, use, def, ins, outs)
        invariant forall i :: 0 <= i < k ==> Settled(succs, use, def, ins, outs, inWorklist, order[i])
      {
        ghost var before := inWorklist;
        worklist, inWorklist := Process(order[k], worklist, inWorklist);
        forall i | 0 <= i <= k
          ensures Settled(succs, use, def, In(), Out(), inWorklist, order[i])
        {
          StaysSettled(succs, use, def, ins, outs, In(), Out(), order[k], before, inWorklist, order[i]);
        }
        ins, outs := In(), Out();
      }
      forall k | 0 <= k < |order|
        ensures Settled(succs, use, def, In(), Out(), inWorklist, order[k])
      {
        assert Settled(succs, use, def, ins, outs, inWorklist, order[k]);
      }
    }

    /** Process queued blocks until none is left. */
    method Drain(worklist0: seq<nat>, inWorklist0: seq<bool>)
      requires Shape() && Sized() && |inWorklist0| == |succs| && Flags(worklist0, inWorklist0)
      requires Justified(succs, use, def, In(), Out())
      requires forall b :: 0 <= b < |succs| && Reachable(succs, 0, b) ==>
          Settled(succs, use, def, In(), Out(), inWorklist0, b)
      modifies Repr()
      ensures Sized() && Justified(succs, use, def, In(), Out())
      ensures forall b :: 0 <= b < |succs| && Reachable(succs, 0, b) ==> Balanced(succs, use, def, In(), Out(), b)
    {
      hide Balanced, UnionOver, LiveIn, Reachable, Missing, Flags, BitSet.Contents, Justified;
      var worklist, inWorklist := worklist0, inWorklist0;
      ghost var ins, outs := In(), Out();
      while worklist != []
        invariant Sized() && |inWorklist| == |succs| && Flags(worklist, inWorklist)
        invariant ins == In() && outs == Out() && Justified(succs, use, def, ins, outs)
        invariant forall b :: 0 <= b < |succs| && Reachable(succs, 0, b) ==>
            Settled(succs, use, def, ins, outs, inWorklist, b)
        decreases Missing(ins, use), Missing(outs, use), |worklist|
      {
        Dequeue(worklist, inWorklist);
        var u := worklist[0];
        worklist := worklist[1..];
        inWorklist := inWorklist[u := false];
        worklist, inWorklist := Process(u, worklist, inWorklist);
        RoundProgress(succs, use, def, ins, outs, In(), Out());
        ins, outs := In(), Out();
      }
      QueueEmpty(inWorklist);
    }

    method CalcInOut()
      requires Shape() && forall b :: 0 <= b < |succs| ==> In()[b] == Out()[b] == {}
      modifies Repr()
      ensures Sized()
      ensures forall b, x :: 0 <= b < |succs| && x in In()[b] ==> LiveIn(succs, use, def, b, x)
      ensures forall b :: 0 <= b < |succs| && Reachable(succs, 0, b) ==> Balanced(succs, use, def, In(), Out(), b)
      ensures forall b, x :: 0 <= b < |succs| && Reachable(succs, 0, b) ==>
          (x in In()[b] <==> LiveIn(succs, use, def, b, x))
    {
      hide Balanced, UnionOver, LiveIn, Reachable, Flags, BitSet.Contents, Settled;
      ResizeAll();
      RootReached(succs);
      var visited, order := Postorder(0, seq(|succs|, b => false), [], 0);
      assert order[0..] == order;
      AllMarked(succs, visited);
      var worklist, inWorklist := FirstPass(order);
      forall b | 0 <= b < |succs| && Reachable(succs, 0, b)
        ensures Settled(succs, use, def, In(), Out(), inWorklist, b)
      {
        assert visited[b] && b in order;
      }
      Drain(worklist, inWorklist);
      RecordedIsLive(succs, use, def, In(), Out());
    }

    /** The variables of each of the bit sets. */
    static method Listed(objects: seq<BitSet>) returns (sets: seq<set<VarId>>)
      ensures sets == SetsOf(objects)
    {
      hide BitSet.Contents;
      sets := [];
      for b := 0 to |objects|
        invariant |sets| == b && forall c :: 0 <= c < b ==> sets[c] == objects[c].Contents()
      {
        var visited := objects[b].ForEach();
        sets := sets + [set x | x in visited];
      }
    }
  }

  /** The worklist holds exactly the flagged blocks, each once. */
  ghost predicate Flags(worklist: seq<nat>, inWorklist: seq<bool>) {
    && (forall k :: 0 <= k < |worklist| ==> worklist[k] < |inWorklist| && inWorklist[worklist[k]])
    && (forall b :: 0 <= b < |inWorklist| && inWorklist[b] ==> b in worklist)
    && (forall i, k :: 0 <= i < k < |worklist| ==> worklist[i] != worklist[k])
  }

  lemma EnqueueOne(worklist: seq<nat>, inWorklist: seq<bool>, v: nat)
    requires Flags(worklist, inWorklist) && v < |inWorklist| && !inWorklist[v]
    ensures Flags(worklist + [v], inWorklist[v := true])
  {
    assert (worklist + [v])[|worklist|] == v;
    assert forall b :: b in worklist ==> b in worklist + [v];
  }

  lemma Dequeue(worklist: seq<nat>, inWorklist: seq<bool>)
    requires Flags(worklist, inWorklist) && worklist != []
    ensures worklist[0] < |inWorklist| && Flags(worklist[1..], inWorklist[worklist[0] := false])
  {
    var u := worklist[0];
    forall b | 0 <= b < |inWorklist| && inWorklist[b] && b != u
      ensures b in worklist[1..]
    {
    }
  }

  lemma NothingQueued(inWorklist: seq<bool>)
    requires forall b :: 0 <= b < |inWorklist| ==> !inWorklist[b]
    ensures Flags([], inWorklist)
  {
  }

  lemma EmptyJustified(g: Graph, use: seq<set<VarId>>, def: seq<set<VarId>>, ins: seq<set<VarId>>,
      outs: seq<set<VarId>>)
    requires |g| == |use| == |def| == |ins| == |outs| && WellFormed(g)
    requires forall b :: 0 <= b < |g| ==> ins[b] == outs[b] == {}
    ensures Justified(g, use, def, ins, outs)
  {
  }

  lemma QueueEmpty(inWorklist: seq<bool>)
    requires Flags([], inWorklist)
    ensures forall b :: 0 <= b < |inWorklist| ==> !inWorklist[b]
  {
  }

  /** Block `b` is queued, or its equations hold. */
  ghost predicate Settled(g: Graph, use: seq<set<VarId>>, def: seq<set<VarId>>, ins: seq<set<VarId>>,
      outs: seq<set<VarId>>, inWorklist: seq<bool>, b: nat) {
    b < |inWorklist| && (inWorklist[b] || Balanced(g, use, def, ins, outs, b))
  }

  /** The effect of one round at `u`: sets only grow, and no settled block becomes unsettled. */
  ghost predicate Rounded(g: Graph, use: seq<set<VarId>>, def: seq<set<VarId>>, ins: seq<set<VarId>>,
      outs: seq<set<VarId>>,
                          ins': seq<set<VarId>>, outs': seq<set<VarId>>, u: nat, flags: seq<bool>, flags': seq<bool>) {
    && |ins| == |outs| == |ins'| == |outs'| == |g| == |flags| == |flags'| && u < |g|
    && (forall b :: 0 <= b < |g| ==> ins[b] <= ins'[b] && outs[b] <= outs'[b])
    && (forall b :: 0 <= b < |g| && (b == u || Settled(g, use, def, ins, outs, flags, b)) ==>
      Settled(g, use, def, ins', outs', flags', b))
  }

  lemma StaysSettled(g: Graph, use: seq<set<VarId>>, def: seq<set<VarId>>, ins: seq<set<VarId>>, outs: seq<set<VarId>>,
      ins': seq<set<VarId>>, outs': seq<set<VarId>>, u: nat, flags: seq<bool>, flags': seq<bool>, b: nat)
    requires Rounded(g, use, def, ins, outs, ins', outs', u, flags, flags') && b < |g|
    requires b == u || Settled(g, use, def, ins, outs, flags, b)
    ensures Settled(g, use, def, ins', outs', flags', b)
  {
  }

  lemma RoundSettles(g: Graph, preds: Graph, use: seq<set<VarId>>, def: seq<set<VarId>>, ins: seq<set<VarId>>,
      outs: seq<set<VarId>>, u: nat, flags: seq<bool>, flags': seq<bool>)
    requires Converses(g, preds) && u < |g| == |flags| == |flags'| && |use| == |def| == |ins| == |outs| == |g|
    requires Justified(g, use, def, ins, outs)
    requires forall b :: 0 <= b < |g| && flags[b] ==> flags'[b]
    requires use[u] + (UnionOver(ins, g[u]) - def[u]) != ins[u] ==> forall b :: 0 <= b < |g| && b in preds[u] ==>
        flags'[b]
    ensures var o := UnionOver(ins, g[u]);
      Rounded(g, use, def, ins, outs, ins[u := use[u] + (o - def[u])], outs[u := o], u, flags, flags')
  {
    var o := UnionOver(ins, g[u]);
    var i := use[u] + (o - def[u]);
    hide Balanced, UnionOver, Converses;
    RoundJustified(g, use, def, ins, outs, u);
    hide Justified;
    forall b | 0 <= b < |g| && (b == u || Settled(g, use, def, ins, outs, flags, b))
      ensures Settled(g, use, def, ins[u := i], outs[u := o], flags', b)
    {
      if b == u || Balanced(g, use, def, ins, outs, b) {
        RoundBalances(g, preds, use, def, ins, outs, u, b);
      }
    }
  }

  /** Facts still missing from the recorded sets, the termination measure of the worklist. */
  ghost function Missing(sets: seq<set<VarId>>, use: seq<set<VarId>>): (s: set<(nat, VarId)>) {
    set b, c, x | 0 <= b < |sets| && 0 <= c < |use| && x in use[c] && x !in sets[b] :: (b, x)
  }

  lemma MissingShrinks(sets: seq<set<VarId>>, sets': seq<set<VarId>>, use: seq<set<VarId>>)
    requires |sets| == |sets'| && forall b :: 0 <= b < |sets| ==> sets[b] <= sets'[b]
    requires forall b, x :: 0 <= b < |sets'| && x in sets'[b] ==> exists c :: 0 <= c < |use| && x in use[c]
    ensures if sets == sets' then Missing(sets, use) == Missing(sets', use)
        else Missing(sets', use) < Missing(sets, use)
  {
    if sets != sets' {
      var b :| 0 <= b < |sets| && sets[b] != sets'[b];
      var x :| x in sets'[b] && x !in sets[b];
      assert (b, x) in Missing(sets, use);
      assert (b, x) !in Missing(sets', use);
    }
  }

  lemma RoundProgress(g: Graph, use: seq<set<VarId>>, def: seq<set<VarId>>, ins: seq<set<VarId>>, outs: seq<set<VarId>>,
                      ins': seq<set<VarId>>, outs': seq<set<VarId>>)
    requires Justified(g, use, def, ins', outs') && |ins| == |outs| == |g|
    requires forall b :: 0 <= b < |g| ==> ins[b] <= ins'[b] && outs[b] <= outs'[b]
    ensures if ins == ins' then Missing(ins, use) == Missing(ins', use) else Missing(ins', use) < Missing(ins, use)
    ensures if outs == outs' then Missing(outs, use) == Missing(outs', use)
        else Missing(outs', use) < Missing(outs, use)
  {
    forall b, x | 0 <= b < |g| && x in ins'[b]
      ensures exists c :: 0 <= c < |use| && x in use[c]
    {
      var p :| LiveAlong(g, use, def, b, x, p);
      assert x in use[p[|p| - 1]];
    }
    MissingShrinks(ins, ins', use);
    MissingShrinks(outs, outs', use);
  }

  lemma RootReached(g: Graph)
    requires 0 < |g|
    ensures Reachable(g, 0, 0)
  {
    SinglePath(g, 0);
  }

  /** Where the equations hold at every reachable block, the recorded sets are exactly the live ones. */
  lemma RecordedIsLive(g: Graph, use: seq<set<VarId>>, def: seq<set<VarId>>, ins: seq<set<VarId>>,
      outs: seq<set<VarId>>)
    requires Justified(g, use, def, ins, outs) && 0 < |g|
    requires forall b :: 0 <= b < |g| && Reachable(g, 0, b) ==> Balanced(g, use, def, ins, outs, b)
    ensures forall b, x :: 0 <= b < |g| && Reachable(g, 0, b) ==> (x in ins[b] <==> LiveIn(g, use, def, b, x))
  {
    forall b, x | 0 <= b < |g| && Reachable(g, 0, b) && LiveIn(g, use, def, b, x)
      ensures x in ins[b]
    {
      var p :| LiveAlong(g, use, def, b, x, p);
      var q :| PathFromTo(g, 0, b, q);
      forall i | 0 <= i < |p|
        ensures Reachable(g, 0, p[i])
      {
        SubPath(g, p, 0, i);
        JoinPaths(g, 0, b, p[i], q, p[0..i + 1]);
      }
      LiveIsRecorded(g, use, def, ins, outs, x, p);
    }
  }

  lemma {:induction false} UnionOverSnoc(ins: seq<set<VarId>>, vs: seq<nat>, v: nat)
    requires v < |ins| && forall w :: w in vs ==> w < |ins|
    ensures UnionOver(ins, vs + [v]) == UnionOver(ins, vs) + ins[v]
  {
    assert v in vs + [v] && forall w :: w in vs + [v] <==> w in vs || w == v;
  }

  /** A marked set that contains the root and is closed under successors is the reachable set. */
  lemma AllMarked(g: Graph, visited: seq<bool>)
    requires WellFormed(g) && 0 < |g| == |visited| && visited[0]
    requires forall v, w :: 0 <= v < |g| && visited[v] && w in g[v] ==> visited[w]
    ensures forall v :: 0 <= v < |g| && Reachable(g, 0, v) ==> visited[v]
  {
    forall v | 0 <= v < |g| && Reachable(g, 0, v)
      ensures visited[v]
    {
      var p :| PathFromTo(g, 0, v, p);
      MarkedAlong(g, visited, p, |p| - 1);
    }
  }

  lemma {:induction false} MarkedAlong(g: Graph, visited: seq<bool>, p: seq<nat>, k: nat)
    requires WellFormed(g) && |g| == |visited| && IsPath(g, p) && k < |p| && visited[p[0]]
    requires forall v, w :: 0 <= v < |g| && visited[v] && w in g[v] ==> visited[w]
    ensures visited[p[k]]
  {
    if k > 0 {
      MarkedAlong(g, visited, p, k - 1);
      assert Edge(g, p[k - 1], p[k]);
    }
  }
}
