/** SSA form: in the blocks that a path leads to, names have one definition and uses are dominated by it. */
module SsaProperties {
  import opened Graphs
  import opened IR

  /** The `s`-th definition of the block, the phis being the first, is one of `x`. */
  predicate ResultAt(blk: Block, s: nat, x: Name) {
    if s < |blk.phis| then blk.phis[s].result == x
    else s - |blk.phis| < |blk.body| && Target(blk.body[s - |blk.phis|]) == Some(x)
  }

  ghost predicate InRun(r: Func, b: nat) {
    b < |r| && Reachable(Flow(r), 0, b)
  }

  /** No name has two definitions in the blocks that a path leads to, and no parameter has any. */
  ghost predicate UniqueResults(r: Func, params: iset<Name>) {
    && (forall b: nat, d: nat, s: nat, t: nat, x ::
      InRun(r, b) && InRun(r, d) && ResultAt(r[b], s, x) && ResultAt(r[d], t, x) ==>
      b == d && s == t)
    && (forall b: nat, s: nat, x :: InRun(r, b) && ResultAt(r[b], s, x) ==> x !in params)
  }

  /** A phi of the block, or one of its first `n` instructions, defines `x`. */
  ghost predicate DefinedBefore(blk: Block, x: Name, n: nat) {
    exists s: nat :: s < |blk.phis| + n && ResultAt(blk, s, x)
  }

  /** The operand of instruction `n` of block `b` is a constant, a parameter, defined earlier in the block, or defined
   * in a block that strictly dominates `b`. */
  ghost predicate Dominated(r: Func, params: iset<Name>, o: Operand, b: nat, n: nat) {
    b < |r| && (o.Var? ==>
      o.name in params || DefinedBefore(r[b], o.name, n) || exists d: nat :: DefinedAbove(r, o.name, d, b))
  }

  ghost predicate DefinedAbove(r: Func, x: Name, d: nat, b: nat) {
    d < |r| && d != b && Dominates(Flow(r), 0, d, b) && DefinedBefore(r[d], x, |r[d].body|)
  }

  /** The operand of a phi comes from a predecessor, at whose end it is available. */
  ghost predicate PhiUseDominated(r: Func, params: iset<Name>, arg: (Operand, nat), b: nat) {
    && InRun(r, arg.1) && b in Successors(r[arg.1].term)
    && Dominated(r, params, arg.0, arg.1, |r[arg.1].body|)
  }

  ghost predicate UsesDominated(r: Func, params: iset<Name>) {
    && (forall b: nat, k: nat, j: nat :: InRun(r, b) && k < |r[b].body| && j < |Uses(r[b].body[k])| ==>
      Dominated(r, params, Uses(r[b].body[k])[j], b, k))
    && (forall b: nat, j: nat :: InRun(r, b) && j < |TermUses(r[b].term)| ==>
      Dominated(r, params, TermUses(r[b].term)[j], b, |r[b].body|))
    && (forall b: nat, i: nat, j: nat :: InRun(r, b) && i < |r[b].phis| && j < |r[b].phis[i].args| ==>
      PhiUseDominated(r, params, r[b].phis[i].args[j], b))
  }

  /** An operand of the phi comes from `u`. */
  ghost predicate HasArg(phi: Phi, u: nat) {
    exists j: nat :: j < |phi.args| && phi.args[j].1 == u
  }

  /** Every phi has an operand for each predecessor that a path leads to, and the entry has no phis. */
  ghost predicate PhisComplete(r: Func) {
    && (|r| > 0 ==> r[0].phis == [])
    && forall b: nat, i: nat, u: nat :: InRun(r, b) && i < |r[b].phis| && InRun(r, u) && b in Successors(r[u].term) ==>
        HasArg(r[b].phis[i], u)
  }
}
