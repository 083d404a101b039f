/** Programs whose values may have several definitions, and what it means for a program in SSA form to do
    the same (the promise of crates/deko-nak/src/repair_ssa.rs). */
module SsaRuns {

  type Ssa = nat

  datatype Instr = Instr(uses: seq<Ssa>, defs: seq<Ssa>)

  type Block = seq<Instr>

  /** A function: its blocks, and the blocks before and after each. */
  datatype Func = Func(blocks: seq<Block>, pred: seq<seq<nat>>, succ: seq<seq<nat>>)
  {
    ghost predicate Valid() {
      && blocks != [] && |pred| == |succ| == |blocks|
      && (forall b, p {:trigger p in pred[b]} :: 0 <= b < |blocks| && p in pred[b] ==> p < |blocks| && b in succ[p])
      && (forall b, s {:trigger s in succ[b]} :: 0 <= b < |blocks| && s in succ[b] ==> s < |blocks| && b in pred[s])
      && (forall b :: 0 < b < |blocks| ==> pred[b] != [] && pred[b][0] < b)
      && (forall b, p {:trigger p in pred[b]} :: 0 <= b < |blocks| && p in pred[b] && |pred[b]| > 1 ==> |succ[p]| == 1)
    }

    ghost predicate IsPath(path: seq<nat>) {
      && path != [] && path[0] == 0 && |pred| == |blocks|
      && (forall i :: 0 <= i < |path| ==> path[i] < |blocks|)
      && (forall i :: 0 <= i < |path| - 1 ==> IsEdge(path[i], path[i + 1]))
    }

    ghost predicate IsEdge(p: nat, b: nat) {
      b < |pred| && p in pred[b]
    }
  }

  /** A phi: for every block before it the value it takes from there. */
  datatype Phi = Phi(id: nat, orig: Ssa, dst: Ssa, srcs: map<nat, Ssa>)

  // ----- Runs -----

  type Env<!V> = Ssa -> V

  /** What the instruction at a place does: from the rest of the machine and its operands, what becomes of
      the machine and what it defines. */
  type Meaning<!V, !W> = (nat, nat, W, seq<V>) -> (W, nat -> V)

  ghost function Operands<V>(uses: seq<Ssa>, e: Env<V>): seq<V> {
    seq(|uses|, i requires 0 <= i < |uses| => e(uses[i]))
  }

  ghost function Set<V>(e: Env<V>, x: Ssa, v: V): Env<V> {
    (y: Ssa) => if y == x then v else e(y)
  }

  /** The first `n` definitions of an instruction take their values. */
  ghost function Assign<V>(e: Env<V>, defs: seq<Ssa>, results: nat -> V, n: nat): Env<V>
    requires n <= |defs|
  {
    if n == 0 then e else Set(Assign(e, defs, results, n - 1), defs[n - 1], results(n - 1))
  }

  /** The first `n` instructions of block `b`. */
  ghost function RunBlock<V, W>(m: Meaning<V, W>, b: nat, code: Block, n: nat, e: Env<V>, w: W): (Env<V>, W)
    requires n <= |code|
  {
    if n == 0 then (e, w) else
      var (e1, w1) := RunBlock(m, b, code, n - 1, e, w);
      var (w2, results) := m(b, n - 1, w1, Operands(code[n - 1].uses, e1));
      (Assign(e1, code[n - 1].defs, results, |code[n - 1].defs|), w2)
  }

  ghost function Run<V, W>(m: Meaning<V, W>, f: Func, path: seq<nat>, e: Env<V>, w: W): (Env<V>, W)
    requires f.IsPath(path)
  {
    var b := path[|path| - 1];
    if |path| == 1 then RunBlock(m, b, f.blocks[b], |f.blocks[b]|, e, w)
    else
      PrefixIsPath(f, path);
      var (e1, w1) := Run(m, f, path[..|path| - 1], e, w);
      RunBlock(m, b, f.blocks[b], |f.blocks[b]|, e1, w1)
  }

  lemma PrefixIsPath(f: Func, path: seq<nat>)
    requires f.IsPath(path) && |path| > 1
    ensures f.IsPath(path[..|path| - 1]) && f.IsEdge(path[|path| - 2], path[|path| - 1])
  {
    var prefix := path[..|path| - 1];
    forall i | 0 <= i < |prefix| - 1
      ensures f.IsEdge(prefix[i], prefix[i + 1])
    {
      assert f.IsEdge(path[i], path[i + 1]);
    }
  }

  // ----- The program in SSA form -----

  /** What a block has become: the phis it starts with, its instructions, and what it hands to the phis of
      the block behind it. */
  datatype NewBlock = NewBlock(phiDsts: seq<(nat, Ssa)>, code: Block, phiSrcs: seq<(nat, Ssa)>)

  /** The value that a block hands to a phi. */
  function Lookup(srcs: seq<(nat, Ssa)>, id: nat): (r: Ssa)
    ensures forall i :: 0 <= i < |srcs| && srcs[i].0 == id && (forall j :: 0 <= j < i ==> srcs[j].0 != id) ==> r == srcs[i].1
  {
    if srcs == [] then 0 else if srcs[0].0 == id then srcs[0].1 else Lookup(srcs[1..], id)
  }

  /** All phis of a block are taken at once, with the values at the end of the block before. */
  ghost function TakePhis<V>(phiDsts: seq<(nat, Ssa)>, phiSrcs: seq<(nat, Ssa)>, e: Env<V>): Env<V> {
    (x: Ssa) => if IsPhi(phiDsts, x) then e(Lookup(phiSrcs, PhiId(phiDsts, x))) else e(x)
  }

  ghost predicate IsPhi(phiDsts: seq<(nat, Ssa)>, x: Ssa) {
    exists i :: 0 <= i < |phiDsts| && phiDsts[i].1 == x
  }

  ghost function PhiId(phiDsts: seq<(nat, Ssa)>, x: Ssa): (id: nat)
    requires IsPhi(phiDsts, x)
    ensures exists i :: 0 <= i < |phiDsts| && phiDsts[i] == (id, x)
  {
    var i :| 0 <= i < |phiDsts| && phiDsts[i].1 == x;
    phiDsts[i].0
  }

  ghost function RunNew<V, W>(m: Meaning<V, W>, f: Func, blocks: seq<NewBlock>, path: seq<nat>, e: Env<V>, w: W): (Env<V>, W)
    requires f.IsPath(path) && |blocks| == |f.blocks|
  {
    var b := path[|path| - 1];
    if |path| == 1 then RunBlock(m, b, blocks[b].code, |blocks[b].code|, e, w)
    else
      PrefixIsPath(f, path);
      var (e1, w1) := RunNew(m, f, blocks, path[..|path| - 1], e, w);
      RunBlock(m, b, blocks[b].code, |blocks[b].code|, TakePhis(blocks[b].phiDsts, blocks[path[|path| - 2]].phiSrcs, e1), w1)
  }

  // ----- Which version of a value is current -----

  /** The versions after the first `n` definitions of an instruction; values in `multi` get new names. */
  function DefVersions(multi: set<Ssa>, v: map<Ssa, Ssa>, was: seq<Ssa>, now: seq<Ssa>, n: nat): map<Ssa, Ssa>
    requires n <= |was| && |now| == |was|
  {
    if n == 0 then v
    else
      var before := DefVersions(multi, v, was, now, n - 1);
      if was[n - 1] in multi then before[was[n - 1] := now[n - 1]] else before
  }

  /** The versions after the first `n` instructions of a block. */
  function Versions(multi: set<Ssa>, entry: map<Ssa, Ssa>, was: Block, now: Block, n: nat): map<Ssa, Ssa>
    requires n <= |was| && n <= |now| && forall k :: 0 <= k < n ==> |was[k].defs| == |now[k].defs|
  {
    if n == 0 then entry
    else DefVersions(multi, Versions(multi, entry, was, now, n - 1), was[n - 1].defs, now[n - 1].defs, |was[n - 1].defs|)
  }

  ghost predicate UseOk(multi: set<Ssa>, v: map<Ssa, Ssa>, was: Ssa, now: Ssa) {
    if was in multi then was in v && v[was] == now else now == was
  }

  ghost predicate DefOk(multi: set<Ssa>, orig: map<Ssa, Ssa>, was: Ssa, now: Ssa) {
    if was in multi then now in orig && orig[now] == was else now == was
  }

  ghost predicate InstrOk(multi: set<Ssa>, orig: map<Ssa, Ssa>, v: map<Ssa, Ssa>, was: Instr, now: Instr) {
    && |now.uses| == |was.uses| && (forall j :: 0 <= j < |was.uses| ==> UseOk(multi, v, was.uses[j], now.uses[j]))
    && |now.defs| == |was.defs| && (forall j :: 0 <= j < |was.defs| ==> DefOk(multi, orig, was.defs[j], now.defs[j]))
  }

  /** The instructions read the current versions and define new ones. */
  ghost predicate BlockOk(multi: set<Ssa>, orig: map<Ssa, Ssa>, entry: map<Ssa, Ssa>, was: Block, now: Block) {
    && |now| <= |was| && (forall k :: 0 <= k < |now| ==> |was[k].defs| == |now[k].defs|)
    && forall k :: 0 <= k < |now| ==> InstrOk(multi, orig, Versions(multi, entry, was, now, k), was[k], now[k])
  }

  /** A map from values to versions of theirs. */
  ghost predicate AreVersions(orig: map<Ssa, Ssa>, v: map<Ssa, Ssa>) {
    forall s :: s in v ==> v[s] in orig && orig[v[s]] == s
  }

  /** All versions that a block hands on have a single origin: a phi takes them from all blocks before, or
      they are the same in all blocks before. */
  ghost predicate Joined(f: Func, phis: seq<Phi>, entry: map<Ssa, Ssa>, ends: seq<map<Ssa, Ssa>>, b: nat, s: Ssa)
    requires s in entry && b < |f.pred|
  {
    && (forall i :: 0 <= i < |phis| && phis[i].orig == s ==> PhiJoins(f, phis[i], ends, b))
    && (forall p :: p in f.pred[b] ==> p < |ends| && s in ends[p] && (ends[p][s] == entry[s] || exists i :: 0 <= i < |phis| && phis[i].orig == s))
  }

  ghost predicate PhiJoins(f: Func, phi: Phi, ends: seq<map<Ssa, Ssa>>, b: nat)
    requires b < |f.pred|
  {
    forall p :: p in f.pred[b] ==> p < |ends| && phi.orig in ends[p] && p in phi.srcs && phi.srcs[p] == ends[p][phi.orig]
  }

  ghost predicate PhisOk(phis: seq<Phi>, entry: map<Ssa, Ssa>) {
    && (forall i :: 0 <= i < |phis| ==> phis[i].orig in entry && entry[phis[i].orig] == phis[i].dst)
    && (forall i, j :: 0 <= i < j < |phis| ==> phis[i].orig != phis[j].orig && phis[i].id != phis[j].id)
  }

  /** The values of the original program and of their versions agree. */
  ghost predicate Agree<V>(multi: set<Ssa>, orig: map<Ssa, Ssa>, v: map<Ssa, Ssa>, e: Env<V>, e': Env<V>) {
    && (forall s :: s in v ==> e'(v[s]) == e(s))
    && (forall x :: x !in multi && x !in orig ==> e'(x) == e(x))
  }

  // ----- One instruction, one block -----

  lemma OperandsAgree<V>(multi: set<Ssa>, orig: map<Ssa, Ssa>, v: map<Ssa, Ssa>, was: Instr, now: Instr, e: Env<V>, e': Env<V>)
    requires Agree(multi, orig, v, e, e') && InstrOk(multi, orig, v, was, now)
    requires forall j :: 0 <= j < |was.uses| ==> was.uses[j] !in orig
    ensures Operands(was.uses, e) == Operands(now.uses, e')
  {
    forall j | 0 <= j < |was.uses|
      ensures e(was.uses[j]) == e'(now.uses[j])
    {
      assert UseOk(multi, v, was.uses[j], now.uses[j]);
    }
  }

  lemma {:induction false} AssignAgrees<V>(multi: set<Ssa>, orig: map<Ssa, Ssa>, v: map<Ssa, Ssa>, was: seq<Ssa>, now: seq<Ssa>, n: nat,
                                           results: nat -> V, e: Env<V>, e': Env<V>)
    requires n <= |was| == |now| && Agree(multi, orig, v, e, e') && AreVersions(orig, v) && v.Keys <= multi
    requires forall j :: 0 <= j < |was| ==> DefOk(multi, orig, was[j], now[j]) && was[j] !in orig
    ensures var v' := DefVersions(multi, v, was, now, n);
            && Agree(multi, orig, v', Assign(e, was, results, n), Assign(e', now, results, n))
            && AreVersions(orig, v') && v'.Keys <= multi
  {
    if n > 0 {
      AssignAgrees(multi, orig, v, was, now, n - 1, results, e, e');
      assert DefOk(multi, orig, was[n - 1], now[n - 1]);
    }
  }

  /** No name of the original program is the name of a version. */
  ghost predicate NamesApart(f: Func, orig: map<Ssa, Ssa>) {
    forall b, k {:trigger f.blocks[b][k]} :: 0 <= b < |f.blocks| && 0 <= k < |f.blocks[b]| ==> InstrApart(f.blocks[b][k], orig)
  }

  ghost predicate InstrApart(instr: Instr, orig: map<Ssa, Ssa>) {
    && (forall j :: 0 <= j < |instr.uses| ==> instr.uses[j] !in orig)
    && (forall j :: 0 <= j < |instr.defs| ==> instr.defs[j] !in orig)
  }

  lemma {:induction false} BlockAgrees<V, W>(m: Meaning<V, W>, multi: set<Ssa>, orig: map<Ssa, Ssa>, entry: map<Ssa, Ssa>, b: nat,
                                             was: Block, now: Block, n: nat, e: Env<V>, e': Env<V>, w: W)
    requires n <= |now| && BlockOk(multi, orig, entry, was, now) && AreVersions(orig, entry) && entry.Keys <= multi
    requires forall k :: 0 <= k < |was| ==> InstrApart(was[k], orig)
    requires Agree(multi, orig, entry, e, e')
    ensures var v := Versions(multi, entry, was, now, n);
            && RunBlock(m, b, was, n, e, w).1 == RunBlock(m, b, now, n, e', w).1
            && Agree(multi, orig, v, RunBlock(m, b, was, n, e, w).0, RunBlock(m, b, now, n, e', w).0)
            && AreVersions(orig, v) && v.Keys <= multi
  {
    hide Agree, AreVersions, InstrOk, Assign, Operands;
    if n > 0 {
      BlockAgrees(m, multi, orig, entry, b, was, now, n - 1, e, e', w);
      var v := Versions(multi, entry, was, now, n - 1);
      var (e1, w1) := RunBlock(m, b, was, n - 1, e, w);
      var (e1', _) := RunBlock(m, b, now, n - 1, e', w);
      assert InstrOk(multi, orig, v, was[n - 1], now[n - 1]);
      assert InstrApart(was[n - 1], orig);
      OperandsAgree(multi, orig, v, was[n - 1], now[n - 1], e1, e1');
      var (_, results) := m(b, n - 1, w1, Operands(was[n - 1].uses, e1));
      DefsOfInstr(multi, orig, v, was[n - 1], now[n - 1]);
      AssignAgrees(multi, orig, v, was[n - 1].defs, now[n - 1].defs, |was[n - 1].defs|, results, e1, e1');
    }
  }

  lemma DefsOfInstr(multi: set<Ssa>, orig: map<Ssa, Ssa>, v: map<Ssa, Ssa>, was: Instr, now: Instr)
    requires InstrOk(multi, orig, v, was, now) && InstrApart(was, orig)
    ensures |now.defs| == |was.defs| && forall j :: 0 <= j < |was.defs| ==> DefOk(multi, orig, was.defs[j], now.defs[j]) && was.defs[j] !in orig
  {
  }

  // ----- Edges -----

  /** What a block hands to the phis behind it. */
  ghost predicate HandsOver(phis: seq<Phi>, p: nat, phiSrcs: seq<(nat, Ssa)>) {
    |phiSrcs| == |phis| && forall i :: 0 <= i < |phis| ==> p in phis[i].srcs && phiSrcs[i] == (phis[i].id, phis[i].srcs[p])
  }

  ghost predicate Receives(phis: seq<Phi>, phiDsts: seq<(nat, Ssa)>) {
    |phiDsts| == |phis| && forall i :: 0 <= i < |phis| ==> phiDsts[i] == (phis[i].id, phis[i].dst)
  }

  /** After the phis the current versions agree with the original values. */
  lemma EdgeAgrees<V>(f: Func, multi: set<Ssa>, orig: map<Ssa, Ssa>, phis: seq<Phi>, entry: map<Ssa, Ssa>, ends: seq<map<Ssa, Ssa>>, p: nat, b: nat,
                      phiDsts: seq<(nat, Ssa)>, phiSrcs: seq<(nat, Ssa)>, e: Env<V>, e': Env<V>)
    requires f.IsEdge(p, b) && p < |ends| && PhisOk(phis, entry) && AreVersions(orig, entry) && entry.Keys <= multi
    requires forall s :: s in entry ==> Joined(f, phis, entry, ends, b, s)
    requires Receives(phis, phiDsts) && (phis == [] || HandsOver(phis, p, phiSrcs))
    requires Agree(multi, orig, ends[p], e, e')
    ensures Agree(multi, orig, entry, e, TakePhis(phiDsts, phiSrcs, e'))
  {
    hide Joined, Agree;
    var e1 := TakePhis(phiDsts, phiSrcs, e');
    forall s | s in entry
      ensures e1(entry[s]) == e(s)
    {
      JoinAgrees(f, multi, orig, phis, entry, ends, p, b, s, phiDsts, phiSrcs, e, e');
    }
    forall x | x !in multi && x !in orig
      ensures e1(x) == e(x)
    {
      forall i | 0 <= i < |phiDsts|
        ensures phiDsts[i].1 != x
      {
        assert phis[i].orig in entry;
      }
      assert !IsPhi(phiDsts, x);
      AgreeOn(multi, orig, ends[p], e, e', x);
    }
    AgreeAll(multi, orig, entry, e, e1);
  }

  lemma AgreeOn<V>(multi: set<Ssa>, orig: map<Ssa, Ssa>, v: map<Ssa, Ssa>, e: Env<V>, e': Env<V>, x: Ssa)
    requires Agree(multi, orig, v, e, e')
    ensures x in v ==> e'(v[x]) == e(x)
    ensures x !in multi && x !in orig ==> e'(x) == e(x)
  {
  }

  lemma AgreeAll<V>(multi: set<Ssa>, orig: map<Ssa, Ssa>, v: map<Ssa, Ssa>, e: Env<V>, e': Env<V>)
    requires forall s :: s in v ==> e'(v[s]) == e(s)
    requires forall x :: x !in multi && x !in orig ==> e'(x) == e(x)
    ensures Agree(multi, orig, v, e, e')
  {
  }

  lemma JoinAgrees<V>(f: Func, multi: set<Ssa>, orig: map<Ssa, Ssa>, phis: seq<Phi>, entry: map<Ssa, Ssa>, ends: seq<map<Ssa, Ssa>>, p: nat, b: nat, s: Ssa,
                      phiDsts: seq<(nat, Ssa)>, phiSrcs: seq<(nat, Ssa)>, e: Env<V>, e': Env<V>)
    requires f.IsEdge(p, b) && p < |ends| && PhisOk(phis, entry) && AreVersions(orig, entry)
    requires s in entry && Joined(f, phis, entry, ends, b, s)
    requires Receives(phis, phiDsts) && (phis == [] || HandsOver(phis, p, phiSrcs))
    requires Agree(multi, orig, ends[p], e, e')
    ensures TakePhis(phiDsts, phiSrcs, e')(entry[s]) == e(s)
  {
    hide Agree;
    assert s in ends[p];
    AgreeOn(multi, orig, ends[p], e, e', s);
    if i :| 0 <= i < |phis| && phis[i].orig == s {
      TakesPhi(phis, entry, orig, p, phiDsts, phiSrcs, e', i);
      assert PhiJoins(f, phis[i], ends, b);
    } else {
      forall i | 0 <= i < |phiDsts|
        ensures phiDsts[i].1 != entry[s]
      {
        assert orig[phis[i].dst] == phis[i].orig;
      }
      assert !IsPhi(phiDsts, entry[s]);
    }
  }

  lemma TakesPhi<V>(phis: seq<Phi>, entry: map<Ssa, Ssa>, orig: map<Ssa, Ssa>, p: nat, phiDsts: seq<(nat, Ssa)>, phiSrcs: seq<(nat, Ssa)>, e: Env<V>, i: nat)
    requires PhisOk(phis, entry) && AreVersions(orig, entry) && Receives(phis, phiDsts) && HandsOver(phis, p, phiSrcs) && i < |phis|
    ensures TakePhis(phiDsts, phiSrcs, e)(phis[i].dst) == e(phis[i].srcs[p])
  {
    assert phiDsts[i].1 == phis[i].dst;
    var x := phis[i].dst;
    assert IsPhi(phiDsts, x);
    var j :| 0 <= j < |phiDsts| && phiDsts[j] == (PhiId(phiDsts, x), x);
    assert orig[phis[j].dst] == phis[j].orig && orig[x] == phis[i].orig;
    assert PhiId(phiDsts, x) == phis[i].id;
    assert forall j :: 0 <= j < i ==> phiSrcs[j].0 != phis[i].id;
    assert Lookup(phiSrcs, phis[i].id) == phiSrcs[i].1;
  }

  // ----- Whole runs -----

  /** The new program keeps track of all versions: `entry` and `ends` say which version of a value is
      current at the start and at the end of each block. */
  ghost predicate Tracks(f: Func, multi: set<Ssa>, orig: map<Ssa, Ssa>, phis: seq<seq<Phi>>, code: seq<Block>,
                         entry: seq<map<Ssa, Ssa>>, ends: seq<map<Ssa, Ssa>>) {
    && |f.pred| == |f.blocks| == |phis| == |code| == |entry| == |ends|
    && (forall b: nat :: b < |f.blocks| ==> BlockTracks(f, multi, orig, phis[b], f.blocks[b], code[b], entry[b], ends, b))
  }

  ghost predicate BlockTracks(f: Func, multi: set<Ssa>, orig: map<Ssa, Ssa>, phis: seq<Phi>, was: Block, now: Block,
                              entry: map<Ssa, Ssa>, ends: seq<map<Ssa, Ssa>>, b: nat) {
    && b < |ends| == |f.pred| && (b == 0 ==> entry == map[])
    && |now| == |was| && BlockOk(multi, orig, entry, was, now) && ends[b] == Versions(multi, entry, was, now, |was|)
    && AreVersions(orig, entry) && entry.Keys <= multi && PhisOk(phis, entry)
    && forall s :: s in entry ==> Joined(f, phis, entry, ends, b, s)
  }

  /** The phis of a block and what the blocks before hand to them. */
  ghost predicate EdgesPlaced(f: Func, phis: seq<seq<Phi>>, blocks: seq<NewBlock>) {
    && |phis| == |blocks| == |f.pred|
    && (forall b: nat :: b < |blocks| ==> Receives(phis[b], blocks[b].phiDsts))
    && (forall p: nat, b: nat :: f.IsEdge(p, b) && p < |blocks| && phis[b] != [] ==> HandsOver(phis[b], p, blocks[p].phiSrcs))
  }

  /** Whatever the instructions mean and whichever way the branches go, the new program does to the machine
      what the original does: every use reads the value that the last definition before it has given. */
  lemma {:induction false} RunsAgree<V, W>(m: Meaning<V, W>, f: Func, multi: set<Ssa>, orig: map<Ssa, Ssa>, phis: seq<seq<Phi>>, blocks: seq<NewBlock>,
                                           entry: seq<map<Ssa, Ssa>>, ends: seq<map<Ssa, Ssa>>, path: seq<nat>, e: Env<V>, w: W)
    requires NamesApart(f, orig) && EdgesPlaced(f, phis, blocks) && f.IsPath(path)
    requires Tracks(f, multi, orig, phis, Codes(blocks), entry, ends)
    ensures Run(m, f, path, e, w).1 == RunNew(m, f, blocks, path, e, w).1
    ensures Agree(multi, orig, ends[path[|path| - 1]], Run(m, f, path, e, w).0, RunNew(m, f, blocks, path, e, w).0)
    decreases |path|
  {
    hide Agree, BlockOk, AreVersions, PhisOk, Joined, RunBlock, Versions, TakePhis, HandsOver, Receives, InstrApart;
    var b := path[|path| - 1];
    assert BlockTracks(f, multi, orig, phis[b], f.blocks[b], blocks[b].code, entry[b], ends, b);
    BlockApart(f, orig, b);
    if |path| == 1 {
      NothingTracked(multi, orig, e);
      BlockAgrees(m, multi, orig, entry[b], b, f.blocks[b], blocks[b].code, |f.blocks[b]|, e, e, w);
    } else {
      PrefixIsPath(f, path);
      var p := path[|path| - 2];
      RunsAgree(m, f, multi, orig, phis, blocks, entry, ends, path[..|path| - 1], e, w);
      var (e1, w1) := Run(m, f, path[..|path| - 1], e, w);
      var (e1', _) := RunNew(m, f, blocks, path[..|path| - 1], e, w);
      EdgeAgrees(f, multi, orig, phis[b], entry[b], ends, p, b, blocks[b].phiDsts, blocks[p].phiSrcs, e1, e1');
      BlockAgrees(m, multi, orig, entry[b], b, f.blocks[b], blocks[b].code, |f.blocks[b]|, e1, TakePhis(blocks[b].phiDsts, blocks[p].phiSrcs, e1'), w1);
    }
  }

  function Codes(blocks: seq<NewBlock>): seq<Block> {
    seq(|blocks|, b requires 0 <= b < |blocks| => blocks[b].code)
  }

  lemma BlockApart(f: Func, orig: map<Ssa, Ssa>, b: nat)
    requires NamesApart(f, orig) && b < |f.blocks|
    ensures forall k :: 0 <= k < |f.blocks[b]| ==> InstrApart(f.blocks[b][k], orig)
  {
  }

  lemma NothingTracked<V>(multi: set<Ssa>, orig: map<Ssa, Ssa>, e: Env<V>)
    ensures Agree(multi, orig, map[], e, e)
  {
  }
}
