/** Which instructions of a block in SSA form have to stay in order
    (crates/deko-nak/src/opt_instr_sched_prepass.rs). */
module PrepassGraph {
  import opened Machine
  import opened ReorderedRuns
  import opened PostpassGraph
  import opened PostpassSched

  // ----- Edges to one instruction -----

  /** Only edges to `ip` have been added, and only to earlier instructions. */
  ghost predicate Grown(g: seq<seq<Edge>>, g': seq<seq<Edge>>, ip: nat) {
    |g'| == |g| && forall i :: 0 <= i < |g| ==> GrownNode(g[i], g'[i], i, ip)
  }

  ghost predicate GrownNode(edges: seq<Edge>, edges': seq<Edge>, i: nat, ip: nat) {
    edges <= edges' && forall k :: |edges| <= k < |edges'| ==> edges'[k].head == ip && i < ip
  }

  lemma GrownTwice(g: seq<seq<Edge>>, g1: seq<seq<Edge>>, g2: seq<seq<Edge>>, ip: nat)
    requires Grown(g, g1, ip) && Grown(g1, g2, ip)
    ensures Grown(g, g2, ip)
  {
    forall i | 0 <= i < |g|
      ensures GrownNode(g[i], g2[i], i, ip)
    {
      assert GrownNode(g[i], g1[i], i, ip) && GrownNode(g1[i], g2[i], i, ip);
      assert forall k :: 0 <= k < |g1[i]| ==> g2[i][k] == g1[i][k];
    }
  }

  lemma GrownPoints(g: seq<seq<Edge>>, g': seq<seq<Edge>>, ip: nat, i: nat)
    requires Grown(g, g', ip) && i < |g|
    ensures forall j :: Points(g[i], j) ==> Points(g'[i], j)
  {
    forall j | Points(g[i], j)
      ensures Points(g'[i], j)
    {
      var k :| 0 <= k < |g[i]| && g[i][k].head == j;
      assert GrownNode(g[i], g'[i], i, ip) && g'[i][k] == g[i][k];
    }
  }

  method AddEdge(g0: seq<seq<Edge>>, tail: nat, ip: nat, latency: nat) returns (g: seq<seq<Edge>>)
    requires tail < ip && tail < |g0|
    ensures Grown(g0, g, ip) && Points(g[tail], ip)
  {
    g := g0[tail := g0[tail] + [Edge(ip, latency)]];
    assert g[tail][|g0[tail]|].head == ip;
  }

  /** The last instruction before `ip` with the effect. */
  ghost predicate LastEffect(instrs: seq<Instr>, e: SideEffect, ip: nat, last: Option<nat>)
    requires ip <= |instrs|
  {
    match last
    case None => forall j :: 0 <= j < ip ==> instrs[j].effect != e
    case Some(b) => b < ip && instrs[b].effect == e && forall j :: b < j < ip ==> instrs[j].effect != e
  }

  /** The edges to `ip` that effects require. */
  ghost predicate EffectsReach(instrs: seq<Instr>, g: seq<seq<Edge>>, ip: nat)
    requires ip < |instrs| && ip <= |g|
  {
    && (forall i: nat :: i < ip && instrs[i].effect == Barrier && NoneBetween(instrs, Barrier, i, ip) ==> Points(g[i], ip))
    && (forall i: nat :: i < ip && instrs[ip].effect == Barrier && NoneBetween(instrs, Barrier, i, ip) ==> Points(g[i], ip))
    && (forall i: nat :: i < ip && instrs[ip].effect == Memory && instrs[i].effect == Memory && NoneBetween(instrs, Memory, i, ip) ==> Points(g[i], ip))
  }

  ghost predicate NoneBetween(instrs: seq<Instr>, e: SideEffect, i: nat, ip: nat)
    requires ip <= |instrs|
  {
    forall j :: i < j < ip ==> instrs[j].effect != e
  }

  lemma LastIs(instrs: seq<Instr>, e: SideEffect, ip: nat, last: Option<nat>)
    requires ip <= |instrs| && LastEffect(instrs, e, ip, last)
    ensures forall i: nat :: i < ip && NoneBetween(instrs, e, i, ip) ==> last.None? || last.value <= i
    ensures forall i: nat :: i < ip && instrs[i].effect == e && NoneBetween(instrs, e, i, ip) ==> last == Some(i)
  {
  }

  method EffectEdges(instrs: seq<Instr>, g0: seq<seq<Edge>>, ip: nat, lastMemory: Option<nat>, lastBarrier: Option<nat>) returns (g: seq<seq<Edge>>)
    requires ip < |instrs| == |g0| && LastEffect(instrs, Memory, ip, lastMemory) && LastEffect(instrs, Barrier, ip, lastBarrier)
    ensures Grown(g0, g, ip) && EffectsReach(instrs, g, ip)
  {
    hide Points, NoneBetween, Grown;
    g := g0;
    NoGrowth(g0, ip);
    LastIs(instrs, Barrier, ip, lastBarrier);
    LastIs(instrs, Memory, ip, lastMemory);
    if lastBarrier.Some? {
      g := AddEdge(g, lastBarrier.value, ip, 0);
    }
    ghost var g1 := g;
    match instrs[ip].effect
    case Pure =>
    case Memory =>
      if lastMemory.Some? {
        SameSize(g0, g, ip);
        g := AddEdge(g, lastMemory.value, ip, 0);
        StillReached(g1, g, ip);
        GrownTwice(g0, g1, g, ip);
      }
    case Barrier =>
      var first := if lastBarrier.Some? then lastBarrier.value else 0;
      NoGrowth(g1, ip);
      for other := first to ip
        invariant Grown(g0, g, ip) && Grown(g1, g, ip) && |g| == |g0|
        invariant forall i: nat :: first <= i < other ==> Points(g[i], ip)
      {
        ghost var before := g;
        g := AddEdge(g, other, ip, 0);
        StillReached(before, g, ip);
        GrownTwice(g0, before, g, ip);
        GrownTwice(g1, before, g, ip);
        SameSize(g0, g, ip);
      }
      StillReached(g1, g, ip);
  }

  lemma NoGrowth(g: seq<seq<Edge>>, ip: nat)
    ensures Grown(g, g, ip)
  {
  }

  lemma SameSize(g: seq<seq<Edge>>, g': seq<seq<Edge>>, ip: nat)
    requires Grown(g, g', ip)
    ensures |g'| == |g|
  {
  }

  lemma StillReached(g: seq<seq<Edge>>, g': seq<seq<Edge>>, ip: nat)
    requires Grown(g, g', ip)
    ensures |g'| == |g| && forall i: nat, j :: i < |g| && Points(g[i], j) ==> Points(g'[i], j)
  {
    hide Points, Grown;
    SameSize(g, g', ip);
    forall i: nat, j | i < |g| && Points(g[i], j)
      ensures Points(g'[i], j)
    {
      GrownPoints(g, g', ip, i);
    }
  }

  // ----- Edges from definitions -----

  /** Where each value has been defined: by which instruction, and as which of its destinations. */
  type Defs = map<Reg, (nat, nat)>

  ghost predicate LastDef(instrs: seq<Instr>, x: Reg, ip: nat, d: nat)
    requires ip <= |instrs|
  {
    d < ip && instrs[d].Writes(x) && NoWrites(instrs, x, d + 1, ip)
  }

  ghost predicate DefsOk(instrs: seq<Instr>, defs: Defs, ip: nat)
    requires ip <= |instrs|
  {
    forall x, d: nat {:trigger LastDef(instrs, x, ip, d)} :: LastDef(instrs, x, ip, d) ==> x in defs && defs[x].0 == d
  }

  ghost predicate DefsBelow(defs: Defs, ip: nat) {
    forall x :: x in defs ==> defs[x].0 < ip
  }

  /** From the definitions of `regs` to `ip`. */
  ghost predicate FromDefs(instrs: seq<Instr>, g: seq<seq<Edge>>, ip: nat, regs: seq<Reg>)
    requires ip <= |instrs| && ip <= |g|
  {
    forall x, d: nat {:trigger LastDef(instrs, x, ip, d)} :: x in regs && LastDef(instrs, x, ip, d) ==> Points(g[d], ip)
  }

  method UseEdges(sm: Sm, isVirtual: nat -> bool, instrs: seq<Instr>, g0: seq<seq<Edge>>, ip: nat, defs: Defs, regs: seq<Reg>, guards: bool)
    returns (g: seq<seq<Edge>>)
    requires ip < |instrs| == |g0| && DefsOk(instrs, defs, ip) && DefsBelow(defs, ip)
    ensures Grown(g0, g, ip) && |g| == |g0| && FromDefs(instrs, g, ip, regs)
  {
    hide Grown, LastDef, Points;
    g := g0;
    NoGrowth(g0, ip);
    for i := 0 to |regs|
      invariant Grown(g0, g, ip) && |g| == |g0| && FromDefs(instrs, g, ip, regs[..i])
    {
      assert regs[..i + 1] == regs[..i] + [regs[i]];
      if regs[i] in defs {
        var (d, idx) := defs[regs[i]];
        var latency := if isVirtual(instrs[d].op) || (!guards && isVirtual(instrs[ip].op)) then 0
                       else Max(if guards then sm.paw(instrs[d].op, idx) else sm.raw(instrs[d].op, idx, instrs[ip].op, i), sm.variable(instrs[d].op));
        ghost var before := g;
        g := AddEdge(g, d, ip, latency);
        StillReached(before, g, ip);
        GrownTwice(g0, before, g, ip);
        IsLastDef(instrs, defs, ip, regs[i]);
      }
    }
    assert regs[..|regs|] == regs;
  }

  lemma IsLastDef(instrs: seq<Instr>, defs: Defs, ip: nat, x: Reg)
    requires ip <= |instrs| && DefsOk(instrs, defs, ip) && x in defs
    ensures forall d: nat :: LastDef(instrs, x, ip, d) ==> d == defs[x].0
  {
    hide LastDef;
  }

  method EnterDefs(instrs: seq<Instr>, ip: nat, defs0: Defs) returns (defs: Defs)
    requires ip < |instrs| && DefsOk(instrs, defs0, ip) && DefsBelow(defs0, ip)
    ensures DefsOk(instrs, defs, ip + 1) && DefsBelow(defs, ip + 1)
  {
    defs := defs0;
    var dsts := instrs[ip].dsts;
    for i := 0 to |dsts|
      invariant DefsBelow(defs, ip + 1) && forall x :: if x in dsts[..i] then x in defs && defs[x].0 == ip else (x in defs <==> x in defs0) && (x in defs ==> defs[x] == defs0[x])
    {
      assert dsts[..i + 1] == dsts[..i] + [dsts[i]];
      defs := defs[dsts[i] := (ip, i)];
    }
    assert dsts[..|dsts|] == dsts;
    var n := ip + 1;
    forall x, d: nat | LastDef(instrs, x, n, d)
      ensures x in defs && defs[x].0 == d
    {
      assert instrs[ip].Writes(x) <==> x in dsts;
      if !instrs[ip].Writes(x) {
        assert LastDef(instrs, x, ip, d);
      }
    }
  }

  // ----- The graph -----

  /** All edges between the first `n` instructions. */
  ghost predicate UpTo(instrs: seq<Instr>, g: seq<seq<Edge>>, n: nat)
    requires n <= |instrs|
  {
    && |g| == |instrs|
    && (forall i, k {:trigger g[i][k]} :: 0 <= i < |g| && 0 <= k < |g[i]| ==> i < g[i][k].head < n)
    && (forall ip: nat :: ip < n ==> Reached(instrs, g, ip))
  }

  ghost predicate Reached(instrs: seq<Instr>, g: seq<seq<Edge>>, ip: nat)
    requires ip < |instrs| == |g|
  {
    EffectsReach(instrs, g, ip) && FromDefs(instrs, g, ip, instrs[ip].guards) && FromDefs(instrs, g, ip, instrs[ip].srcs)
  }

  ghost predicate SsaGraphOk(instrs: seq<Instr>, g: seq<seq<Edge>>) {
    UpTo(instrs, g, |instrs|)
  }

  lemma ReachedStays(instrs: seq<Instr>, g: seq<seq<Edge>>, g': seq<seq<Edge>>, ip: nat, n: nat)
    requires n < |instrs| == |g| && Reached(instrs, g, n) && Grown(g, g', ip)
    ensures |g'| == |g| && Reached(instrs, g', n)
  {
    hide EffectsReach, FromDefs, Grown;
    SameSize(g, g', ip);
    EffectsStay(instrs, g, g', ip, n);
    FromDefsStay(instrs, g, g', ip, n, instrs[n].guards);
    FromDefsStay(instrs, g, g', ip, n, instrs[n].srcs);
  }

  lemma EffectsStay(instrs: seq<Instr>, g: seq<seq<Edge>>, g': seq<seq<Edge>>, ip: nat, n: nat)
    requires n < |instrs| == |g| && EffectsReach(instrs, g, n) && Grown(g, g', ip)
    ensures |g'| == |g| && EffectsReach(instrs, g', n)
  {
    hide Points, NoneBetween, Grown;
    SameSize(g, g', ip);
    forall i: nat | i < n
      ensures Points(g[i], n) ==> Points(g'[i], n)
    {
      GrownPoints(g, g', ip, i);
    }
    assert forall i: nat :: i < n && Points(g[i], n) ==> Points(g'[i], n);
  }

  lemma FromDefsStay(instrs: seq<Instr>, g: seq<seq<Edge>>, g': seq<seq<Edge>>, ip: nat, n: nat, regs: seq<Reg>)
    requires n < |instrs| == |g| && FromDefs(instrs, g, n, regs) && Grown(g, g', ip)
    ensures |g'| == |g| && FromDefs(instrs, g', n, regs)
  {
    hide Points, LastDef, Grown;
    SameSize(g, g', ip);
    forall x, d: nat | x in regs && LastDef(instrs, x, n, d)
      ensures d < n && Points(g'[d], n)
    {
      assert d < n by { DefIsBefore(instrs, x, n, d); }
      GrownPoints(g, g', ip, d);
    }
  }

  lemma DefIsBefore(instrs: seq<Instr>, x: Reg, n: nat, d: nat)
    requires n <= |instrs| && LastDef(instrs, x, n, d)
    ensures d < n
  {
  }

  lemma GrowUpTo(instrs: seq<Instr>, g: seq<seq<Edge>>, g': seq<seq<Edge>>, ip: nat)
    requires ip < |instrs| && UpTo(instrs, g, ip) && Grown(g, g', ip) && |g'| == |g| && Reached(instrs, g', ip)
    ensures UpTo(instrs, g', ip + 1)
  {
    hide Reached;
    forall n: nat | n < ip
      ensures Reached(instrs, g', n)
    {
      ReachedStays(instrs, g, g', ip, n);
    }
    forall i, k | 0 <= i < |g'| && 0 <= k < |g'[i]|
      ensures i < g'[i][k].head < ip + 1
    {
      assert GrownNode(g[i], g'[i], i, ip);
      if k < |g[i]| {
        assert g'[i][k] == g[i][k];
      }
    }
  }

  method GenerateDepGraph(sm: Sm, isVirtual: nat -> bool, instrs: seq<Instr>) returns (g: seq<seq<Edge>>)
    ensures SsaGraphOk(instrs, g)
  {
    hide Grown, EffectsReach, FromDefs, DefsOk, UpTo, LastEffect;
    g := seq(|instrs|, i => []);
    var defs: Defs := map[];
    var lastMemory: Option<nat>, lastBarrier: Option<nat> := None, None;
    NothingYet(instrs, g);
    for ip := 0 to |instrs|
      invariant |g| == |instrs| && UpTo(instrs, g, ip) && DefsOk(instrs, defs, ip) && DefsBelow(defs, ip)
      invariant LastEffect(instrs, Memory, ip, lastMemory) && LastEffect(instrs, Barrier, ip, lastBarrier)
    {
      var g1 := EffectEdges(instrs, g, ip, lastMemory, lastBarrier);
      SameSize(g, g1, ip);
      var g2 := UseEdges(sm, isVirtual, instrs, g1, ip, defs, instrs[ip].srcs, false);
      var g3 := UseEdges(sm, isVirtual, instrs, g2, ip, defs, instrs[ip].guards, true);
      AllReached(instrs, g1, g2, g3, ip);
      GrownTwice(g, g1, g2, ip);
      GrownTwice(g, g2, g3, ip);
      GrowUpTo(instrs, g, g3, ip);
      g := g3;
      defs := EnterDefs(instrs, ip, defs);
      NewLast(instrs, Memory, ip, lastMemory);
      NewLast(instrs, Barrier, ip, lastBarrier);
      if instrs[ip].effect == Memory {
        lastMemory := Some(ip);
      } else if instrs[ip].effect == Barrier {
        lastBarrier := Some(ip);
      }
    }
  }

  lemma NewLast(instrs: seq<Instr>, e: SideEffect, ip: nat, last: Option<nat>)
    requires ip < |instrs| && LastEffect(instrs, e, ip, last)
    ensures LastEffect(instrs, e, ip + 1, if instrs[ip].effect == e then Some(ip) else last)
  {
  }

  lemma NothingYet(instrs: seq<Instr>, g: seq<seq<Edge>>)
    requires |g| == |instrs| && forall i :: 0 <= i < |g| ==> g[i] == []
    ensures UpTo(instrs, g, 0) && DefsOk(instrs, map[], 0) && LastEffect(instrs, Memory, 0, None) && LastEffect(instrs, Barrier, 0, None)
  {
  }

  lemma AllReached(instrs: seq<Instr>, g1: seq<seq<Edge>>, g2: seq<seq<Edge>>, g3: seq<seq<Edge>>, ip: nat)
    requires ip < |instrs| == |g1| && Grown(g1, g2, ip) && |g2| == |g1| && Grown(g2, g3, ip) && |g3| == |g2|
    requires EffectsReach(instrs, g1, ip) && FromDefs(instrs, g2, ip, instrs[ip].srcs) && FromDefs(instrs, g3, ip, instrs[ip].guards)
    ensures Reached(instrs, g3, ip)
  {
    hide EffectsReach, FromDefs, Grown;
    EffectsStay(instrs, g1, g2, ip, ip);
    EffectsStay(instrs, g2, g3, ip, ip);
    FromDefsStay(instrs, g2, g3, ip, ip, instrs[ip].srcs);
  }

  // ----- Orders that respect the graph -----

  lemma SsaEffects(instrs: seq<Instr>, g: seq<seq<Edge>>)
    requires SsaGraphOk(instrs, g)
    ensures EffectsOk(instrs, g)
  {
    hide FromDefs, Points, Reached;
    forall i: nat | i < |instrs|
      ensures ToEffects(instrs, i, g[i])
    {
      forall b: nat | i < b < |instrs|
        ensures NoneBetween(instrs, Barrier, i, b) && (instrs[i].effect == Barrier || instrs[b].effect == Barrier) ==> Points(g[i], b)
        ensures NoneBetween(instrs, Memory, i, b) && instrs[i].effect == Memory && instrs[b].effect == Memory ==> Points(g[i], b)
      {
        assert Reached(instrs, g, b);
        EffectAt(instrs, g, i, b);
      }
    }
  }

  lemma EffectAt(instrs: seq<Instr>, g: seq<seq<Edge>>, i: nat, b: nat)
    requires i < b < |instrs| == |g| && Reached(instrs, g, b)
    ensures NoneBetween(instrs, Barrier, i, b) && (instrs[i].effect == Barrier || instrs[b].effect == Barrier) ==> Points(g[i], b)
    ensures NoneBetween(instrs, Memory, i, b) && instrs[i].effect == Memory && instrs[b].effect == Memory ==> Points(g[i], b)
  {
    hide FromDefs, Points;
  }

  /** In SSA form a value is defined once, before its uses. */
  ghost predicate SsaBlock(instrs: seq<Instr>) {
    && (forall i, j, x {:trigger instrs[i].Writes(x), instrs[j].Writes(x)} :: 0 <= i < |instrs| && 0 <= j < |instrs| && instrs[i].Writes(x) && instrs[j].Writes(x) ==> i == j)
    && (forall i, j, x {:trigger instrs[i].Reads(x), instrs[j].Writes(x)} :: 0 <= i < |instrs| && 0 <= j < |instrs| && instrs[i].Reads(x) && instrs[j].Writes(x) ==> j < i)
  }

  /** A definition points to all its uses. */
  lemma DefPointsToUse(instrs: seq<Instr>, g: seq<seq<Edge>>, d: nat, j: nat, x: Reg)
    requires SsaGraphOk(instrs, g) && SsaBlock(instrs) && d < j < |instrs| && instrs[d].Writes(x) && instrs[j].Reads(x)
    ensures Points(g[d], j)
  {
    hide EffectsReach, Points;
    assert Reached(instrs, g, j);
    assert LastDef(instrs, x, j, d);
  }

  lemma SsaKeepsOrder(instrs: seq<Instr>, g: seq<seq<Edge>>, order: seq<nat>)
    requires SsaGraphOk(instrs, g) && SsaBlock(instrs) && IsPermutation(order, |instrs|) && Respects(g, order)
    ensures AreIds(instrs, Identity(|instrs|)) && KeepsOrder(instrs, Identity(|instrs|), order)
  {
    hide ReorderedRuns.Before, IsPermutation, Respects, SsaGraphOk, EffectsOk;
    SsaEffects(instrs, g);
    SsaSize(instrs, g);
    forall i: nat, j: nat | i < j < |instrs| && Conflict(instrs[i], instrs[j])
      ensures ReorderedRuns.Before(order, i, j)
    {
      var a, b := instrs[i], instrs[j];
      if x :| x in a.dsts && b.Reads(x) {
        assert instrs[i].Writes(x);
        DefPointsToUse(instrs, g, i, j, x);
        PointsBefore(g, order, i, j);
      } else if a.effect == Barrier {
        BarrierBefore(instrs, g, order, i, j);
      } else {
        OnlyEffects(instrs, i, j);
        BeforeEffect(instrs, g, order, i, j, b.effect);
      }
    }
  }

  lemma SsaSize(instrs: seq<Instr>, g: seq<seq<Edge>>)
    requires SsaGraphOk(instrs, g)
    ensures |g| == |instrs| && InGraph(g)
  {
    hide Reached;
  }

  lemma OnlyEffects(instrs: seq<Instr>, i: nat, j: nat)
    requires SsaBlock(instrs) && i < j < |instrs| && Conflict(instrs[i], instrs[j]) && instrs[i].effect != Barrier
    requires forall x :: x in instrs[i].dsts ==> !instrs[j].Reads(x)
    ensures instrs[j].effect == Barrier || (instrs[i].effect == Memory && instrs[j].effect == Memory)
  {
    forall x
      ensures x in instrs[i].dsts ==> !instrs[j].Touches(x)
      ensures x in instrs[j].dsts ==> !instrs[i].Touches(x)
    {
      assert instrs[i].Writes(x) <==> x in instrs[i].dsts;
      assert instrs[j].Writes(x) <==> x in instrs[j].dsts;
      assert instrs[i].Reads(x) && instrs[j].Writes(x) ==> j < i;
      assert instrs[i].Writes(x) && instrs[j].Writes(x) ==> i == j;
    }
  }

  /** The meaning of a block in SSA form does not change. */
  lemma SsaOrderKeepsMeaning<V, W>(m: Meaning<V, W>, instrs: seq<Instr>, g: seq<seq<Edge>>, order: seq<nat>, s: Config<V, W>)
    requires SsaGraphOk(instrs, g) && SsaBlock(instrs) && IsPermutation(order, |instrs|) && Respects(g, order)
    ensures Same(Run(m, instrs, Identity(|instrs|), s), Run(m, instrs, order, s))
  {
    hide ReorderedRuns.Before, Respects, SsaGraphOk, Conflict, KeepsOrder, SsaBlock;
    SsaKeepsOrder(instrs, g, order);
    SameElements(order, |instrs|);
    Reordered(m, instrs, Identity(|instrs|), order, s);
  }
}
