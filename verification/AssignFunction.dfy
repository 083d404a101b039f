/** Registers for a whole function, and what the allocated function computes
    (crates/deko-nak/src/assign_regs.rs). */
module AssignFunction {
  import opened Machine
  import opened RegAllocation
  import opened InstrAllocation
  import opened AllocatedCode
  import opened AllocatedBlocks
  import opened EdgeCopies
  import opened AssignRegs
  import Flow
  import L = SimpleLiveness

  /** The code of a block: its instructions, and a parallel copy for each successor.  All of the parallel
      copies stand at the end of the block, in front of its branch. */
  datatype BlockCode = BlockCode(steps: seq<Step>, exits: seq<seq<Copy>>)

  // ----- The two passes -----

  ghost function PredRas(f: Func, out: seq<Block>, b: nat): seq<RegAllocator> {
    if b < |f.pred| && f.pred[b] != [] && f.pred[b][0] < |out| then out[f.pred[b][0]].ras else []
  }

  ghost function PredMaps(f: Func, out: seq<Block>, b: nat): seq<map<Ssa, nat>> {
    if b < |f.pred| && f.pred[b] != [] && f.pred[b][0] < |out| then Final(out[f.pred[b][0]]) else []
  }

  /** Block `b` has been assigned, from where its first predecessor has left the values. */
  ghost predicate Passed(f: Func, live: L.Live, out: seq<Block>, phiOuts: seq<map<nat, Src>>, b: nat)
    requires b < |out| == |phiOuts| <= |f.blocks|
  {
    && |f.blocks| == |f.pred| == |live.blocks| == |live.liveIn| == |live.liveOut|
    && BlockAssigned(f, b, out[b], phiOuts[b]) && StartOk(f, live, b, out[b], PredRas(f, out, b), PredMaps(f, out, b))
    && Tracks(out[b].ras, Final(out[b]), LiveAt(f, live, b, |f.blocks[b].instrs| + 1)) && AllFiles(out[b].ras)
  }

  lemma PassedStays(f: Func, live: L.Live, out: seq<Block>, phiOuts: seq<map<nat, Src>>, b: nat, block: Block, phiOut: map<nat, Src>)
    requires f.Valid() && b < |out| == |phiOuts| < |f.blocks| && Passed(f, live, out, phiOuts, b)
    ensures Passed(f, live, out + [block], phiOuts + [phiOut], b)
  {
    hide Func.EdgeValid, Func.Flowing, BlockAssigned, StartOk, LiveAt, Tracks;
    assert f.BlockValid(b);
    assert (out + [block])[b] == out[b] && (phiOuts + [phiOut])[b] == phiOuts[b];
    if f.pred[b] != [] {
      assert (out + [block])[f.pred[b][0]] == out[f.pred[b][0]];
    }
  }

  /** The first pass: all blocks in order. */
  method FirstPasses(f: Func, live: L.Live, hints: Hints, numRegs: RegFile -> nat)
    returns (ok: bool, rasOf: seq<seq<RegAllocator>>, liveIns: seq<seq<LiveValue>>, steps: seq<seq<Step>>, phiOuts: seq<map<nat, Src>>, ghost out: seq<Block>)
    requires f.Valid() && LiveOf(f, live)
    ensures ok ==> |rasOf| == |liveIns| == |steps| == |phiOuts| == |out| == |f.blocks|
    ensures ok ==> forall b :: 0 <= b < |out| ==> Passed(f, live, out, phiOuts, b)
    ensures ok ==> forall b :: 0 <= b < |out| ==> out[b].liveIn == liveIns[b] && out[b].code == steps[b] && out[b].ras == rasOf[b]
    ensures ok ==> forall b :: 0 <= b < |out| ==> PerFile(rasOf[b]) && Maps(rasOf[b]) == Final(out[b]) && AreSized(out[b].ras, numRegs)
  {
    hide Func.BlockValid, Func.EdgeValid, Func.Flowing, LiveOf, LiveAt, Passed, Tracks, BlockAssigned, StartOk, RasOk, PerFile, AllFiles, PredOk, Maps, Final;
    LiveShape(f, live);
    ok, rasOf, liveIns, steps, phiOuts, out := true, [], [], [], [], [];
    for b := 0 to |f.blocks|
      invariant |rasOf| == |liveIns| == |steps| == |phiOuts| == |out| == b && ok
      invariant forall c :: 0 <= c < b ==> Passed(f, live, out, phiOuts, c)
      invariant forall c :: 0 <= c < b ==> out[c].liveIn == liveIns[c] && out[c].code == steps[c] && out[c].ras == rasOf[c]
      invariant forall c :: 0 <= c < b ==> RasOk(rasOf[c], numRegs, Final(out[c]), LiveAt(f, live, c, |f.blocks[c].instrs| + 1))
    {
      var predRas: seq<RegAllocator> := [];
      if f.pred[b] != [] {
        PredBefore(f, b);
        predRas := rasOf[f.pred[b][0]];
        PredIsOk(f, live, f.pred[b][0], predRas, numRegs, Final(out[f.pred[b][0]]));
      }
      var ras, liveIn, code, phiOut;
      ghost var block;
      ok, ras, liveIn, code, phiOut, block := AssignBlock(f, live, b, hints, predRas, numRegs);
      if !ok {
        return;
      }
      RasFacts(ras, numRegs, Final(block), LiveAt(f, live, b, |f.blocks[b].instrs| + 1));
      BlockPassed(f, live, out, phiOuts, b, block, phiOut, predRas, Maps(predRas));
      forall c: nat | c < b
        ensures Passed(f, live, out + [block], phiOuts + [phiOut], c)
      {
        PassedStays(f, live, out, phiOuts, c, block, phiOut);
      }
      rasOf, liveIns, steps, phiOuts, out := rasOf + [ras], liveIns + [liveIn], steps + [code], phiOuts + [phiOut], out + [block];
    }
    forall b | 0 <= b < |out|
      ensures PerFile(rasOf[b]) && Maps(rasOf[b]) == Final(out[b]) && AreSized(out[b].ras, numRegs)
    {
      RasFacts(rasOf[b], numRegs, Final(out[b]), LiveAt(f, live, b, |f.blocks[b].instrs| + 1));
    }
  }

  lemma PredBefore(f: Func, b: nat)
    requires f.Valid() && b < |f.blocks| && f.pred[b] != []
    ensures f.pred[b][0] < b
  {
    hide Func.EdgeValid, Func.Flowing;
    assert f.BlockValid(b);
  }

  /** Every file has as many registers as it should. */
  ghost predicate AreSized(ras: seq<RegAllocator>, numRegs: RegFile -> nat) {
    forall k :: 0 <= k < |ras| ==> ras[k].numRegs == numRegs(ras[k].file)
  }

  lemma RasFacts(ras: seq<RegAllocator>, numRegs: RegFile -> nat, maps: seq<map<Ssa, nat>>, live: set<Ssa>)
    requires RasOk(ras, numRegs, maps, live)
    ensures AllFiles(ras) && PerFile(ras) && Maps(ras) == maps && Tracks(ras, maps, live) && AreSized(ras, numRegs)
  {
  }

  lemma PredIsOk(f: Func, live: L.Live, p: nat, predRas: seq<RegAllocator>, numRegs: RegFile -> nat, maps: seq<map<Ssa, nat>>)
    requires p < |f.blocks| == |live.blocks| == |live.liveIn| == |live.liveOut|
    requires RasOk(predRas, numRegs, maps, LiveAt(f, live, p, |f.blocks[p].instrs| + 1))
    ensures PredOk(f, live, p, predRas, numRegs) && Maps(predRas) == maps
  {
  }

  lemma BlockPassed(f: Func, live: L.Live, out: seq<Block>, phiOuts: seq<map<nat, Src>>, b: nat, block: Block, phiOut: map<nat, Src>,
                    predRas: seq<RegAllocator>, predMaps: seq<map<Ssa, nat>>)
    requires f.Valid() && LiveOf(f, live) && b == |out| == |phiOuts| < |f.blocks| == |live.blocks| == |live.liveIn| == |live.liveOut|
    requires BlockAssigned(f, b, block, phiOut) && StartOk(f, live, b, block, predRas, predMaps)
    requires Tracks(block.ras, Final(block), LiveAt(f, live, b, |f.blocks[b].instrs| + 1)) && AllFiles(block.ras)
    requires f.pred[b] != [] ==> f.pred[b][0] < b && predRas == out[f.pred[b][0]].ras && predMaps == Final(out[f.pred[b][0]])
    ensures Passed(f, live, out + [block], phiOuts + [phiOut], b)
  {
    hide Func.EdgeValid, Func.Flowing, LiveOf, LiveAt, Tracks, BlockAssigned, StartsFrom;
    assert f.BlockValid(b);
    if f.pred[b] != [] {
      assert (out + [block])[f.pred[b][0]] == out[f.pred[b][0]];
    }
  }

  /** Everything that a successor expects can be had at the end of the block. */
  lemma EdgeAvailable(f: Func, live: L.Live, out: seq<Block>, phiOuts: seq<map<nat, Src>>, b: nat, c: nat, i: nat)
    requires f.Valid() && LiveOf(f, live) && |out| == |phiOuts| == |f.blocks| && b < |out| && c < |out| && c in f.succ[b]
    requires Passed(f, live, out, phiOuts, b) && Passed(f, live, out, phiOuts, c) && i < |out[c].liveIn|
    ensures |Final(out[b])| == |out[b].ras| && Available(out[b].ras, Final(out[b]), phiOuts[b], out[c].liveIn[i].ref)
  {
    hide Func.BlockValid, Func.Flowing, LiveOf, LiveAt, Tracks, BlockOk, DistinctRegs, PhiOutFrom, StaysInOne;
    HasPred(f, b, c);
    assert f.EdgeValid(b, c);
    match out[c].liveIn[i].ref {
      case LiveSsa(v) =>
        LiveOnEdge(f, live, b, c, v);
        FilesComplete(out[b].ras);
        LiveIsAvailable(out[b].ras, Final(out[b]), LiveAt(f, live, b, |f.blocks[b].instrs| + 1), v);
      case LivePhi(p) =>
    }
  }

  lemma HasPred(f: Func, b: nat, c: nat)
    requires f.Valid() && b < |f.blocks| && c < |f.blocks| && c in f.succ[b]
    ensures f.pred[c] != []
  {
    hide Func.BlockValid, Func.EdgeValid, Flow.Function.Strict, Flow.Function.DefinedOnce, Flow.Function.ReachesUse;
    assert c in ToFlow(f).succ[b] && b in ToFlow(f).pred[c];
  }

  /** A block with several successors leaves all values where they expect them. */
  lemma NothingMoves(f: Func, live: L.Live, out: seq<Block>, phiOuts: seq<map<nat, Src>>, b: nat, c: nat)
    requires f.Valid() && |out| == |phiOuts| == |f.blocks| && b < |out| && c < |out| && c in f.succ[b] && |f.succ[b]| != 1
    requires Passed(f, live, out, phiOuts, b) && Passed(f, live, out, phiOuts, c)
    ensures |Final(out[b])| == |out[b].ras| && forall i :: 0 <= i < |out[c].liveIn| ==> StaysInOne(out[c].liveIn[i], out[b].ras, Final(out[b]))
  {
    hide Func.BlockValid, Func.Flowing, LiveAt, Tracks, BlockOk, DistinctRegs, PhiOutFrom, StaysInOne;
    assert f.EdgeValid(b, c);
    assert f.pred[c] == [b] && f.blocks[c].phis == [];
    forall i | 0 <= i < |out[c].liveIn|
      ensures StaysInOne(out[c].liveIn[i], out[b].ras, Final(out[b]))
    {
      assert PredRas(f, out, c) == out[b].ras && PredMaps(f, out, c) == Final(out[b]);
    }
  }

  /** The parallel copy for the `i`-th successor brings everything where it is expected; several successors
      need no copies. */
  ghost predicate ExitOk(f: Func, out: seq<Block>, b: nat, i: nat, copies: seq<Copy>)
    requires b < |f.blocks| == |f.succ| == |out| && i < |f.succ[b]|
  {
    && f.succ[b][i] < |out| && DistinctDsts(copies) && |out[b].trace| == |out[b].instrs| + 1
    && (exists phiOut :: EdgeOk(out[b], Edge(PhiMap(f.blocks[b].phiSrcs), phiOut, copies), out[f.succ[b][i]]))
    && (|f.succ[b]| > 1 ==> copies == []) && BetweenRegisters(out[b].ras, out[f.succ[b][i]].ras, copies)
  }

  /** The copies read registers that exist in one block and write registers that exist in another. */
  ghost predicate BetweenRegisters(from: seq<RegAllocator>, to: seq<RegAllocator>, copies: seq<Copy>) {
    forall i :: 0 <= i < |copies| ==> IsRegister(to, copies[i].dst) && (copies[i].src.FromReg? ==> IsRegister(from, copies[i].src.reg))
  }

  lemma SourcesAreRegisters(b: Block, phiOut: map<nat, Src>, phiSrcs: map<nat, PhiSrc>, c: Block, copies: seq<Copy>)
    requires BlockOk(b) && BlockOk(c) && |b.trace| == |b.instrs| + 1 && |Final(b)| == |b.ras| && PhiOutFrom(phiOut, phiSrcs, b.ras, Final(b))
    requires FromSources(b.ras, Final(b), phiOut, c.liveIn, copies)
    ensures BetweenRegisters(b.ras, c.ras, copies)
  {
    hide StepsOk, Covers, AllRecorded, IsRegister;
    TraceInRange(b.ras, b.trace, b.instrs, b.code, |b.instrs|);
    forall i | 0 <= i < |copies|
      ensures IsRegister(c.ras, copies[i].dst) && (copies[i].src.FromReg? ==> IsRegister(b.ras, copies[i].src.reg))
    {
      var lv :| lv in c.liveIn && copies[i].dst == lv.reg && EdgeCopies.IsSource(b.ras, Final(b), phiOut, lv.ref, copies[i].src);
      var j :| 0 <= j < |c.liveIn| && c.liveIn[j] == lv;
      match lv.ref {
        case LiveSsa(v) =>
          SourceIsRegister(b.ras, Final(b), phiOut, v, copies[i].src);
        case LivePhi(p) =>
          assert PhiOutAt(phiOut[p], phiSrcs[p], b.ras, Final(b));
          if phiSrcs[p].SsaSrc? {
            SourceIsRegister(b.ras, Final(b), map[], phiSrcs[p].v, copies[i].src);
          }
      }
    }
  }

  lemma SourceIsRegister(ras: seq<RegAllocator>, maps: seq<map<Ssa, nat>>, phiOut: map<nat, Src>, v: Ssa, src: Src)
    requires AllInRange(ras, maps) && EdgeCopies.IsSource(ras, maps, phiOut, LiveSsa(v), src)
    ensures src.FromReg? ==> IsRegister(ras, src.reg)
  {
    var k :| 0 <= k < |ras| && ras[k].file == v.file && v in maps[k] && src == FromReg(Reg(v.file, maps[k][v]));
    assert InRange(maps[k], ras[k].numRegs);
  }

  /** The second pass over block `b`. */
  method Exits(f: Func, ghost live: L.Live, b: nat, ras: seq<RegAllocator>, liveIns: seq<seq<LiveValue>>, phiOut: map<nat, Src>,
               ghost out: seq<Block>, ghost phiOuts: seq<map<nat, Src>>) returns (exits: seq<seq<Copy>>)
    requires f.Valid() && LiveOf(f, live) && |out| == |liveIns| == |phiOuts| == |f.blocks| && b < |out|
    requires forall c :: 0 <= c < |out| ==> Passed(f, live, out, phiOuts, c) && out[c].liveIn == liveIns[c]
    requires PerFile(ras) && Maps(ras) == Final(out[b]) && out[b].ras == ras && phiOuts[b] == phiOut
    ensures |exits| == |f.succ[b]| && forall i :: 0 <= i < |exits| ==> ExitOk(f, out, b, i, exits[i])
  {
    hide Func.BlockValid, Func.EdgeValid, LiveOf, Passed, PerFile, Maps, Final, Available, StaysInOne, DeliveredAt, DistinctRegs, ExitOk, FromSources;
    exits := [];
    for i := 0 to |f.succ[b]|
      invariant |exits| == i && forall j :: 0 <= j < i ==> ExitOk(f, out, b, j, exits[j])
    {
      var c := f.succ[b][i];
      SuccInRange(f, b, i);
      forall k | 0 <= k < |liveIns[c]|
        ensures Available(ras, Maps(ras), phiOut, liveIns[c][k].ref)
      {
        EdgeAvailable(f, live, out, phiOuts, b, c, k);
      }
      LiveInsDiffer(f, live, out, phiOuts, c);
      var copies := SecondPass(ras, phiOut, liveIns[c]);
      if |f.succ[b]| != 1 {
        NothingMoves(f, live, out, phiOuts, b, c);
      }
      ExitIs(f, live, out, phiOuts, b, i, copies);
      exits := exits + [copies];
    }
  }

  lemma SuccInRange(f: Func, b: nat, i: nat)
    requires f.Valid() && b < |f.blocks| && i < |f.succ[b]|
    ensures f.succ[b][i] < |f.blocks|
  {
    hide Func.BlockValid, Func.EdgeValid, Flow.Function.Strict, Flow.Function.DefinedOnce, Flow.Function.ReachesUse;
    assert f.succ[b][i] in ToFlow(f).succ[b];
  }

  lemma LiveInsDiffer(f: Func, live: L.Live, out: seq<Block>, phiOuts: seq<map<nat, Src>>, c: nat)
    requires |out| == |phiOuts| == |f.blocks| && c < |out| && Passed(f, live, out, phiOuts, c)
    ensures DistinctRegs(out[c].liveIn)
  {
  }

  lemma ExitIs(f: Func, live: L.Live, out: seq<Block>, phiOuts: seq<map<nat, Src>>, b: nat, i: nat, copies: seq<Copy>)
    requires f.Valid() && |out| == |phiOuts| == |f.blocks| && b < |out| && i < |f.succ[b]| && f.succ[b][i] < |out|
    requires Passed(f, live, out, phiOuts, b) && DistinctDsts(copies) && (|f.succ[b]| > 1 ==> copies == [])
    requires |Final(out[b])| == |out[b].ras| && FromSources(out[b].ras, Final(out[b]), phiOuts[b], out[f.succ[b][i]].liveIn, copies)
    requires Passed(f, live, out, phiOuts, f.succ[b][i])
    requires var c := f.succ[b][i];
             forall k :: 0 <= k < |out[c].liveIn| ==> DeliveredAt(out[b].ras, Final(out[b]), phiOuts[b], out[c].liveIn[k], copies)
    ensures ExitOk(f, out, b, i, copies)
  {
    hide Func.BlockValid, Func.EdgeValid, Func.Flowing, BlockOk, DistinctRegs, PhiOutFrom, DeliveredAt, DistinctDsts, LiveAt, Tracks, StartOk, FromSources,
      BetweenRegisters;
    SourcesAreRegisters(out[b], phiOuts[b], PhiMap(f.blocks[b].phiSrcs), out[f.succ[b][i]], copies);
    assert EdgeOk(out[b], Edge(PhiMap(f.blocks[b].phiSrcs), phiOuts[b], copies), out[f.succ[b][i]]);
  }

  // ----- The whole function -----

  /** What assignment establishes. */
  ghost predicate Assigned(f: Func, out: seq<Block>, code: seq<BlockCode>) {
    && |f.blocks| == |f.succ| == |f.pred| == |out| == |code|
    && forall b :: 0 <= b < |out| ==> BlockDone(f, out, code, b)
  }

  ghost predicate BlockDone(f: Func, out: seq<Block>, code: seq<BlockCode>, b: nat)
    requires b < |f.blocks| == |f.succ| == |f.pred| == |out| == |code|
  {
    && BlockOk(out[b]) && |out[b].trace| == |out[b].instrs| + 1
    && out[b].instrs == f.blocks[b].instrs && out[b].phis == f.blocks[b].phis && out[b].code == code[b].steps
    && (f.pred[b] == [] ==> forall k :: 0 <= k < |out[b].trace[0]| ==> out[b].trace[0][k] == map[])
    && |code[b].exits| == |f.succ[b]| && forall i :: 0 <= i < |f.succ[b]| ==> ExitOk(f, out, b, i, code[b].exits[i])
  }

  /** One step for every instruction, one parallel copy for every successor. */
  predicate HasShape(f: Func, b: nat, code: BlockCode)
    requires b < |f.blocks| == |f.succ|
  {
    |code.steps| == |f.blocks[b].instrs| && |code.exits| == |f.succ[b]|
  }

  lemma DoneHasShape(f: Func, out: seq<Block>, code: seq<BlockCode>, b: nat)
    requires b < |f.blocks| == |f.succ| == |f.pred| == |out| == |code| && BlockDone(f, out, code, b)
    ensures HasShape(f, b, code[b])
  {
    hide ExitOk, AllRecorded, Covers, StepOk, InRegisters;
  }

  /** Assigns registers to a function.  `ok` is false where some instruction finds no register. */
  method Assign(f: Func, hints: Hints, numRegs: RegFile -> nat) returns (ok: bool, code: seq<BlockCode>, ghost out: seq<Block>)
    requires f.Valid()
    ensures ok ==> Assigned(f, out, code) && forall b :: 0 <= b < |out| ==> AreSized(out[b].ras, numRegs)
    ensures ok ==> |code| == |f.blocks| == |f.succ| && forall b :: 0 <= b < |code| ==> HasShape(f, b, code[b])
  {
    hide Func.BlockValid, Func.EdgeValid, Passed, PerFile, AreSized, Maps, ExitOk, BlockDone, Flow.Function.Strict, Flow.Function.DefinedOnce;
    var live := L.ForFunction(ToFlow(f));
    code := [];
    var rasOf, liveIns, steps, phiOuts;
    ok, rasOf, liveIns, steps, phiOuts, out := FirstPasses(f, live, hints, numRegs);
    if !ok {
      return;
    }
    for b := 0 to |f.blocks|
      invariant |code| == b && forall c :: 0 <= c < b ==>
                  && code[c].steps == out[c].code && |code[c].exits| == |f.succ[c]|
                  && forall i :: 0 <= i < |f.succ[c]| ==> ExitOk(f, out, c, i, code[c].exits[i])
      invariant forall c :: 0 <= c < |out| ==> PerFile(rasOf[c]) && Maps(rasOf[c]) == Final(out[c])
    {
      var exits := Exits(f, live, b, rasOf[b], liveIns, phiOuts[b], out, phiOuts);
      code := code + [BlockCode(steps[b], exits)];
    }
    forall b | 0 <= b < |out|
      ensures BlockDone(f, out, code, b) && HasShape(f, b, code[b])
    {
      PassedIsDone(f, live, out, phiOuts, code, b);
      DoneHasShape(f, out, code, b);
    }
  }

  lemma PassedIsDone(f: Func, live: L.Live, out: seq<Block>, phiOuts: seq<map<nat, Src>>, code: seq<BlockCode>, b: nat)
    requires f.Valid() && |out| == |phiOuts| == |f.blocks| == |code| && b < |out| && Passed(f, live, out, phiOuts, b)
    requires code[b].steps == out[b].code && |code[b].exits| == |f.succ[b]|
    requires forall i :: 0 <= i < |f.succ[b]| ==> ExitOk(f, out, b, i, code[b].exits[i])
    ensures BlockDone(f, out, code, b)
  {
    hide Func.BlockValid, Func.EdgeValid, Func.Flowing, BlockOk, DistinctRegs, PhiOutFrom, LiveAt, Tracks, ExitOk;
  }

  // ----- What the allocated function does -----

  /** All the parallel copies at the end of a block, one after the other. */
  ghost predicate RunExits(exits: seq<seq<Copy>>, s: State, t: State) {
    if exits == [] then IsParallelCopy([], iset{}, s, t)
    else exists u: State :: IsParallelCopy(exits[0], iset{}, s, u) && RunExits(exits[1..], u, t)
  }

  lemma {:induction false} EmptyExits(exits: seq<seq<Copy>>, s: State, t: State)
    requires RunExits(exits, s, t) && forall i :: 0 <= i < |exits| ==> exits[i] == []
    ensures IsParallelCopy([], iset{}, s, t)
  {
    if exits != [] {
      var u :| IsParallelCopy(exits[0], iset{}, s, u) && RunExits(exits[1..], u, t);
      EmptyExits(exits[1..], u, t);
    }
  }

  lemma OneExit(copies: seq<Copy>, s: State, t: State)
    requires RunExits([copies], s, t)
    ensures IsParallelCopy(copies, iset{}, s, t)
  {
    var u :| IsParallelCopy(copies, iset{}, s, u) && RunExits([copies][1..], u, t);
    assert IsParallelCopy([], iset{}, u, t);
  }

  /** Whatever successor is taken, the copies at the end of the block amount to the copy for that one. */
  lemma ExitsCross(f: Func, out: seq<Block>, code: seq<BlockCode>, b: nat, i: nat, s: State, t: State)
    requires Assigned(f, out, code) && b < |out| && i < |f.succ[b]| && RunExits(code[b].exits, s, t)
    ensures i < |code[b].exits| && ExitOk(f, out, b, i, code[b].exits[i]) && IsParallelCopy(code[b].exits[i], iset{}, s, t)
  {
    hide BlockOk, IsParallelCopy, RunExits;
    assert BlockDone(f, out, code, b);
    if |f.succ[b]| == 1 {
      assert code[b].exits == [code[b].exits[0]];
      OneExit(code[b].exits[0], s, t);
    } else {
      EmptyExits(code[b].exits, s, t);
    }
  }

  /** Both programs go along a path from a block without predecessors: visit by visit the SSA program, with a
      value for each phi on every edge, and the allocated code, with all the copies at the end of each block. */
  ghost predicate Follows(f: Func, out: seq<Block>, code: seq<BlockCode>, m: (nat, nat) -> Meaning, path: seq<nat>, picks: seq<nat>, visits: seq<Visit>)
    requires Assigned(f, out, code)
  {
    && |path| == |visits| == |picks| + 1 && path[0] < |f.pred| && f.pred[path[0]] == []
    && (forall i :: 0 <= i < |path| ==> VisitsBlock(f, out, m, path[i], visits[i]))
    && forall i :: 0 <= i < |picks| ==> TakesEdge(f, out, code, path[i], picks[i], visits[i], visits[i + 1]) && path[i + 1] == f.succ[path[i]][picks[i]]
  }

  ghost predicate VisitsBlock(f: Func, out: seq<Block>, m: (nat, nat) -> Meaning, b: nat, v: Visit)
    requires |f.blocks| == |out|
  {
    && b < |out| && v.block == out[b] && v.meanings == seq(|f.blocks[b].instrs|, ip requires 0 <= ip => m(b, ip))
    && SsaRun(v.block.instrs, v.meanings, v.envs, |v.block.instrs|)
    && RegRun(v.block.instrs, v.meanings, v.block.code, v.states, v.copied, |v.block.instrs|)
  }

  ghost predicate TakesEdge(f: Func, out: seq<Block>, code: seq<BlockCode>, b: nat, pick: nat, v: Visit, w: Visit)
    requires |f.blocks| == |f.succ| == |out| == |code|
  {
    var n := |v.block.instrs|;
    && b < |out| && pick < |f.succ[b]| && |v.envs| > n && |v.states| > n && |w.envs| > 0 && |w.states| > 0
    && EdgeStep(w.block.phis, PhiMap(f.blocks[b].phiSrcs), v.envs[n], w.envs[0])
    && RunExits(code[b].exits, v.states[n], w.states[0])
  }

  /** Every instruction of the visit reads the same words in both programs. */
  ghost predicate ReadsSameWords(v: Visit) {
    forall i :: 0 <= i < |v.block.instrs| ==> ReadsAt(v, i)
  }

  ghost predicate ReadsAt(v: Visit, i: nat) {
    && i < |v.block.instrs| && i < |v.block.code| && i < |v.copied| && i < |v.envs| && |v.block.code[i].regs.srcs| == |v.block.instrs[i].srcs|
    && RegWords(v.block.instrs[i], v.block.code[i].regs, v.copied[i]) == SsaWords(v.block.instrs[i], v.envs[i])
    && RegPred(v.block.instrs[i], v.block.code[i].regs, v.copied[i]) == SsaPred(v.block.instrs[i], v.envs[i])
  }

  /** On every path through the function, whatever the instructions compute: at the start of every block the
      registers hold the values live there, and every instruction reads the words that the SSA program reads. */
  lemma {:induction false} AllocationKeepsMeaning(f: Func, out: seq<Block>, code: seq<BlockCode>, m: (nat, nat) -> Meaning, path: seq<nat>, picks: seq<nat>,
                                                  visits: seq<Visit>, n: nat)
    requires Assigned(f, out, code) && Follows(f, out, code, m, path, picks, visits) && n < |visits|
    ensures Agrees(visits[n]) && ReadsSameWords(visits[n])
  {
    hide Agrees, VisitOk, Crosses, SsaRun, RegRun, VisitsBlock, EdgeStep, RunExits, BlockOk, BlockDone, ReadsSameWords;
    assert VisitsBlock(f, out, m, path[n], visits[n]);
    VisitIsOk(f, out, code, m, path[n], visits[n]);
    if n == 0 {
      NothingToHold(f, out, code, path[0], visits[0]);
    } else {
      AllocationKeepsMeaning(f, out, code, m, path, picks, visits, n - 1);
      assert VisitsBlock(f, out, m, path[n - 1], visits[n - 1]);
      VisitIsOk(f, out, code, m, path[n - 1], visits[n - 1]);
      assert TakesEdge(f, out, code, path[n - 1], picks[n - 1], visits[n - 1], visits[n - 1 + 1]) && path[n - 1 + 1] == f.succ[path[n - 1]][picks[n - 1]];
      var e := EdgeCrossed(f, out, code, m, path[n - 1], picks[n - 1], visits[n - 1], visits[n]);
      CrossingKeepsValues(visits[n - 1], e, visits[n]);
    }
    VisitReads(visits[n]);
  }

  lemma VisitIsOk(f: Func, out: seq<Block>, code: seq<BlockCode>, m: (nat, nat) -> Meaning, b: nat, v: Visit)
    requires Assigned(f, out, code) && VisitsBlock(f, out, m, b, v)
    ensures VisitOk(v) && BlockDone(f, out, code, b) && v.block == out[b]
  {
    hide BlockOk, SsaRun, RegRun, ExitOk;
    assert BlockDone(f, out, code, b);
  }

  lemma NothingToHold(f: Func, out: seq<Block>, code: seq<BlockCode>, b: nat, v: Visit)
    requires Assigned(f, out, code) && b < |out| && BlockDone(f, out, code, b) && v.block == out[b] && f.pred[b] == [] && VisitOk(v)
    ensures Agrees(v)
  {
    hide SsaStepAt, RegStepAt, StepsOk, Covers, ExitOk, AllRecorded;
  }

  lemma EdgeCrossed(f: Func, out: seq<Block>, code: seq<BlockCode>, m: (nat, nat) -> Meaning, b: nat, pick: nat, v: Visit, w: Visit) returns (e: Edge)
    requires Assigned(f, out, code) && TakesEdge(f, out, code, b, pick, v, w) && VisitsBlock(f, out, m, b, v)
    requires VisitsBlock(f, out, m, f.succ[b][pick], w)
    ensures Crosses(v, e, w)
  {
    hide BlockOk, SsaRun, RegRun, IsParallelCopy, RunExits, EdgeStep, EdgeOk;
    var n := |v.block.instrs|;
    ExitsCross(f, out, code, b, pick, v.states[n], w.states[0]);
    var copies := code[b].exits[pick];
    var phiOut :| EdgeOk(out[b], Edge(PhiMap(f.blocks[b].phiSrcs), phiOut, copies), out[f.succ[b][pick]]);
    e := Edge(PhiMap(f.blocks[b].phiSrcs), phiOut, copies);
  }

  lemma VisitReads(v: Visit)
    requires VisitOk(v) && Agrees(v)
    ensures ReadsSameWords(v)
  {
    hide HoldsAll, Covers, SsaStep, RegStep, IsParallelCopy, StepOk, AllRecorded, ReadsAt;
    var block := v.block;
    forall i | 0 <= i < |block.instrs|
      ensures ReadsAt(v, i)
    {
      RunsUpTo(v, i);
      BlockKeepsValues(block.ras, block.trace, block.instrs, block.code, v.meanings, v.envs, v.states, v.copied, i);
      assert StepOk(block.ras, Before(block.trace, i), After(block.trace, i), block.instrs[i], block.code[i]);
      assert RegStepAt(block.instrs, v.meanings, block.code, v.states, v.copied, i);
      StepReads(block.ras, block.trace[i], block.trace[i + 1], block.instrs[i], block.code[i], v.envs[i], v.states[i], v.copied[i]);
      ReadsHere(v, i);
    }
  }

  lemma RunsUpTo(v: Visit, i: nat)
    requires VisitOk(v) && i <= |v.block.instrs|
    ensures SsaRun(v.block.instrs, v.meanings, v.envs, i) && RegRun(v.block.instrs, v.meanings, v.block.code, v.states, v.copied, i)
  {
    hide BlockOk, SsaStepAt, RegStepAt;
  }

  lemma ReadsHere(v: Visit, i: nat)
    requires i < |v.block.instrs| && i < |v.block.code| && i < |v.copied| && i < |v.envs| && |v.block.code[i].regs.srcs| == |v.block.instrs[i].srcs|
    requires RegWords(v.block.instrs[i], v.block.code[i].regs, v.copied[i]) == SsaWords(v.block.instrs[i], v.envs[i])
    requires RegPred(v.block.instrs[i], v.block.code[i].regs, v.copied[i]) == SsaPred(v.block.instrs[i], v.envs[i])
    ensures ReadsAt(v, i)
  {
  }
}
