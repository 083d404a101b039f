/** The allocated function with all parallel copies lowered to machine operations: what the whole of register
    assignment leaves behind (crates/deko-nak/src/assign_regs.rs, crates/deko-nak/src/lower_par_copies.rs,
    crates/deko-nak/src/lower_copy_swap.rs). */
module LoweredFunction {
  import opened Machine
  import opened RegAllocation
  import opened VecRegAllocation
  import opened InstrAllocation
  import opened DstAllocation
  import opened AllocatedCode
  import opened AllocatedBlocks
  import opened EdgeCopies
  import opened AssignRegs
  import opened AssignFunction
  import LPC = LowerParCopies
  import LCS = LowerCopySwap

  /** A block's instructions with the operations in front of each, and the operations at its end. */
  datatype LoweredBlock = LoweredBlock(steps: seq<seq<LCS.MachineOp>>, exits: seq<seq<LCS.MachineOp>>)

  /** The temporaries of parallel copies lie behind the registers that are given out. */
  function PCopyTmp(numRegs: RegFile -> nat, tmpGprs: nat): Option<LPC.Tmp> {
    if tmpGprs > 0 then Some(LPC.Tmp(numRegs(GPR), tmpGprs)) else None
  }

  ghost function TmpRegs(tmp: Option<LPC.Tmp>): iset<Reg> {
    LPC.ParCopy([], tmp).TmpRegs()
  }

  lemma RegisterIsNoTmp(ras: seq<RegAllocator>, numRegs: RegFile -> nat, tmpGprs: nat, r: Reg)
    requires IsRegister(ras, r) && AreSized(ras, numRegs)
    ensures r !in TmpRegs(PCopyTmp(numRegs, tmpGprs))
  {
  }

  // ----- Lowering -----

  ghost predicate Apart(copies: seq<Copy>, tmp: Option<LPC.Tmp>) {
    DistinctDsts(copies) && forall i :: 0 <= i < |copies| ==>
      copies[i].dst !in TmpRegs(tmp) && (copies[i].src.FromReg? ==> copies[i].src.reg !in TmpRegs(tmp))
  }

  /** Every parallel copy is lowered to operations that perform it. */
  ghost predicate IsLowered(copies: seq<seq<Copy>>, tmp: Option<LPC.Tmp>, ops: seq<seq<LCS.MachineOp>>) {
    |ops| == |copies| && forall i :: 0 <= i < |copies| ==> LCS.Performs(LPC.ParCopy(copies[i], tmp), ops[i])
  }

  /** Lowers some parallel copies.  Nothing comes out if one of them needs more temporaries. */
  method LowerCopies(copies: seq<seq<Copy>>, tmp: Option<LPC.Tmp>, sm: nat) returns (r: Option<seq<seq<LCS.MachineOp>>>)
    requires tmp.Some? ==> tmp.value.comps > 0
    requires forall i :: 0 <= i < |copies| ==> Apart(copies[i], tmp)
    ensures r.Some? ==> IsLowered(copies, tmp, r.value)
    ensures r.None? ==> exists i :: 0 <= i < |copies| && !LPC.ParCopy(copies[i], tmp).EnoughTmps()
  {
    hide LCS.Performs, DistinctDsts, LPC.ParCopy.EnoughTmps;
    var ops: seq<seq<LCS.MachineOp>> := [];
    for i := 0 to |copies|
      invariant |ops| == i && forall j :: 0 <= j < i ==> LCS.Performs(LPC.ParCopy(copies[j], tmp), ops[j])
    {
      assert Apart(copies[i], tmp);
      var lowered := LCS.LowerParCopy(LPC.ParCopy(copies[i], tmp), sm);
      if lowered.None? {
        return None;
      }
      ops := ops + [lowered.value];
    }
    return Some(ops);
  }

  function StepCopies(steps: seq<Step>): seq<seq<Copy>> {
    seq(|steps|, i requires 0 <= i < |steps| => steps[i].copies)
  }

  ghost predicate IsBlockLowered(code: BlockCode, tmp: Option<LPC.Tmp>, low: LoweredBlock) {
    IsLowered(StepCopies(code.steps), tmp, low.steps) && IsLowered(code.exits, tmp, low.exits)
  }

  /** Lowers all parallel copies of the allocated function. */
  method LowerFunction(f: Func, ghost out: seq<Block>, code: seq<BlockCode>, numRegs: RegFile -> nat, tmpGprs: nat, sm: nat)
    returns (r: Option<seq<LoweredBlock>>)
    requires Assigned(f, out, code) && forall b :: 0 <= b < |out| ==> AreSized(out[b].ras, numRegs)
    ensures r.Some? ==> |r.value| == |code| && forall b :: 0 <= b < |code| ==> IsBlockLowered(code[b], PCopyTmp(numRegs, tmpGprs), r.value[b])
    ensures r.None? ==> exists b :: 0 <= b < |code| && NeedsTmps(code[b], PCopyTmp(numRegs, tmpGprs))
  {
    hide BlockDone, IsLowered, PCopyTmp, Apart, AreSized, NeedsTmps;
    var tmp := PCopyTmp(numRegs, tmpGprs);
    assert tmp.Some? ==> tmp.value.comps > 0 by { TmpsThere(numRegs, tmpGprs); }
    var low: seq<LoweredBlock> := [];
    for b := 0 to |code|
      invariant |low| == b && forall c :: 0 <= c < b ==> IsBlockLowered(code[c], tmp, low[c])
    {
      BlockIsApart(f, out, code, numRegs, tmpGprs, b);
      var steps := LowerCopies(StepCopies(code[b].steps), tmp, sm);
      if steps.None? {
        StepNeedsTmps(code[b], tmp);
        return None;
      }
      var exits := LowerCopies(code[b].exits, tmp, sm);
      if exits.None? {
        ExitNeedsTmps(code[b], tmp);
        return None;
      }
      low := low + [LoweredBlock(steps.value, exits.value)];
    }
    return Some(low);
  }

  lemma TmpsThere(numRegs: RegFile -> nat, tmpGprs: nat)
    ensures PCopyTmp(numRegs, tmpGprs).Some? ==> PCopyTmp(numRegs, tmpGprs).value.comps > 0
  {
  }

  /** Some parallel copy of the block writes barriers or memory and would need two temporaries for it. */
  ghost predicate NeedsTmps(code: BlockCode, tmp: Option<LPC.Tmp>) {
    || (exists i :: 0 <= i < |code.steps| && !LPC.ParCopy(code.steps[i].copies, tmp).EnoughTmps())
    || (exists i :: 0 <= i < |code.exits| && !LPC.ParCopy(code.exits[i], tmp).EnoughTmps())
  }

  lemma StepNeedsTmps(code: BlockCode, tmp: Option<LPC.Tmp>)
    requires exists i :: 0 <= i < |code.steps| && !LPC.ParCopy(StepCopies(code.steps)[i], tmp).EnoughTmps()
    ensures NeedsTmps(code, tmp)
  {
    hide LPC.ParCopy.EnoughTmps;
    var i :| 0 <= i < |code.steps| && !LPC.ParCopy(StepCopies(code.steps)[i], tmp).EnoughTmps();
    assert StepCopies(code.steps)[i] == code.steps[i].copies;
  }

  lemma ExitNeedsTmps(code: BlockCode, tmp: Option<LPC.Tmp>)
    requires exists i :: 0 <= i < |code.exits| && !LPC.ParCopy(code.exits[i], tmp).EnoughTmps()
    ensures NeedsTmps(code, tmp)
  {
    hide LPC.ParCopy.EnoughTmps;
  }

  // ----- No operand is a temporary -----

  lemma BlockIsApart(f: Func, out: seq<Block>, code: seq<BlockCode>, numRegs: RegFile -> nat, tmpGprs: nat, b: nat)
    requires Assigned(f, out, code) && (forall c :: 0 <= c < |out| ==> AreSized(out[c].ras, numRegs)) && b < |code|
    ensures forall i :: 0 <= i < |code[b].steps| ==> Apart(StepCopies(code[b].steps)[i], PCopyTmp(numRegs, tmpGprs))
    ensures forall i :: 0 <= i < |code[b].exits| ==> Apart(code[b].exits[i], PCopyTmp(numRegs, tmpGprs))
  {
    hide BlockOk, Apart, AreSized, PCopyTmp, IsRegister;
    assert BlockDone(f, out, code, b);
    forall i | 0 <= i < |code[b].steps|
      ensures Apart(StepCopies(code[b].steps)[i], PCopyTmp(numRegs, tmpGprs))
    {
      StepIsApart(out[b], numRegs, tmpGprs, i);
    }
    forall i | 0 <= i < |code[b].exits|
      ensures Apart(code[b].exits[i], PCopyTmp(numRegs, tmpGprs))
    {
      assert ExitOk(f, out, b, i, code[b].exits[i]);
      ExitIsApart(out[b].ras, out[f.succ[b][i]].ras, code[b].exits[i], numRegs, tmpGprs);
    }
  }

  lemma StepIsApart(block: Block, numRegs: RegFile -> nat, tmpGprs: nat, i: nat)
    requires BlockOk(block) && AreSized(block.ras, numRegs) && i < |block.code|
    ensures Apart(block.code[i].copies, PCopyTmp(numRegs, tmpGprs))
  {
    hide Covers, AllRecorded, PCopyTmp, AreSized, IsRegister, AllInRange, InRegisters;
    assert StepOk(block.ras, Before(block.trace, i), After(block.trace, i), block.instrs[i], block.code[i]);
    StepAmong(block.ras, Before(block.trace, i), After(block.trace, i), block.instrs[i], block.code[i]);
    ExitIsApart(block.ras, block.ras, block.code[i].copies, numRegs, tmpGprs);
  }

  lemma StepAmong(ras: seq<RegAllocator>, before: seq<map<Ssa, nat>>, after: seq<map<Ssa, nat>>, instr: Instr, step: Step)
    requires StepOk(ras, before, after, instr, step)
    ensures DistinctDsts(step.copies) && BetweenRegisters(ras, ras, step.copies)
  {
    hide FileCorrect, IsRegister, DistinctDsts;
  }

  lemma ExitIsApart(from: seq<RegAllocator>, to: seq<RegAllocator>, copies: seq<Copy>, numRegs: RegFile -> nat, tmpGprs: nat)
    requires DistinctDsts(copies) && BetweenRegisters(from, to, copies) && AreSized(from, numRegs) && AreSized(to, numRegs)
    ensures Apart(copies, PCopyTmp(numRegs, tmpGprs))
  {
    hide PCopyTmp, TmpRegs, IsRegister, AreSized, DistinctDsts;
    var tmp := PCopyTmp(numRegs, tmpGprs);
    forall i | 0 <= i < |copies|
      ensures copies[i].dst !in TmpRegs(tmp) && (copies[i].src.FromReg? ==> copies[i].src.reg !in TmpRegs(tmp))
    {
      RegisterIsNoTmp(to, numRegs, tmpGprs, copies[i].dst);
      if copies[i].src.FromReg? {
        RegisterIsNoTmp(from, numRegs, tmpGprs, copies[i].src.reg);
      }
    }
  }

  /** The registers in which an instruction finds its sources and its guard, and those that it writes. */
  ghost predicate OperandsExist(ras: seq<RegAllocator>, instr: Instr, regs: Regs) {
    && |regs.srcs| == |instr.srcs| && |regs.dsts| == |instr.dsts|
    && (forall i, c: nat {:trigger CompReg(FileOf(instr.srcs[i]), regs.srcs[i], c)} ::
          0 <= i < |instr.srcs| && instr.srcs[i].Vec? && c < |instr.srcs[i].ssa| ==> IsRegister(ras, CompReg(FileOf(instr.srcs[i]), regs.srcs[i], c)))
    && (forall i, c: nat {:trigger CompReg(FileOf(instr.dsts[i]), regs.dsts[i], c)} ::
          0 <= i < |instr.dsts| && instr.dsts[i].Vec? && c < |instr.dsts[i].ssa| ==> IsRegister(ras, CompReg(FileOf(instr.dsts[i]), regs.dsts[i], c)))
    && (instr.pred.Some? ==> IsRegister(ras, CompReg(instr.pred.value.file, regs.pred, 0)))
  }

  lemma ArrivesInRegister(ras: seq<RegAllocator>, k: nat, start: map<Ssa, nat>, copies: seq<Copy>, vec: seq<Ssa>, reg: Option<nat>, c: nat)
    requires k < |ras| && AmongRegisters(ras, copies) && InRange(start, ras[k].numRegs)
    requires VecArrives(ras[k].file, start, copies, vec, reg) && c < |vec|
    ensures IsRegister(ras, CompReg(ras[k].file, reg, c))
  {
    var loc := Comp(reg.value, c);
    assert ArrivesAt(ras[k].file, start, copies, vec[c], loc);
    if RegCopy(ras[k].file, loc, start[vec[c]]) in copies {
      var i :| 0 <= i < |copies| && copies[i] == RegCopy(ras[k].file, loc, start[vec[c]]);
      assert IsRegister(ras, copies[i].dst);
    }
  }

  lemma PlacedInRegister(ras: seq<RegAllocator>, k: nat, final: map<Ssa, nat>, vec: seq<Ssa>, reg: Option<nat>, c: nat)
    requires k < |ras| && InRange(final, ras[k].numRegs) && DstPlaced(final, vec, reg) && c < |vec|
    ensures IsRegister(ras, CompReg(ras[k].file, reg, c))
  {
    assert final[vec[c]] == Comp(reg.value, c);
  }

  /** All operands of an allocated instruction are in registers that exist. */
  lemma StepOperands(ras: seq<RegAllocator>, before: seq<map<Ssa, nat>>, after: seq<map<Ssa, nat>>, instr: Instr, step: Step)
    requires StepOk(ras, before, after, instr, step) && Covers(ras, instr) && AllInRange(ras, before)
    ensures OperandsExist(ras, instr, step.regs)
  {
    hide IsRegister, AmongRegisters, DistinctDsts, SubMaps, InRange;
    var mid: seq<map<Ssa, nat>>, killed: seq<Ssa> :|
      && |before| == |mid| == |ras| && DoneUpTo(ras, |ras|, before, mid, instr, killed, step.copies, step.regs)
      && SubMaps(after, mid);
    forall i, c: nat | 0 <= i < |instr.srcs| && instr.srcs[i].Vec? && c < |instr.srcs[i].ssa|
      ensures IsRegister(ras, CompReg(FileOf(instr.srcs[i]), step.regs.srcs[i], c))
    {
      assert OperandOk(instr.srcs[i]);
      var k :| 0 <= k < |ras| && ras[k].file == FileOf(instr.srcs[i]);
      FileOperands(ras, k, before, mid, instr, killed, step);
      ArrivesInRegister(ras, k, before[k], step.copies, instr.srcs[i].ssa, step.regs.srcs[i], c);
    }
    forall i, c: nat | 0 <= i < |instr.dsts| && instr.dsts[i].Vec? && c < |instr.dsts[i].ssa|
      ensures IsRegister(ras, CompReg(FileOf(instr.dsts[i]), step.regs.dsts[i], c))
    {
      assert OperandOk(instr.dsts[i]);
      var k :| 0 <= k < |ras| && ras[k].file == FileOf(instr.dsts[i]);
      FileOperands(ras, k, before, mid, instr, killed, step);
      PlacedInRegister(ras, k, mid[k], instr.dsts[i].ssa, step.regs.dsts[i], c);
    }
    if instr.pred.Some? {
      var k :| 0 <= k < |ras| && ras[k].file == instr.pred.value.file;
      FileOperands(ras, k, before, mid, instr, killed, step);
      ArrivesInRegister(ras, k, before[k], step.copies, [instr.pred.value], step.regs.pred, 0);
    }
  }

  /** What is known about the operands of one file. */
  lemma FileOperands(ras: seq<RegAllocator>, k: nat, before: seq<map<Ssa, nat>>, mid: seq<map<Ssa, nat>>, instr: Instr, killed: seq<Ssa>, step: Step)
    requires k < |ras| == |before| == |mid| && DoneUpTo(ras, |ras|, before, mid, instr, killed, step.copies, step.regs) && AllInRange(ras, before)
    ensures AmongRegisters(ras, step.copies) && InRange(before[k], ras[k].numRegs) && InRange(mid[k], ras[k].numRegs)
    ensures |step.regs.srcs| == |instr.srcs| && |step.regs.dsts| == |instr.dsts|
    ensures forall i :: 0 <= i < |instr.srcs| && InFile(instr.srcs[i], ras[k].file) ==>
              VecArrives(ras[k].file, before[k], step.copies, instr.srcs[i].ssa, step.regs.srcs[i])
    ensures forall i :: 0 <= i < |instr.dsts| && InFile(instr.dsts[i], ras[k].file) ==> DstPlaced(mid[k], instr.dsts[i].ssa, step.regs.dsts[i])
    ensures instr.pred.Some? && instr.pred.value.file == ras[k].file ==>
              VecArrives(ras[k].file, before[k], step.copies, [instr.pred.value], step.regs.pred)
  {
    hide AmongRegisters, DistinctDsts, VecArrives, DstPlaced;
    assert FileCorrect(ras[k].file, ras[k].numRegs, before[k], mid[k], instr, killed, step.copies, step.regs);
  }

  // ----- Temporaries do not matter -----

  /** The state with the temporaries blanked out. */
  ghost function Masked(tmps: iset<Reg>, s: State): State {
    (r: Reg) => if r in tmps then 0 else s(r)
  }

  /** A parallel copy that clobbers temporaries is one that does not, if nobody looks at them. */
  lemma MaskedCopy(copies: seq<Copy>, tmp: Option<LPC.Tmp>, s: State, t: State)
    requires Apart(copies, tmp) && IsParallelCopy(copies, TmpRegs(tmp), s, t)
    ensures IsParallelCopy(copies, iset{}, Masked(TmpRegs(tmp), s), Masked(TmpRegs(tmp), t))
  {
    hide DistinctDsts, TmpRegs;
  }

  /** An instruction does the same on states in which the temporaries are blanked out. */
  lemma MaskedStep(ras: seq<RegAllocator>, instr: Instr, regs: Regs, meaning: Meaning, tmps: iset<Reg>, t: State, u: State)
    requires OperandsExist(ras, instr, regs) && RegStep(instr, regs, meaning, t, u) && forall r :: IsRegister(ras, r) ==> r !in tmps
    ensures RegStep(instr, regs, meaning, Masked(tmps, t), Masked(tmps, u))
    ensures RegWords(instr, regs, Masked(tmps, t)) == RegWords(instr, regs, t) && RegPred(instr, regs, Masked(tmps, t)) == RegPred(instr, regs, t)
  {
    hide IsRegister, IsDstReg;
    MaskedReads(ras, instr, regs, tmps, t);
  }

  lemma MaskedReads(ras: seq<RegAllocator>, instr: Instr, regs: Regs, tmps: iset<Reg>, t: State)
    requires OperandsExist(ras, instr, regs) && forall r :: IsRegister(ras, r) ==> r !in tmps
    ensures RegWords(instr, regs, Masked(tmps, t)) == RegWords(instr, regs, t) && RegPred(instr, regs, Masked(tmps, t)) == RegPred(instr, regs, t)
  {
    hide IsRegister;
    forall i | 0 <= i < |instr.srcs|
      ensures RegWords(instr, regs, Masked(tmps, t))[i] == RegWords(instr, regs, t)[i]
    {
      if instr.srcs[i].Vec? {
        forall c: nat | c < |instr.srcs[i].ssa|
          ensures Masked(tmps, t)(CompReg(FileOf(instr.srcs[i]), regs.srcs[i], c)) == t(CompReg(FileOf(instr.srcs[i]), regs.srcs[i], c))
        {
        }
      }
    }
  }

  lemma MaskedHolds(ras: seq<RegAllocator>, maps: seq<map<Ssa, nat>>, env: Env, tmps: iset<Reg>, s: State)
    requires AllInRange(ras, maps) && HoldsAll(ras, maps, env, Masked(tmps, s)) && forall r :: IsRegister(ras, r) ==> r !in tmps
    ensures HoldsAll(ras, maps, env, s)
  {
    hide IsRegister;
    forall k | 0 <= k < |ras|
      ensures Holds(ras[k].file, maps[k], env, s)
    {
      assert Holds(ras[k].file, maps[k], env, Masked(tmps, s));
      forall v | v in maps[k]
        ensures s(Reg(ras[k].file, maps[k][v])) == env(v)
      {
        assert InRange(maps[k], ras[k].numRegs);
        assert IsRegister(ras, Reg(ras[k].file, maps[k][v])) by { IsRegisterOf(ras, k, maps[k][v]); }
      }
    }
  }

  lemma IsRegisterOf(ras: seq<RegAllocator>, k: nat, reg: nat)
    requires k < |ras| && reg < ras[k].numRegs
    ensures IsRegister(ras, Reg(ras[k].file, reg))
  {
  }

  // ----- Runs of the lowered code -----

  /** One pass through a block: in front of each instruction its operations are executed. */
  ghost predicate LoweredRun(v: Visit, steps: seq<seq<LCS.MachineOp>>) {
    var n := |v.block.instrs|;
    && |v.meanings| == |v.block.code| == |steps| == n && |v.states| > n && |v.copied| >= n
    && forall i :: 0 <= i < n ==> LoweredStepAt(v, steps, i)
  }

  ghost predicate LoweredStepAt(v: Visit, steps: seq<seq<LCS.MachineOp>>, i: nat)
    requires i < |v.block.instrs| == |v.block.code| == |v.meanings| == |steps| && i + 1 < |v.states| && i < |v.copied|
  {
    && v.copied[i] == LCS.Steps(steps[i], v.states[i])
    && RegStep(v.block.instrs[i], v.block.code[i].regs, v.meanings[i], v.copied[i], v.states[i + 1])
  }

  /** The operations at the end of a block, for all of its successors. */
  function RunLowered(exits: seq<seq<LCS.MachineOp>>, s: State): State {
    if exits == [] then s else RunLowered(exits[1..], LCS.Steps(exits[0], s))
  }

  /** Both programs go along a path: the SSA program, and the lowered code, temporaries and all. */
  ghost predicate FollowsLowered(f: Func, out: seq<Block>, low: seq<LoweredBlock>, m: (nat, nat) -> Meaning, path: seq<nat>, picks: seq<nat>,
                                 visits: seq<Visit>)
    requires |f.blocks| == |f.succ| == |f.pred| == |out| == |low|
  {
    && |path| == |visits| == |picks| + 1 && path[0] < |f.pred| && f.pred[path[0]] == []
    && (forall i :: 0 <= i < |path| ==> VisitsLowered(f, out, low, m, path[i], visits[i]))
    && forall i :: 0 <= i < |picks| ==> TakesLowered(f, low, path[i], picks[i], visits[i], visits[i + 1]) && path[i + 1] == f.succ[path[i]][picks[i]]
  }

  ghost predicate VisitsLowered(f: Func, out: seq<Block>, low: seq<LoweredBlock>, m: (nat, nat) -> Meaning, b: nat, v: Visit)
    requires |f.blocks| == |out| == |low|
  {
    && b < |out| && v.block == out[b] && v.meanings == seq(|f.blocks[b].instrs|, ip requires 0 <= ip => m(b, ip))
    && SsaRun(v.block.instrs, v.meanings, v.envs, |v.block.instrs|) && LoweredRun(v, low[b].steps)
  }

  ghost predicate TakesLowered(f: Func, low: seq<LoweredBlock>, b: nat, pick: nat, v: Visit, w: Visit)
    requires |f.blocks| == |f.succ| == |low|
  {
    var n := |v.block.instrs|;
    && b < |low| && pick < |f.succ[b]| && |v.envs| > n && |v.states| > n && |w.envs| > 0 && |w.states| > 0
    && EdgeStep(w.block.phis, PhiMap(f.blocks[b].phiSrcs), v.envs[n], w.envs[0])
    && w.states[0] == RunLowered(low[b].exits, v.states[n])
  }

  ghost function MaskedAll(tmps: iset<Reg>, states: seq<State>): seq<State> {
    seq(|states|, i requires 0 <= i < |states| => Masked(tmps, states[i]))
  }

  ghost function MaskedVisit(tmps: iset<Reg>, v: Visit): Visit {
    v.(states := MaskedAll(tmps, v.states), copied := MaskedAll(tmps, v.copied))
  }

  ghost function MaskedVisits(tmps: iset<Reg>, visits: seq<Visit>): seq<Visit> {
    seq(|visits|, i requires 0 <= i < |visits| => MaskedVisit(tmps, visits[i]))
  }

  lemma {:induction false} MaskedExits(exits: seq<seq<Copy>>, tmp: Option<LPC.Tmp>, low: seq<seq<LCS.MachineOp>>, s: State)
    requires IsLowered(exits, tmp, low) && forall i :: 0 <= i < |exits| ==> Apart(exits[i], tmp)
    ensures RunExits(exits, Masked(TmpRegs(tmp), s), Masked(TmpRegs(tmp), RunLowered(low, s)))
    decreases |exits|
  {
    hide Apart, TmpRegs, LCS.Steps, Masked;
    var tmps := TmpRegs(tmp);
    if exits != [] {
      var u := LCS.Steps(low[0], s);
      assert LCS.Performs(LPC.ParCopy(exits[0], tmp), low[0]);
      Performed(exits[0], tmp, low[0], s);
      MaskedCopy(exits[0], tmp, s, u);
      MaskedExits(exits[1..], tmp, low[1..], u);
      assert IsParallelCopy(exits[0], iset{}, Masked(tmps, s), Masked(tmps, u)) && RunExits(exits[1..], Masked(tmps, u), Masked(tmps, RunLowered(low, s)));
    }
  }

  lemma Performed(copies: seq<Copy>, tmp: Option<LPC.Tmp>, ops: seq<LCS.MachineOp>, s: State)
    requires LCS.Performs(LPC.ParCopy(copies, tmp), ops)
    ensures IsParallelCopy(copies, TmpRegs(tmp), s, LCS.Steps(ops, s))
  {
  }

  lemma NoTmps(ras: seq<RegAllocator>, numRegs: RegFile -> nat, tmpGprs: nat)
    requires AreSized(ras, numRegs)
    ensures forall r :: IsRegister(ras, r) ==> r !in TmpRegs(PCopyTmp(numRegs, tmpGprs))
  {
    hide IsRegister, PCopyTmp, TmpRegs, AreSized;
    forall r | IsRegister(ras, r)
      ensures r !in TmpRegs(PCopyTmp(numRegs, tmpGprs))
    {
      RegisterIsNoTmp(ras, numRegs, tmpGprs, r);
    }
  }

  /** With the temporaries blanked out, a pass through the lowered block is one through the allocated block. */
  lemma MaskedRun(v: Visit, numRegs: RegFile -> nat, tmpGprs: nat, low: LoweredBlock, code: BlockCode)
    requires BlockOk(v.block) && AreSized(v.block.ras, numRegs) && IsBlockLowered(code, PCopyTmp(numRegs, tmpGprs), low)
    requires v.block.code == code.steps && LoweredRun(v, low.steps)
    ensures var w := MaskedVisit(TmpRegs(PCopyTmp(numRegs, tmpGprs)), v);
            RegRun(w.block.instrs, w.meanings, w.block.code, w.states, w.copied, |w.block.instrs|)
  {
    hide BlockOk, AreSized, PCopyTmp, TmpRegs, RegStep, LCS.Performs, LCS.Steps, Masked, IsParallelCopy;
    var tmp := PCopyTmp(numRegs, tmpGprs);
    var w := MaskedVisit(TmpRegs(tmp), v);
    forall i | 0 <= i < |v.block.instrs|
      ensures RegStepAt(w.block.instrs, w.meanings, w.block.code, w.states, w.copied, i)
    {
      assert LoweredStepAt(v, low.steps, i);
      assert StepCopies(code.steps)[i] == v.block.code[i].copies;
      Performed(v.block.code[i].copies, tmp, low.steps[i], v.states[i]);
      StepIsApart(v.block, numRegs, tmpGprs, i);
      MaskedCopy(v.block.code[i].copies, tmp, v.states[i], v.copied[i]);
      OperandsAt(v.block, i);
      NoTmps(v.block.ras, numRegs, tmpGprs);
      MaskedStep(v.block.ras, v.block.instrs[i], v.block.code[i].regs, v.meanings[i], TmpRegs(tmp), v.copied[i], v.states[i + 1]);
    }
  }

  lemma OperandsAt(block: Block, i: nat)
    requires BlockOk(block) && i < |block.instrs|
    ensures i < |block.code| && OperandsExist(block.ras, block.instrs[i], block.code[i].regs)
  {
    hide AllRecorded, Covers, StepOk, InRegisters;
    TraceInRange(block.ras, block.trace, block.instrs, block.code, i);
    assert StepOk(block.ras, Before(block.trace, i), After(block.trace, i), block.instrs[i], block.code[i]);
    StepOperands(block.ras, Before(block.trace, i), After(block.trace, i), block.instrs[i], block.code[i]);
  }

  ghost predicate IsFunctionLowered(f: Func, out: seq<Block>, code: seq<BlockCode>, numRegs: RegFile -> nat, tmpGprs: nat, low: seq<LoweredBlock>) {
    && Assigned(f, out, code) && (forall b :: 0 <= b < |out| ==> AreSized(out[b].ras, numRegs))
    && |low| == |code| && forall b :: 0 <= b < |code| ==> IsBlockLowered(code[b], PCopyTmp(numRegs, tmpGprs), low[b])
  }

  /** From SSA form to moves and exclusive ors.  `ok` is false where an instruction finds no register, or a
      parallel copy would need more temporaries. */
  method AssignAndLower(f: Func, hints: Hints, numRegs: RegFile -> nat, tmpGprs: nat, sm: nat)
    returns (ok: bool, code: seq<BlockCode>, low: seq<LoweredBlock>, ghost out: seq<Block>)
    requires f.Valid()
    ensures ok ==> IsFunctionLowered(f, out, code, numRegs, tmpGprs, low)
    ensures ok ==> |low| == |code| == |f.blocks| == |f.succ|
    ensures ok ==> forall b :: 0 <= b < |code| ==> HasShape(f, b, code[b]) && IsBlockLowered(code[b], PCopyTmp(numRegs, tmpGprs), low[b])
  {
    hide HasShape, Assigned, IsBlockLowered, NeedsTmps, Func.Valid;
    low := [];
    ok, code, out := AssignFunction.Assign(f, hints, numRegs);
    if ok {
      var lowered := LowerFunction(f, out, code, numRegs, tmpGprs, sm);
      ok := lowered.Some?;
      if ok {
        low := lowered.value;
      }
    }
  }

  lemma MaskedFollows(f: Func, out: seq<Block>, code: seq<BlockCode>, numRegs: RegFile -> nat, tmpGprs: nat, low: seq<LoweredBlock>,
                      m: (nat, nat) -> Meaning, path: seq<nat>, picks: seq<nat>, visits: seq<Visit>)
    requires IsFunctionLowered(f, out, code, numRegs, tmpGprs, low) && FollowsLowered(f, out, low, m, path, picks, visits)
    ensures Follows(f, out, code, m, path, picks, MaskedVisits(TmpRegs(PCopyTmp(numRegs, tmpGprs)), visits))
  {
    hide BlockOk, AreSized, PCopyTmp, TmpRegs, SsaRun, RegRun, LoweredRun, ExitOk, Masked, EdgeStep, RunExits, RunLowered, IsLowered;
    var tmps := TmpRegs(PCopyTmp(numRegs, tmpGprs));
    var masked := MaskedVisits(tmps, visits);
    forall i | 0 <= i < |path|
      ensures VisitsBlock(f, out, m, path[i], masked[i])
    {
      assert VisitsLowered(f, out, low, m, path[i], visits[i]);
      assert BlockDone(f, out, code, path[i]) && IsBlockLowered(code[path[i]], PCopyTmp(numRegs, tmpGprs), low[path[i]]);
      MaskedRun(visits[i], numRegs, tmpGprs, low[path[i]], code[path[i]]);
    }
    forall i | 0 <= i < |picks|
      ensures TakesEdge(f, out, code, path[i], picks[i], masked[i], masked[i + 1]) && path[i + 1] == f.succ[path[i]][picks[i]]
    {
      assert TakesLowered(f, low, path[i], picks[i], visits[i], visits[i + 1]) && path[i + 1] == f.succ[path[i]][picks[i]];
      assert IsBlockLowered(code[path[i]], PCopyTmp(numRegs, tmpGprs), low[path[i]]);
      BlockIsApart(f, out, code, numRegs, tmpGprs, path[i]);
      MaskedExits(code[path[i]].exits, PCopyTmp(numRegs, tmpGprs), low[path[i]].exits, visits[i].states[|visits[i].block.instrs|]);
    }
  }

  /** From SSA form to moves and exclusive ors: on every path through the function, whatever the instructions
      compute, the registers hold the values live at the start of every block, and every instruction reads the
      words that the SSA program reads. */
  lemma LoweringKeepsMeaning(f: Func, out: seq<Block>, code: seq<BlockCode>, numRegs: RegFile -> nat, tmpGprs: nat, low: seq<LoweredBlock>,
                             m: (nat, nat) -> Meaning, path: seq<nat>, picks: seq<nat>, visits: seq<Visit>, n: nat)
    requires IsFunctionLowered(f, out, code, numRegs, tmpGprs, low) && FollowsLowered(f, out, low, m, path, picks, visits) && n < |visits|
    ensures Agrees(visits[n]) && ReadsSameWords(visits[n])
  {
    hide BlockOk, AreSized, PCopyTmp, TmpRegs, SsaRun, LoweredRun, ExitOk, Agrees, ReadsSameWords, Follows, Masked;
    var tmps := TmpRegs(PCopyTmp(numRegs, tmpGprs));
    MaskedFollows(f, out, code, numRegs, tmpGprs, low, m, path, picks, visits);
    AllocationKeepsMeaning(f, out, code, m, path, picks, MaskedVisits(tmps, visits), n);
    assert VisitsLowered(f, out, low, m, path[n], visits[n]);
    assert BlockDone(f, out, code, path[n]);
    Unmasked(visits[n], numRegs, tmpGprs);
  }

  lemma Unmasked(v: Visit, numRegs: RegFile -> nat, tmpGprs: nat)
    requires BlockOk(v.block) && AreSized(v.block.ras, numRegs)
    requires var w := MaskedVisit(TmpRegs(PCopyTmp(numRegs, tmpGprs)), v); Agrees(w) && ReadsSameWords(w)
    ensures Agrees(v) && ReadsSameWords(v)
  {
    hide BlockOk, AreSized, PCopyTmp, TmpRegs, HoldsAll, Masked;
    var tmps := TmpRegs(PCopyTmp(numRegs, tmpGprs));
    var w := MaskedVisit(tmps, v);
    NoTmps(v.block.ras, numRegs, tmpGprs);
    StartInRange(v.block);
    MaskedHolds(v.block.ras, v.block.trace[0], v.envs[0], tmps, v.states[0]);
    forall i | 0 <= i < |v.block.instrs|
      ensures ReadsAt(v, i)
    {
      assert ReadsAt(w, i);
      OperandsAt(v.block, i);
      MaskedReads(v.block.ras, v.block.instrs[i], v.block.code[i].regs, tmps, v.copied[i]);
    }
  }

  lemma StartInRange(block: Block)
    requires BlockOk(block)
    ensures |block.trace| > 0 && AllInRange(block.ras, block.trace[0])
  {
    hide AllRecorded, Covers, StepOk, InRegisters, AllInRange;
  }
}
