/** What the register code computes, compared with the SSA code it was made from
    (crates/deko-nak/src/assign_regs.rs). */
module AllocatedCode {
  import opened Machine
  import opened RegAllocation
  import opened VecRegAllocation
  import opened InstrAllocation
  import opened DstAllocation

  /** The SSA program's state: a word for every value. */
  type Env = Ssa -> Word

  /** Every allocated value is in its register. */
  ghost predicate Holds(file: RegFile, m: map<Ssa, nat>, env: Env, s: State) {
    forall v :: v in m ==> s(Reg(file, m[v])) == env(v)
  }

  /** Component `c` of an operand's register. */
  function CompReg(file: RegFile, reg: Option<nat>, c: nat): Reg {
    Reg(file, if reg.Some? then Comp(reg.value, c) else 0)
  }

  /** The operand's registers contain its values. */
  ghost predicate Reads(file: RegFile, vec: seq<Ssa>, reg: Option<nat>, env: Env, s: State) {
    reg.Some? && forall c: nat {:trigger vec[c]} :: c < |vec| ==> s(CompReg(file, reg, c)) == env(vec[c])
  }

  ghost predicate ReadsAll(file: RegFile, instr: Instr, regs: Regs, env: Env, s: State) {
    && |regs.srcs| == |instr.srcs|
    && (forall i :: 0 <= i < |instr.srcs| && InFile(instr.srcs[i], file) ==> Reads(file, instr.srcs[i].ssa, regs.srcs[i], env, s))
    && (instr.pred.Some? && instr.pred.value.file == file ==> Reads(file, [instr.pred.value], regs.pred, env, s))
  }

  ghost predicate IsDstReg(file: RegFile, instr: Instr, regs: Regs, r: Reg) {
    exists i, c :: 0 <= i < |instr.dsts| && IsDstRegAt(file, instr, regs, i, c, r)
  }

  ghost predicate IsDstRegAt(file: RegFile, instr: Instr, regs: Regs, i: nat, c: nat, r: Reg) {
    && |regs.dsts| == |instr.dsts| && i < |instr.dsts| && InFile(instr.dsts[i], file) && c < |instr.dsts[i].ssa|
    && r == CompReg(file, regs.dsts[i], c)
  }

  /** The instruction's results land in its destination registers and nothing else changes. */
  ghost predicate WritesDsts(file: RegFile, instr: Instr, regs: Regs, env': Env, t: State, u: State) {
    && |regs.dsts| == |instr.dsts|
    && (forall i :: 0 <= i < |instr.dsts| && InFile(instr.dsts[i], file) ==> Reads(file, instr.dsts[i].ssa, regs.dsts[i], env', u))
    && (forall r: Reg {:trigger u(r)} :: r.file == file && !IsDstReg(file, instr, regs, r) ==> u(r) == t(r))
  }

  /** The SSA instruction changes only the values it defines. */
  ghost predicate Defining(instr: Instr, env: Env, env': Env) {
    forall v :: !Defines(instr, v) ==> env'(v) == env(v)
  }

  lemma ArrivedValue(file: RegFile, start: map<Ssa, nat>, copies: seq<Copy>, v: Ssa, loc: nat, env: Env, s: State, t: State)
    requires ArrivesAt(file, start, copies, v, loc) && Holds(file, start, env, s) && IsParallelCopy(copies, iset{}, s, t)
    ensures t(Reg(file, loc)) == env(v)
  {
    if RegCopy(file, loc, start[v]) in copies {
      var i :| 0 <= i < |copies| && copies[i] == RegCopy(file, loc, start[v]);
      assert t(copies[i].dst) == Eval(copies[i].src, s);
    }
  }

  /** When the instruction runs, its operands are in the registers it reads. */
  lemma SourcesAreRead(file: RegFile, start: map<Ssa, nat>, copies: seq<Copy>, instr: Instr, regs: Regs, env: Env, s: State, t: State)
    requires SourcesArrive(file, start, copies, instr, regs) && Holds(file, start, env, s) && IsParallelCopy(copies, iset{}, s, t)
    ensures ReadsAll(file, instr, regs, env, t)
  {
    forall i | 0 <= i < |instr.srcs| && InFile(instr.srcs[i], file)
      ensures Reads(file, instr.srcs[i].ssa, regs.srcs[i], env, t)
    {
      VecIsRead(file, start, copies, instr.srcs[i].ssa, regs.srcs[i], env, s, t);
    }
    if instr.pred.Some? && instr.pred.value.file == file {
      VecIsRead(file, start, copies, [instr.pred.value], regs.pred, env, s, t);
    }
  }

  lemma VecIsRead(file: RegFile, start: map<Ssa, nat>, copies: seq<Copy>, vec: seq<Ssa>, reg: Option<nat>, env: Env, s: State, t: State)
    requires VecArrives(file, start, copies, vec, reg) && Holds(file, start, env, s) && IsParallelCopy(copies, iset{}, s, t)
    ensures Reads(file, vec, reg, env, t)
  {
    forall c: nat | c < |vec|
      ensures t(CompReg(file, reg, c)) == env(vec[c])
    {
      ArrivedValue(file, start, copies, vec[c], Comp(reg.value, c), env, s, t);
    }
  }

  /** A surviving value's register is not among those that the instruction writes. */
  lemma SurvivorUntouched(file: RegFile, numRegs: nat, final: map<Ssa, nat>, instr: Instr, regs: Regs, v: Ssa)
    requires IsAssignment(file, numRegs, final) && DstsPlaced(file, final, instr, regs) && v in final && !Defines(instr, v)
    ensures !IsDstReg(file, instr, regs, Reg(file, final[v]))
  {
    DstRegsHoldDefined(file, final, instr, regs);
  }

  lemma DstRegsHoldDefined(file: RegFile, final: map<Ssa, nat>, instr: Instr, regs: Regs)
    requires DstsPlaced(file, final, instr, regs)
    ensures forall r {:trigger IsDstReg(file, instr, regs, r)} ::
              IsDstReg(file, instr, regs, r) ==> exists w :: w in final && final[w] == r.idx && Defines(instr, w)
  {
    forall r | IsDstReg(file, instr, regs, r)
      ensures exists w :: w in final && final[w] == r.idx && Defines(instr, w)
    {
      var i, c :| 0 <= i < |instr.dsts| && IsDstRegAt(file, instr, regs, i, c, r);
      DstRegHoldsDefined(file, final, instr, regs, i, c, r);
    }
  }

  lemma DstRegHoldsDefined(file: RegFile, final: map<Ssa, nat>, instr: Instr, regs: Regs, i: nat, c: nat, r: Reg)
    requires DstsPlaced(file, final, instr, regs) && IsDstRegAt(file, instr, regs, i, c, r)
    ensures instr.dsts[i].ssa[c] in final && final[instr.dsts[i].ssa[c]] == r.idx && Defines(instr, instr.dsts[i].ssa[c])
  {
    var vec := instr.dsts[i].ssa;
    assert DstPlaced(final, vec, regs.dsts[i]);
    assert final[vec[c]] == Comp(regs.dsts[i].value, c);
    assert Has(instr.dsts[i], vec[c]);
  }

  lemma DefinedIsWritten(file: RegFile, start: map<Ssa, nat>, final: map<Ssa, nat>, instr: Instr, killed: seq<Ssa>, regs: Regs, v: Ssa,
                         env': Env, t: State, u: State)
    requires WellFormed(instr) && DstsPlaced(file, final, instr, regs) && Defines(instr, v) && v.file == file
    requires WritesDsts(file, instr, regs, env', t, u)
    ensures v in final && u(Reg(file, final[v])) == env'(v)
  {
    var i :| 0 <= i < |instr.dsts| && Has(instr.dsts[i], v);
    assert OperandOk(instr.dsts[i]) && InFile(instr.dsts[i], file);
    var c :| 0 <= c < |instr.dsts[i].ssa| && instr.dsts[i].ssa[c] == v;
    assert DstPlaced(final, instr.dsts[i].ssa, regs.dsts[i]);
    assert final[instr.dsts[i].ssa[c]] == Comp(regs.dsts[i].value, c);
    assert Reads(file, instr.dsts[i].ssa, regs.dsts[i], env', u);
    assert u(CompReg(file, regs.dsts[i], c)) == env'(instr.dsts[i].ssa[c]);
  }

  /** What one register file contributes, in terms of all copies made before the instruction. */
  ghost predicate FileCorrect(file: RegFile, numRegs: nat, start: map<Ssa, nat>, final: map<Ssa, nat>, instr: Instr, killed: seq<Ssa>,
                              copies: seq<Copy>, regs: Regs)
  {
    && IsAssignment(file, numRegs, final) && LiveAfter(file, start, final, instr, killed)
    && SurvivorsArrive(file, start, final, copies) && SourcesArrive(file, start, copies, instr, regs) && DstsPlaced(file, final, instr, regs)
  }

  /** Running the copies and then the instruction takes a state that holds all live values to a state
      that holds all values live afterwards. */
  lemma InstrKeepsValues(file: RegFile, numRegs: nat, start: map<Ssa, nat>, final: map<Ssa, nat>, instr: Instr, killed: seq<Ssa>,
                         copies: seq<Copy>, regs: Regs, env: Env, env': Env, s: State, t: State, u: State)
    requires WellFormed(instr) && FileCorrect(file, numRegs, start, final, instr, killed, copies, regs)
    requires forall v :: v in start ==> v.file == file
    requires Holds(file, start, env, s) && IsParallelCopy(copies, iset{}, s, t)
    requires Defining(instr, env, env') && WritesDsts(file, instr, regs, env', t, u)
    ensures Holds(file, final, env', u)
  {
    forall v | v in final
      ensures u(Reg(file, final[v])) == env'(v)
    {
      assert (v in start && v !in killed) || (v.file == file && Defines(instr, v));
      if Defines(instr, v) {
        DefinedIsWritten(file, start, final, instr, killed, regs, v, env', t, u);
      } else {
        ArrivedValue(file, start, copies, v, final[v], env, s, t);
        SurvivorUntouched(file, numRegs, final, instr, regs, v);
      }
    }
  }

  // ----- All register files together -----

  ghost predicate NotInFile(copies: seq<Copy>, file: RegFile) {
    forall i :: 0 <= i < |copies| ==> copies[i].dst.file != file
  }

  ghost predicate SameInFile(instr: Instr, file: RegFile, a: Regs, b: Regs) {
    && |a.srcs| == |b.srcs| == |instr.srcs| && |a.dsts| == |b.dsts| == |instr.dsts|
    && (forall i :: 0 <= i < |instr.srcs| && InFile(instr.srcs[i], file) ==> a.srcs[i] == b.srcs[i])
    && (forall i :: 0 <= i < |instr.dsts| && InFile(instr.dsts[i], file) ==> a.dsts[i] == b.dsts[i])
    && (instr.pred.Some? && instr.pred.value.file == file ==> a.pred == b.pred)
  }

  lemma ArrivalAmongOthers(file: RegFile, start: map<Ssa, nat>, before: seq<Copy>, copies: seq<Copy>, after: seq<Copy>, v: Ssa, loc: nat)
    requires ArrivesAt(file, start, copies, v, loc) && NotInFile(before, file) && NotInFile(after, file)
    ensures ArrivesAt(file, start, before + copies + after, v, loc)
  {
    var all := before + copies + after;
    if RegCopy(file, loc, start[v]) in copies {
      var i :| 0 <= i < |copies| && copies[i] == RegCopy(file, loc, start[v]);
      assert all[|before| + i] == copies[i];
    } else {
      forall i | 0 <= i < |all|
        ensures all[i].dst != Reg(file, loc)
      {
        if |before| <= i < |before| + |copies| {
          assert all[i] == copies[i - |before|];
        }
      }
    }
  }

  lemma VecAmongOthers(file: RegFile, start: map<Ssa, nat>, before: seq<Copy>, copies: seq<Copy>, after: seq<Copy>, vec: seq<Ssa>, reg: Option<nat>)
    requires VecArrives(file, start, copies, vec, reg) && NotInFile(before, file) && NotInFile(after, file)
    ensures VecArrives(file, start, before + copies + after, vec, reg)
  {
    forall c: nat | c < |vec|
      ensures ArrivesAt(file, start, before + copies + after, vec[c], Comp(reg.value, c))
    {
      ArrivalAmongOthers(file, start, before, copies, after, vec[c], Comp(reg.value, c));
    }
  }

  /** Copies and operands of other files do not matter. */
  lemma CorrectAmongOthers(file: RegFile, numRegs: nat, start: map<Ssa, nat>, final: map<Ssa, nat>, instr: Instr, killed: seq<Ssa>,
                           before: seq<Copy>, copies: seq<Copy>, after: seq<Copy>, regs: Regs, regs': Regs)
    requires FileCorrect(file, numRegs, start, final, instr, killed, copies, regs)
    requires NotInFile(before, file) && NotInFile(after, file) && SameInFile(instr, file, regs, regs')
    ensures FileCorrect(file, numRegs, start, final, instr, killed, before + copies + after, regs')
  {
    var all := before + copies + after;
    forall v | v in start && v in final
      ensures ArrivesAt(file, start, all, v, final[v])
    {
      ArrivalAmongOthers(file, start, before, copies, after, v, final[v]);
    }
    SourcesAmongOthers(file, start, instr, before, copies, after, regs, regs');
    assert DstsPlaced(file, final, instr, regs');
  }

  lemma SourcesAmongOthers(file: RegFile, start: map<Ssa, nat>, instr: Instr, before: seq<Copy>, copies: seq<Copy>, after: seq<Copy>, regs: Regs, regs': Regs)
    requires SourcesArrive(file, start, copies, instr, regs)
    requires NotInFile(before, file) && NotInFile(after, file) && SameInFile(instr, file, regs, regs')
    ensures SourcesArrive(file, start, before + copies + after, instr, regs')
  {
    forall i | 0 <= i < |instr.srcs| && InFile(instr.srcs[i], file)
      ensures VecArrives(file, start, before + copies + after, instr.srcs[i].ssa, regs'.srcs[i])
    {
      VecAmongOthers(file, start, before, copies, after, instr.srcs[i].ssa, regs.srcs[i]);
    }
    if instr.pred.Some? && instr.pred.value.file == file {
      VecAmongOthers(file, start, before, copies, after, [instr.pred.value], regs.pred);
    }
  }

  /** Takes the registers of the operands of `file` from `b`, the others from `a`. */
  function Merge(instr: Instr, file: RegFile, a: Regs, b: Regs): (r: Regs)
    requires |a.srcs| == |b.srcs| == |instr.srcs| && |a.dsts| == |b.dsts| == |instr.dsts|
    ensures SameInFile(instr, file, b, r) && forall f :: f != file ==> SameInFile(instr, f, a, r)
  {
    Regs(if instr.pred.Some? && instr.pred.value.file == file then b.pred else a.pred,
         seq(|a.srcs|, i requires 0 <= i < |a.srcs| => if InFile(instr.srcs[i], file) then b.srcs[i] else a.srcs[i]),
         seq(|a.dsts|, i requires 0 <= i < |a.dsts| => if InFile(instr.dsts[i], file) then b.dsts[i] else a.dsts[i]))
  }

  /** One allocator per register file. */
  ghost predicate PerFile(ras: seq<RegAllocator>) {
    forall j, k :: 0 <= j < k < |ras| ==> ras[j] != ras[k] && ras[j].file != ras[k].file
  }

  ghost function Maps(ras: seq<RegAllocator>): (m: seq<map<Ssa, nat>>)
    reads ras
    ensures |m| == |ras|
  {
    seq(|ras|, k requires 0 <= k < |ras| reads ras => ras[k].ssaReg)
  }

  ghost predicate AllReady(ras: seq<RegAllocator>, instr: Instr, killed: seq<Ssa>)
    reads ras
  {
    forall k :: 0 <= k < |ras| ==> ras[k].Valid() && Ready(ras[k].file, ras[k].ssaReg, instr, killed)
  }

  /** One of the registers that the allocators give out. */
  ghost predicate IsRegister(ras: seq<RegAllocator>, r: Reg) {
    exists k :: 0 <= k < |ras| && ras[k].file == r.file && r.idx < ras[k].numRegs
  }

  /** The copies read and write such registers only. */
  ghost predicate AmongRegisters(ras: seq<RegAllocator>, copies: seq<Copy>) {
    forall i :: 0 <= i < |copies| ==> IsRegister(ras, copies[i].dst) && (copies[i].src.FromReg? ==> IsRegister(ras, copies[i].src.reg))
  }

  ghost predicate InRange(m: map<Ssa, nat>, numRegs: nat) {
    forall v :: v in m ==> m[v] < numRegs
  }

  lemma MoreAmongRegisters(ras: seq<RegAllocator>, n: nat, start: map<Ssa, nat>, copies: seq<Copy>, more: seq<Copy>)
    requires n < |ras| && AmongRegisters(ras, copies) && GoodCopies(ras[n].file, ras[n].numRegs, start, more) && InRange(start, ras[n].numRegs)
    ensures AmongRegisters(ras, copies + more)
  {
    forall i | 0 <= i < |more|
      ensures IsRegister(ras, more[i].dst) && (more[i].src.FromReg? ==> IsRegister(ras, more[i].src.reg))
    {
      assert GoodCopy(ras[n].file, ras[n].numRegs, start, more[i]);
    }
  }

  /** The first `n` files are done. */
  ghost predicate DoneUpTo(ras: seq<RegAllocator>, n: nat, maps0: seq<map<Ssa, nat>>, maps: seq<map<Ssa, nat>>, instr: Instr, killed: seq<Ssa>,
                           copies: seq<Copy>, regs: Regs)
    requires n <= |ras| == |maps0| == |maps|
  {
    && |regs.srcs| == |instr.srcs| && |regs.dsts| == |instr.dsts|
    && (forall k :: 0 <= k < n ==> FileCorrect(ras[k].file, ras[k].numRegs, maps0[k], maps[k], instr, killed, copies, regs))
    && (forall k :: n <= k < |ras| ==> maps[k] == maps0[k] && NotInFile(copies, ras[k].file))
    && DistinctDsts(copies) && AmongRegisters(ras, copies)
  }

  lemma DoneStep(ras: seq<RegAllocator>, n: nat, maps0: seq<map<Ssa, nat>>, maps: seq<map<Ssa, nat>>, instr: Instr, killed: seq<Ssa>,
                 copies: seq<Copy>, regs: Regs, final: map<Ssa, nat>, more: seq<Copy>, fileRegs: Regs)
    requires PerFile(ras) && n < |ras| == |maps0| == |maps| && DoneUpTo(ras, n, maps0, maps, instr, killed, copies, regs)
    requires Correct(ras[n].file, ras[n].numRegs, maps0[n], final, instr, killed, more, fileRegs) && InRange(maps0[n], ras[n].numRegs)
    ensures |fileRegs.srcs| == |instr.srcs| && |fileRegs.dsts| == |instr.dsts|
    ensures DoneUpTo(ras, n + 1, maps0, maps[n := final], instr, killed, copies + more, Merge(instr, ras[n].file, regs, fileRegs))
  {
    var regs' := Merge(instr, ras[n].file, regs, fileRegs);
    hide AmongRegisters, IsRegister;
    MoreAmongRegisters(ras, n, maps0[n], copies, more);
    CopiesInFile(ras[n].file, ras[n].numRegs, maps0[n], more);
    assert copies + more + [] == copies + more && [] + copies + more == copies + more;
    forall k | 0 <= k < n + 1
      ensures FileCorrect(ras[k].file, ras[k].numRegs, maps0[k], maps[n := final][k], instr, killed, copies + more, regs')
    {
      if k < n {
        CorrectAmongOthers(ras[k].file, ras[k].numRegs, maps0[k], maps[k], instr, killed, [], copies, more, regs, regs');
      } else {
        CorrectAmongOthers(ras[n].file, ras[n].numRegs, maps0[n], final, instr, killed, copies, more, [], fileRegs, regs');
      }
    }
    DistinctTogether(copies, more, ras[n].file);
  }

  lemma CopiesInFile(file: RegFile, numRegs: nat, start: map<Ssa, nat>, copies: seq<Copy>)
    requires GoodCopies(file, numRegs, start, copies)
    ensures (forall i :: 0 <= i < |copies| ==> copies[i].dst.file == file) && forall f :: f != file ==> NotInFile(copies, f)
  {
    forall i | 0 <= i < |copies|
      ensures copies[i].dst.file == file
    {
      assert GoodCopy(file, numRegs, start, copies[i]);
    }
  }

  lemma DistinctTogether(a: seq<Copy>, b: seq<Copy>, file: RegFile)
    requires DistinctDsts(a) && DistinctDsts(b) && NotInFile(a, file) && forall i :: 0 <= i < |b| ==> b[i].dst.file == file
    ensures DistinctDsts(a + b)
  {
  }

  lemma MapInRange(ra: RegAllocator)
    requires ra.Valid()
    ensures InRange(ra.ssaReg, ra.numRegs)
  {
  }

  /** Allocates one instruction: the operands of each file in turn, then frees what dies on definition. */
  method AssignRegsInstr(instr: Instr, hints: seq<seq<nat>>, srcsKilled: seq<Ssa>, ras: seq<RegAllocator>)
    returns (ok: bool, copies: seq<Copy>, regs: Regs)
    requires PerFile(ras) && AllReady(ras, instr, srcsKilled) && |hints| == |instr.dsts|
    modifies ras
    ensures ok ==> forall k :: 0 <= k < |ras| ==> ras[k].Valid()
    ensures ok ==> DoneUpTo(ras, |ras|, old(Maps(ras)), Maps(ras), instr, srcsKilled, copies, regs)
  {
    hide FileCorrect, Correct, RegAllocator.Valid, Ready;
    copies := [];
    regs := Regs(None, seq(|instr.srcs|, i => None), seq(|instr.dsts|, i => None));
    for k := 0 to |ras|
      invariant forall j :: 0 <= j < |ras| ==> ras[j].Valid()
      invariant forall j :: k <= j < |ras| ==> Ready(ras[j].file, ras[j].ssaReg, instr, srcsKilled)
      invariant DoneUpTo(ras, k, old(Maps(ras)), Maps(ras), instr, srcsKilled, copies, regs)
    {
      ghost var maps := Maps(ras);
      MapInRange(ras[k]);
      var more, fileRegs;
      ok, more, fileRegs := InstrAssignRegsFile(instr, hints, srcsKilled, ras[k]);
      if !ok {
        return;
      }
      assert Maps(ras) == maps[k := ras[k].ssaReg];
      DoneStep(ras, k, old(Maps(ras)), maps, instr, srcsKilled, copies, regs, ras[k].ssaReg, more, fileRegs);
      copies := copies + more;
      regs := Merge(instr, ras[k].file, regs, fileRegs);
    }
    ok := true;
  }
}
