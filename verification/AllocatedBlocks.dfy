/** Register assignment of whole blocks and across the edges between them
    (crates/deko-nak/src/assign_regs.rs). */
module AllocatedBlocks {
  import opened Machine
  import opened RegAllocation
  import opened VecRegAllocation
  import opened InstrAllocation
  import opened DstAllocation
  import opened AllocatedCode

  // ----- What dies at an instruction -----

  ghost predicate UsesUpTo(instr: Instr, n: nat, v: Ssa)
    requires n <= |instr.srcs|
  {
    instr.pred == Some(v) || exists i :: 0 <= i < n && Has(instr.srcs[i], v)
  }

  /** Adds the values of `vec` that are not live afterwards and not listed yet. */
  method AddKilled(killed0: seq<Ssa>, vec: seq<Ssa>, liveAfter: set<Ssa>) returns (killed: seq<Ssa>)
    requires DistinctElements(killed0)
    ensures DistinctElements(killed) && forall v :: v in killed <==> v in killed0 || (v in vec && v !in liveAfter)
  {
    killed := killed0;
    for c := 0 to |vec|
      invariant DistinctElements(killed) && forall v :: v in killed <==> v in killed0 || (v in vec[..c] && v !in liveAfter)
    {
      assert vec[..c + 1] == vec[..c] + [vec[c]];
      if vec[c] !in liveAfter && vec[c] !in killed {
        killed := killed + [vec[c]];
      }
    }
    assert vec[..|vec|] == vec;
  }

  /** The sources that are not live after the instruction, each once. */
  method SrcsKilled(instr: Instr, liveAfter: set<Ssa>) returns (killed: seq<Ssa>)
    ensures DistinctElements(killed) && forall v :: v in killed <==> Uses(instr, v) && v !in liveAfter
  {
    killed := [];
    if instr.pred.Some? {
      killed := AddKilled(killed, [instr.pred.value], liveAfter);
    }
    for i := 0 to |instr.srcs|
      invariant DistinctElements(killed) && forall v :: v in killed <==> UsesUpTo(instr, i, v) && v !in liveAfter
    {
      if instr.srcs[i].Vec? {
        killed := AddKilled(killed, instr.srcs[i].ssa, liveAfter);
      }
      assert forall v :: UsesUpTo(instr, i + 1, v) <==> UsesUpTo(instr, i, v) || Has(instr.srcs[i], v);
    }
  }

  ghost predicate DefinesUpTo(instr: Instr, n: nat, v: Ssa)
    requires n <= |instr.dsts|
  {
    exists i :: 0 <= i < n && Has(instr.dsts[i], v)
  }

  /** The destinations that are not live after the instruction, each once. */
  method DstsKilled(instr: Instr, liveAfter: set<Ssa>) returns (killed: seq<Ssa>)
    ensures DistinctElements(killed) && forall v :: v in killed <==> Defines(instr, v) && v !in liveAfter
  {
    killed := [];
    for i := 0 to |instr.dsts|
      invariant DistinctElements(killed) && forall v :: v in killed <==> DefinesUpTo(instr, i, v) && v !in liveAfter
    {
      if instr.dsts[i].Vec? {
        killed := AddKilled(killed, instr.dsts[i].ssa, liveAfter);
      }
      assert forall v :: DefinesUpTo(instr, i + 1, v) <==> DefinesUpTo(instr, i, v) || Has(instr.dsts[i], v);
    }
  }

  // ----- One block -----

  /** Liveness is right for a block: what an instruction uses is live before it, what it defines is new,
      and nothing becomes live or dead other than by definition and use. */
  ghost predicate LiveStep(instr: Instr, before: set<Ssa>, after: set<Ssa>) {
    && WellFormed(instr)
    && (forall v :: Uses(instr, v) ==> v in before)
    && (forall v :: Defines(instr, v) ==> v !in before)
    && (forall v :: v in after ==> v in before || Defines(instr, v))
    && (forall v :: v in before && !Uses(instr, v) ==> v in after)
  }

  function LiveBefore(liveIn: set<Ssa>, liveAfter: seq<set<Ssa>>, k: nat): set<Ssa>
    requires k <= |liveAfter|
  {
    if k == 0 then liveIn else liveAfter[k - 1]
  }

  ghost predicate LiveOk(instrs: seq<Instr>, liveIn: set<Ssa>, liveAfter: seq<set<Ssa>>) {
    |instrs| == |liveAfter| && forall k :: 0 <= k < |instrs| ==> LiveStep(instrs[k], LiveBefore(liveIn, liveAfter, k), liveAfter[k])
  }

  /** Exactly the live values of its file are in each allocator. */
  ghost predicate Tracks(ras: seq<RegAllocator>, maps: seq<map<Ssa, nat>>, live: set<Ssa>) {
    |maps| == |ras| && forall k, v {:trigger v in maps[k]} :: 0 <= k < |ras| ==> (v in maps[k] <==> v in live && v.file == ras[k].file)
  }

  /** The code made from one instruction: a parallel copy, then the instruction on registers. */
  datatype Step = Step(copies: seq<Copy>, regs: Regs)

  ghost predicate SubMaps(maps: seq<map<Ssa, nat>>, of: seq<map<Ssa, nat>>) {
    && |maps| == |of|
    && forall k :: 0 <= k < |maps| ==> Extends(maps[k], of[k])
  }

  ghost predicate StepOk(ras: seq<RegAllocator>, before: seq<map<Ssa, nat>>, after: seq<map<Ssa, nat>>, instr: Instr, step: Step) {
    exists mid, killed ::
      && |before| == |mid| == |ras| && DoneUpTo(ras, |ras|, before, mid, instr, killed, step.copies, step.regs)
      && SubMaps(after, mid)
  }

  lemma ReadyForFile(ra: RegAllocator, m: map<Ssa, nat>, instr: Instr, before: set<Ssa>, after: set<Ssa>, killed: seq<Ssa>)
    requires LiveStep(instr, before, after) && DistinctElements(killed) && forall v :: v in killed ==> Uses(instr, v)
    requires forall v :: v in m <==> v in before && v.file == ra.file
    ensures Ready(ra.file, m, instr, killed)
  {
  }

  /** Frees the values of the file that die where they are defined. */
  method FreeDsts(ra: RegAllocator, killed: seq<Ssa>)
    requires ra.Valid() && DistinctElements(killed) && forall v :: v in killed && v.file == ra.file ==> v in ra.ssaReg
    modifies ra
    ensures ra.Valid() && ra.ssaReg == old(ra.ssaReg) - Elements(killed)
  {
    hide RegAllocator.Valid;
    assert killed[..0] == [];
    for i := 0 to |killed|
      invariant ra.Valid() && ra.ssaReg == old(ra.ssaReg) - Elements(killed[..i])
    {
      NotYetPlaced(map[], killed, i);
      if killed[i].file == ra.file {
        var r := ra.FreeSsa(killed[i]);
      } else {
        ForeignNotHere(ra, killed[i]);
      }
    }
    assert killed[..|killed|] == killed;
  }

  lemma ForeignNotHere(ra: RegAllocator, v: Ssa)
    requires ra.Valid() && v.file != ra.file
    ensures v !in ra.ssaReg
  {
  }

  method FreeAllDsts(ras: seq<RegAllocator>, killed: seq<Ssa>)
    requires PerFile(ras) && DistinctElements(killed)
    requires forall k :: 0 <= k < |ras| ==> ras[k].Valid() && forall v :: v in killed && v.file == ras[k].file ==> v in ras[k].ssaReg
    modifies ras
    ensures forall k :: 0 <= k < |ras| ==> ras[k].Valid() && ras[k].ssaReg == old(ras[k].ssaReg) - Elements(killed)
  {
    hide RegAllocator.Valid;
    for k := 0 to |ras|
      invariant forall j :: 0 <= j < |ras| ==> ras[j].Valid()
      invariant forall j :: 0 <= j < k ==> ras[j].ssaReg == old(ras[j].ssaReg) - Elements(killed)
      invariant forall j :: k <= j < |ras| ==> ras[j].ssaReg == old(ras[j].ssaReg)
    {
      FreeDsts(ras[k], killed);
    }
  }

  /** Allocates one instruction of a block. */
  method AssignStep(instr: Instr, hints: seq<seq<nat>>, ras: seq<RegAllocator>, ghost before: set<Ssa>, after: set<Ssa>)
    returns (ok: bool, step: Step)
    requires PerFile(ras) && (forall k :: 0 <= k < |ras| ==> ras[k].Valid()) && Tracks(ras, Maps(ras), before)
    requires LiveStep(instr, before, after) && |hints| == |instr.dsts|
    modifies ras
    ensures ok ==> (forall k :: 0 <= k < |ras| ==> ras[k].Valid()) && Tracks(ras, Maps(ras), after)
    ensures ok ==> StepOk(ras, old(Maps(ras)), Maps(ras), instr, step)
  {
    hide RegAllocator.Valid, LiveStep, Ready, DoneUpTo;
    var srcsKilled := SrcsKilled(instr, after);
    var dstsKilled := DstsKilled(instr, after);
    forall k | 0 <= k < |ras|
      ensures Ready(ras[k].file, ras[k].ssaReg, instr, srcsKilled)
    {
      assert Maps(ras)[k] == ras[k].ssaReg;
      ReadyForFile(ras[k], ras[k].ssaReg, instr, before, after, srcsKilled);
    }
    var copies, regs;
    ok, copies, regs := AssignRegsInstr(instr, hints, srcsKilled, ras);
    step := Step(copies, regs);
    if !ok {
      return;
    }
    ghost var mid := Maps(ras);
    LiveMid(ras, old(Maps(ras)), mid, instr, srcsKilled, dstsKilled, before, after, copies, regs);
    assert forall k :: 0 <= k < |ras| ==> mid[k] == ras[k].ssaReg;
    FreeAllDsts(ras, dstsKilled);
    LiveEnd(ras, mid, Maps(ras), dstsKilled, instr, before, after);
  }

  lemma LiveMid(ras: seq<RegAllocator>, maps0: seq<map<Ssa, nat>>, mid: seq<map<Ssa, nat>>, instr: Instr, srcsKilled: seq<Ssa>, dstsKilled: seq<Ssa>,
                before: set<Ssa>, after: set<Ssa>, copies: seq<Copy>, regs: Regs)
    requires |maps0| == |mid| == |ras| && DoneUpTo(ras, |ras|, maps0, mid, instr, srcsKilled, copies, regs)
    requires Tracks(ras, maps0, before) && LiveStep(instr, before, after)
    requires forall v :: v in srcsKilled <==> Uses(instr, v) && v !in after
    requires forall v :: v in dstsKilled <==> Defines(instr, v) && v !in after
    ensures forall k, v {:trigger v in mid[k]} :: 0 <= k < |ras| ==> (v in mid[k] <==> v.file == ras[k].file && (v in after || v in dstsKilled))
  {
    forall k, v | 0 <= k < |ras|
      ensures v in mid[k] <==> v.file == ras[k].file && (v in after || v in dstsKilled)
    {
      assert FileCorrect(ras[k].file, ras[k].numRegs, maps0[k], mid[k], instr, srcsKilled, copies, regs);
      assert v in maps0[k] <==> v in before && v.file == ras[k].file;
    }
  }

  lemma LiveEnd(ras: seq<RegAllocator>, mid: seq<map<Ssa, nat>>, maps: seq<map<Ssa, nat>>, dstsKilled: seq<Ssa>, instr: Instr, before: set<Ssa>, after: set<Ssa>)
    requires |mid| == |maps| == |ras| && forall k :: 0 <= k < |ras| ==> maps[k] == mid[k] - Elements(dstsKilled)
    requires forall k, v {:trigger v in mid[k]} :: 0 <= k < |ras| ==> (v in mid[k] <==> v.file == ras[k].file && (v in after || v in dstsKilled))
    requires forall v :: v in dstsKilled <==> Defines(instr, v) && v !in after
    ensures Tracks(ras, maps, after) && SubMaps(maps, mid)
  {
    forall k, v | 0 <= k < |ras|
      ensures v in maps[k] <==> v in after && v.file == ras[k].file
    {
      assert v in maps[k] <==> v in mid[k] && v !in dstsKilled;
    }
  }

  ghost predicate AllInRange(ras: seq<RegAllocator>, maps: seq<map<Ssa, nat>>) {
    |maps| == |ras| && forall k :: 0 <= k < |ras| ==> InRange(maps[k], ras[k].numRegs)
  }

  lemma MapsInRange(ras: seq<RegAllocator>)
    requires forall k :: 0 <= k < |ras| ==> ras[k].Valid()
    ensures AllInRange(ras, Maps(ras))
  {
    hide RegAllocator.Valid;
    forall k | 0 <= k < |ras|
      ensures InRange(Maps(ras)[k], ras[k].numRegs)
    {
      MapInRange(ras[k]);
    }
  }

  ghost predicate StepsOk(ras: seq<RegAllocator>, trace: seq<seq<map<Ssa, nat>>>, instrs: seq<Instr>, code: seq<Step>, n: nat) {
    && n <= |instrs| && |code| == n && |trace| == n + 1 && AllInRange(ras, trace[0])
    && forall i :: 0 <= i < n ==> StepOk(ras, Before(trace, i), After(trace, i), instrs[i], code[i])
  }

  ghost function Before(trace: seq<seq<map<Ssa, nat>>>, i: nat): seq<map<Ssa, nat>>
    requires i < |trace|
  {
    trace[i]
  }

  ghost function After(trace: seq<seq<map<Ssa, nat>>>, i: nat): seq<map<Ssa, nat>>
    requires i + 1 < |trace|
  {
    trace[i + 1]
  }

  lemma StepsGrow(ras: seq<RegAllocator>, trace: seq<seq<map<Ssa, nat>>>, instrs: seq<Instr>, code: seq<Step>, n: nat, maps: seq<map<Ssa, nat>>, step: Step)
    requires StepsOk(ras, trace, instrs, code, n) && n < |instrs| && StepOk(ras, trace[n], maps, instrs[n], step)
    ensures StepsOk(ras, trace + [maps], instrs, code + [step], n + 1)
  {
    var trace' := trace + [maps];
    forall i | 0 <= i < n + 1
      ensures StepOk(ras, Before(trace', i), After(trace', i), instrs[i], (code + [step])[i])
    {
      if i < n {
        assert Before(trace', i) == Before(trace, i) && After(trace', i) == After(trace, i);
      }
    }
  }

  /** Allocates a block, instruction by instruction.  `trace` records where the values are in between. */
  method FirstPass(instrs: seq<Instr>, hints: seq<seq<seq<nat>>>, ghost liveIn: set<Ssa>, liveAfter: seq<set<Ssa>>, ras: seq<RegAllocator>)
    returns (ok: bool, code: seq<Step>, ghost trace: seq<seq<map<Ssa, nat>>>)
    requires PerFile(ras) && (forall k :: 0 <= k < |ras| ==> ras[k].Valid()) && Tracks(ras, Maps(ras), liveIn)
    requires LiveOk(instrs, liveIn, liveAfter) && |hints| == |instrs| && forall i :: 0 <= i < |instrs| ==> |hints[i]| == |instrs[i].dsts|
    modifies ras
    ensures ok ==> StepsOk(ras, trace, instrs, code, |instrs|) && trace[0] == old(Maps(ras)) && trace[|instrs|] == Maps(ras)
    ensures ok ==> (forall k :: 0 <= k < |ras| ==> ras[k].Valid()) && Tracks(ras, Maps(ras), LiveBefore(liveIn, liveAfter, |instrs|))
  {
    hide StepOk, StepsOk, Tracks, RegAllocator.Valid, Maps, LiveStep;
    code := [];
    trace := [Maps(ras)];
    MapsInRange(ras);
    NoSteps(ras, Maps(ras), instrs);
    for i := 0 to |instrs|
      invariant (forall k :: 0 <= k < |ras| ==> ras[k].Valid()) && Tracks(ras, Maps(ras), LiveBefore(liveIn, liveAfter, i))
      invariant StepsOk(ras, trace, instrs, code, i) && |trace| == i + 1 && trace[0] == old(Maps(ras)) && trace[i] == Maps(ras)
    {
      var step;
      ok, step := AssignStep(instrs[i], hints[i], ras, LiveBefore(liveIn, liveAfter, i), liveAfter[i]);
      if !ok {
        return;
      }
      StepsGrow(ras, trace, instrs, code, i, Maps(ras), step);
      code := code + [step];
      trace := trace + [Maps(ras)];
    }
    ok := true;
  }

  /** Values are in registers that exist, before and behind every instruction. */
  lemma TraceInRange(ras: seq<RegAllocator>, trace: seq<seq<map<Ssa, nat>>>, instrs: seq<Instr>, code: seq<Step>, i: nat)
    requires StepsOk(ras, trace, instrs, code, |instrs|) && i <= |instrs|
    ensures AllInRange(ras, trace[i])
  {
    if i > 0 {
      hide Extends;
      assert StepOk(ras, Before(trace, i - 1), After(trace, i - 1), instrs[i - 1], code[i - 1]);
      var mid: seq<map<Ssa, nat>>, killed: seq<Ssa> :|
        && |Before(trace, i - 1)| == |mid| == |ras| && DoneUpTo(ras, |ras|, Before(trace, i - 1), mid, instrs[i - 1], killed, code[i - 1].copies, code[i - 1].regs)
        && SubMaps(After(trace, i - 1), mid);
      forall k | 0 <= k < |ras|
        ensures InRange(trace[i][k], ras[k].numRegs)
      {
        assert FileCorrect(ras[k].file, ras[k].numRegs, trace[i - 1][k], mid[k], instrs[i - 1], killed, code[i - 1].copies, code[i - 1].regs);
        ExtendsInRange(trace[i][k], mid[k], ras[k].numRegs);
      }
    }
  }

  lemma ExtendsInRange(m: map<Ssa, nat>, of: map<Ssa, nat>, numRegs: nat)
    requires Extends(m, of) && InRange(of, numRegs)
    ensures InRange(m, numRegs)
  {
  }

  lemma NoSteps(ras: seq<RegAllocator>, maps: seq<map<Ssa, nat>>, instrs: seq<Instr>)
    requires AllInRange(ras, maps)
    ensures StepsOk(ras, [maps], instrs, [], 0)
  {
  }

  // ----- What a block computes -----

  /** What an instruction computes from the words of its sources and its predicate. */
  type Meaning = (seq<seq<Word>>, Word) -> seq<seq<Word>>

  function FileOf(o: Operand): RegFile {
    if o.Vec? && o.ssa != [] then o.ssa[0].file else GPR
  }

  ghost function SsaWords(instr: Instr, env: Env): seq<seq<Word>> {
    seq(|instr.srcs|, i requires 0 <= i < |instr.srcs| =>
      if instr.srcs[i].Vec? then seq(|instr.srcs[i].ssa|, c requires 0 <= c < |instr.srcs[i].ssa| => env(instr.srcs[i].ssa[c])) else [])
  }

  ghost function SsaPred(instr: Instr, env: Env): Word {
    if instr.pred.Some? then env(instr.pred.value) else 0
  }

  ghost function RegWords(instr: Instr, regs: Regs, t: State): seq<seq<Word>>
    requires |regs.srcs| == |instr.srcs|
  {
    seq(|instr.srcs|, i requires 0 <= i < |instr.srcs| =>
      if instr.srcs[i].Vec? then
        seq(|instr.srcs[i].ssa|, c requires 0 <= c < |instr.srcs[i].ssa| => t(CompReg(FileOf(instr.srcs[i]), regs.srcs[i], c)))
      else [])
  }

  ghost function RegPred(instr: Instr, regs: Regs, t: State): Word {
    if instr.pred.Some? then t(CompReg(instr.pred.value.file, regs.pred, 0)) else 0
  }

  function Result(words: seq<seq<Word>>, i: nat, c: nat): Word {
    if i < |words| && c < |words[i]| then words[i][c] else 0
  }

  /** One instruction of the SSA program. */
  ghost predicate SsaStep(instr: Instr, meaning: Meaning, env: Env, env': Env) {
    && Defining(instr, env, env')
    && forall i, c {:trigger instr.dsts[i].ssa[c]} :: 0 <= i < |instr.dsts| && instr.dsts[i].Vec? && 0 <= c < |instr.dsts[i].ssa| ==>
         env'(instr.dsts[i].ssa[c]) == Result(meaning(SsaWords(instr, env), SsaPred(instr, env)), i, c)
  }

  /** The same instruction on registers. */
  ghost predicate RegStep(instr: Instr, regs: Regs, meaning: Meaning, t: State, u: State) {
    && |regs.srcs| == |instr.srcs| && |regs.dsts| == |instr.dsts|
    && (forall i, c {:trigger CompReg(FileOf(instr.dsts[i]), regs.dsts[i], c)} ::
          0 <= i < |instr.dsts| && instr.dsts[i].Vec? && 0 <= c < |instr.dsts[i].ssa| ==>
            u(CompReg(FileOf(instr.dsts[i]), regs.dsts[i], c)) == Result(meaning(RegWords(instr, regs, t), RegPred(instr, regs, t)), i, c))
    && (forall r: Reg {:trigger u(r)} :: !IsDstReg(r.file, instr, regs, r) ==> u(r) == t(r))
  }

  ghost predicate HoldsAll(ras: seq<RegAllocator>, maps: seq<map<Ssa, nat>>, env: Env, s: State) {
    && |maps| == |ras|
    && (forall k :: 0 <= k < |ras| ==> Holds(ras[k].file, maps[k], env, s))
    && (forall k, v {:trigger v in maps[k]} :: 0 <= k < |ras| && v in maps[k] ==> v.file == ras[k].file)
  }

  /** There is an allocator for every file that occurs. */
  ghost predicate Covers(ras: seq<RegAllocator>, instr: Instr) {
    && WellFormed(instr)
    && (forall i :: 0 <= i < |instr.srcs| && instr.srcs[i].Vec? ==> HasFile(ras, FileOf(instr.srcs[i])))
    && (forall i :: 0 <= i < |instr.dsts| && instr.dsts[i].Vec? ==> HasFile(ras, FileOf(instr.dsts[i])))
    && (instr.pred.Some? ==> HasFile(ras, instr.pred.value.file))
  }

  ghost predicate HasFile(ras: seq<RegAllocator>, file: RegFile) {
    exists k :: 0 <= k < |ras| && ras[k].file == file
  }

  /** An instruction reads the same words in both programs. */
  lemma SameWords(ras: seq<RegAllocator>, instr: Instr, regs: Regs, env: Env, t: State)
    requires Covers(ras, instr) && |regs.srcs| == |instr.srcs|
    requires forall k :: 0 <= k < |ras| ==> ReadsAll(ras[k].file, instr, regs, env, t)
    ensures RegWords(instr, regs, t) == SsaWords(instr, env) && RegPred(instr, regs, t) == SsaPred(instr, env)
  {
    forall i | 0 <= i < |instr.srcs|
      ensures RegWords(instr, regs, t)[i] == SsaWords(instr, env)[i]
    {
      if instr.srcs[i].Vec? {
        var k :| 0 <= k < |ras| && ras[k].file == FileOf(instr.srcs[i]);
        assert OperandOk(instr.srcs[i]) && ReadsAll(ras[k].file, instr, regs, env, t);
        SameVec(ras[k].file, instr.srcs[i].ssa, regs.srcs[i], env, t);
      }
    }
    if instr.pred.Some? {
      var k :| 0 <= k < |ras| && ras[k].file == instr.pred.value.file;
      assert ReadsAll(ras[k].file, instr, regs, env, t);
      assert [instr.pred.value][0] == instr.pred.value;
    }
  }

  lemma SameVec(file: RegFile, vec: seq<Ssa>, reg: Option<nat>, env: Env, t: State)
    requires Reads(file, vec, reg, env, t)
    ensures seq(|vec|, c requires 0 <= c < |vec| => t(CompReg(file, reg, c))) == seq(|vec|, c requires 0 <= c < |vec| => env(vec[c]))
  {
    forall c | 0 <= c < |vec|
      ensures t(CompReg(file, reg, c)) == env(vec[c])
    {
    }
  }

  lemma SameResults(file: RegFile, instr: Instr, regs: Regs, meaning: Meaning, env: Env, env': Env, t: State, u: State)
    requires WellFormed(instr) && RegStep(instr, regs, meaning, t, u) && SsaStep(instr, meaning, env, env')
    requires RegWords(instr, regs, t) == SsaWords(instr, env) && RegPred(instr, regs, t) == SsaPred(instr, env)
    requires forall i :: 0 <= i < |instr.dsts| && InFile(instr.dsts[i], file) ==> regs.dsts[i].Some?
    ensures WritesDsts(file, instr, regs, env', t, u)
  {
    forall i | 0 <= i < |instr.dsts| && InFile(instr.dsts[i], file)
      ensures Reads(file, instr.dsts[i].ssa, regs.dsts[i], env', u)
    {
      forall c: nat | c < |instr.dsts[i].ssa|
        ensures u(CompReg(file, regs.dsts[i], c)) == env'(instr.dsts[i].ssa[c])
      {
        assert CompReg(FileOf(instr.dsts[i]), regs.dsts[i], c) == CompReg(file, regs.dsts[i], c);
      }
    }
  }

  /** One instruction: if the registers hold the live values before it, they hold those live after it. */
  lemma StepKeepsValues(ras: seq<RegAllocator>, before: seq<map<Ssa, nat>>, after: seq<map<Ssa, nat>>, instr: Instr, step: Step, meaning: Meaning,
                        env: Env, env': Env, s: State, t: State, u: State)
    requires StepOk(ras, before, after, instr, step) && Covers(ras, instr) && HoldsAll(ras, before, env, s)
    requires IsParallelCopy(step.copies, iset{}, s, t) && RegStep(instr, step.regs, meaning, t, u) && SsaStep(instr, meaning, env, env')
    ensures HoldsAll(ras, after, env', u)
  {
    hide IsParallelCopy, RegStep, SsaStep;
    var mid: seq<map<Ssa, nat>>, killed: seq<Ssa> :|
      && |before| == |mid| == |ras| && DoneUpTo(ras, |ras|, before, mid, instr, killed, step.copies, step.regs)
      && SubMaps(after, mid);
    forall k | 0 <= k < |ras|
      ensures ReadsAll(ras[k].file, instr, step.regs, env, t)
    {
      assert FileCorrect(ras[k].file, ras[k].numRegs, before[k], mid[k], instr, killed, step.copies, step.regs);
      SourcesAreRead(ras[k].file, before[k], step.copies, instr, step.regs, env, s, t);
    }
    SameWords(ras, instr, step.regs, env, t);
    forall k | 0 <= k < |ras|
      ensures Holds(ras[k].file, mid[k], env', u) && forall v: Ssa :: v in mid[k] ==> v.file == ras[k].file
    {
      FileKeepsValues(ras, k, before, mid, instr, killed, step, meaning, env, env', s, t, u);
    }
    HoldsSub(ras, mid, after, env', u);
  }

  /** What the instruction reads then. */
  lemma StepReads(ras: seq<RegAllocator>, before: seq<map<Ssa, nat>>, after: seq<map<Ssa, nat>>, instr: Instr, step: Step, env: Env, s: State, t: State)
    requires StepOk(ras, before, after, instr, step) && Covers(ras, instr) && HoldsAll(ras, before, env, s) && IsParallelCopy(step.copies, iset{}, s, t)
    ensures |step.regs.srcs| == |instr.srcs|
    ensures RegWords(instr, step.regs, t) == SsaWords(instr, env) && RegPred(instr, step.regs, t) == SsaPred(instr, env)
  {
    hide IsParallelCopy;
    var mid: seq<map<Ssa, nat>>, killed: seq<Ssa> :|
      && |before| == |mid| == |ras| && DoneUpTo(ras, |ras|, before, mid, instr, killed, step.copies, step.regs)
      && SubMaps(after, mid);
    forall k | 0 <= k < |ras|
      ensures ReadsAll(ras[k].file, instr, step.regs, env, t)
    {
      assert FileCorrect(ras[k].file, ras[k].numRegs, before[k], mid[k], instr, killed, step.copies, step.regs);
      SourcesAreRead(ras[k].file, before[k], step.copies, instr, step.regs, env, s, t);
    }
    SameWords(ras, instr, step.regs, env, t);
  }

  lemma HoldsSub(ras: seq<RegAllocator>, mid: seq<map<Ssa, nat>>, after: seq<map<Ssa, nat>>, env: Env, u: State)
    requires SubMaps(after, mid) && HoldsAll(ras, mid, env, u)
    ensures HoldsAll(ras, after, env, u)
  {
    forall k | 0 <= k < |ras|
      ensures Holds(ras[k].file, after[k], env, u)
    {
      assert Holds(ras[k].file, mid[k], env, u);
    }
  }

  lemma FileKeepsValues(ras: seq<RegAllocator>, k: nat, before: seq<map<Ssa, nat>>, mid: seq<map<Ssa, nat>>, instr: Instr, killed: seq<Ssa>, step: Step,
                        meaning: Meaning, env: Env, env': Env, s: State, t: State, u: State)
    requires |before| == |mid| == |ras| && k < |ras| && DoneUpTo(ras, |ras|, before, mid, instr, killed, step.copies, step.regs)
    requires HoldsAll(ras, before, env, s) && WellFormed(instr)
    requires IsParallelCopy(step.copies, iset{}, s, t) && RegStep(instr, step.regs, meaning, t, u) && SsaStep(instr, meaning, env, env')
    requires RegWords(instr, step.regs, t) == SsaWords(instr, env) && RegPred(instr, step.regs, t) == SsaPred(instr, env)
    ensures Holds(ras[k].file, mid[k], env', u) && forall v: Ssa :: v in mid[k] ==> v.file == ras[k].file
  {
    hide IsParallelCopy, RegStep, ArrivesAt;
    assert FileCorrect(ras[k].file, ras[k].numRegs, before[k], mid[k], instr, killed, step.copies, step.regs);
    SameResults(ras[k].file, instr, step.regs, meaning, env, env', t, u);
    InstrKeepsValues(ras[k].file, ras[k].numRegs, before[k], mid[k], instr, killed, step.copies, step.regs, env, env', s, t, u);
  }

  /** A run of the SSA code and a run of the register code of a block. */
  ghost predicate SsaRun(instrs: seq<Instr>, meanings: seq<Meaning>, envs: seq<Env>, n: nat) {
    && n <= |instrs| == |meanings| && |envs| > n
    && forall i :: 0 <= i < n ==> SsaStepAt(instrs, meanings, envs, i)
  }

  ghost predicate SsaStepAt(instrs: seq<Instr>, meanings: seq<Meaning>, envs: seq<Env>, i: nat)
    requires i < |instrs| == |meanings| && i + 1 < |envs|
  {
    SsaStep(instrs[i], meanings[i], envs[i], envs[i + 1])
  }

  ghost predicate RegRun(instrs: seq<Instr>, meanings: seq<Meaning>, code: seq<Step>, states: seq<State>, copied: seq<State>, n: nat) {
    && n <= |instrs| == |meanings| && |code| >= n && |states| > n && |copied| >= n
    && forall i :: 0 <= i < n ==> RegStepAt(instrs, meanings, code, states, copied, i)
  }

  ghost predicate RegStepAt(instrs: seq<Instr>, meanings: seq<Meaning>, code: seq<Step>, states: seq<State>, copied: seq<State>, i: nat)
    requires i < |instrs| == |meanings| && i < |code| && i + 1 < |states| && i < |copied|
  {
    && IsParallelCopy(code[i].copies, iset{}, states[i], copied[i])
    && RegStep(instrs[i], code[i].regs, meanings[i], copied[i], states[i + 1])
  }

  /** Every run of the allocated block follows the run of the SSA block, instruction by instruction. */
  lemma {:induction false} BlockKeepsValues(ras: seq<RegAllocator>, trace: seq<seq<map<Ssa, nat>>>, instrs: seq<Instr>, code: seq<Step>, meanings: seq<Meaning>,
                                            envs: seq<Env>, states: seq<State>, copied: seq<State>, n: nat)
    requires StepsOk(ras, trace, instrs, code, |instrs|) && forall i :: 0 <= i < |instrs| ==> Covers(ras, instrs[i])
    requires SsaRun(instrs, meanings, envs, n) && RegRun(instrs, meanings, code, states, copied, n)
    requires HoldsAll(ras, trace[0], envs[0], states[0])
    ensures HoldsAll(ras, trace[n], envs[n], states[n])
  {
    hide StepOk, Covers, HoldsAll, SsaStep, RegStep, IsParallelCopy;
    if n > 0 {
      BlockKeepsValues(ras, trace, instrs, code, meanings, envs, states, copied, n - 1);
      assert StepOk(ras, Before(trace, n - 1), After(trace, n - 1), instrs[n - 1], code[n - 1]);
      assert SsaStepAt(instrs, meanings, envs, n - 1) && RegStepAt(instrs, meanings, code, states, copied, n - 1);
      StepKeepsValues(ras, trace[n - 1], trace[n], instrs[n - 1], code[n - 1], meanings[n - 1], envs[n - 1], envs[n], states[n - 1], copied[n - 1], states[n]);
    }
  }
}
