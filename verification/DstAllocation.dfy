/** Registers for the destinations of one instruction, and the whole of it
    (crates/deko-nak/src/assign_regs.rs). */
module DstAllocation {
  import opened Machine
  import opened RegAllocation
  import opened VecRegAllocation
  import opened InstrAllocation

  // ----- Vector destinations -----

  ghost predicate PlanInRange(plan: seq<VecDst>, dstRegs: seq<Option<nat>>) {
    && (forall k :: 0 <= k < |plan| ==> plan[k].dst < |dstRegs|)
    && (forall j, k :: 0 <= j < k < |plan| ==> plan[j].dst != plan[k].dst)
  }

  /** The planned vectors consist of values that are nowhere yet. */
  ghost predicate PlanIsNew(plan: seq<VecDst>, file: RegFile, start: map<Ssa, nat>) {
    && (forall k, c {:trigger plan[k].ssa[c]} :: 0 <= k < |plan| && 0 <= c < |plan[k].ssa| ==> plan[k].ssa[c].file == file && plan[k].ssa[c] !in start)
    && (forall k :: 0 <= k < |plan| ==> DistinctElements(plan[k].ssa))
    && (forall j, k, v {:trigger v in plan[j].ssa, v in plan[k].ssa} :: 0 <= j < k < |plan| && v in plan[j].ssa ==> v !in plan[k].ssa)
  }

  ghost function PlanValues(plan: seq<VecDst>, n: nat): set<Ssa>
    requires n <= |plan|
  {
    if n == 0 then {} else PlanValues(plan, n - 1) + Elements(plan[n - 1].ssa)
  }

  lemma {:induction false} InPlanValues(plan: seq<VecDst>, n: nat, v: Ssa)
    requires n <= |plan|
    ensures v in PlanValues(plan, n) <==> exists k :: 0 <= k < n && v in plan[k].ssa
  {
    if n > 0 {
      InPlanValues(plan, n - 1, v);
    }
  }

  lemma PlanIsNewFrom(instr: Instr, file: RegFile, start: map<Ssa, nat>, killed: seq<Ssa>, plan: seq<VecDst>)
    requires Ready(file, start, instr, killed) && Lists(plan, instr, file, |instr.dsts|)
    ensures PlanIsNew(plan, file, start)
  {
    forall k, c | 0 <= k < |plan| && 0 <= c < |plan[k].ssa|
      ensures plan[k].ssa[c].file == file && plan[k].ssa[c] !in start
    {
      var o := instr.dsts[plan[k].dst];
      assert OperandOk(o) && Has(o, o.ssa[c]);
      assert Defines(instr, o.ssa[c]);
    }
    forall j, k, v | 0 <= j < k < |plan| && v in plan[j].ssa
      ensures v !in plan[k].ssa
    {
      assert Has(instr.dsts[plan[j].dst], v);
      assert Has(instr.dsts[plan[k].dst], v) <==> v in plan[k].ssa;
    }
  }

  /** The first `n` planned vectors are in their registers. */
  ghost predicate PlanHeld(w: View, plan: seq<VecDst>, dstRegs: seq<Option<nat>>, n: nat)
    requires n <= |plan|
  {
    forall k :: 0 <= k < n ==> PlanHeldAt(w, plan[k], dstRegs)
  }

  ghost predicate PlanHeldAt(w: View, d: VecDst, dstRegs: seq<Option<nat>>) {
    && d.dst < |dstRegs| && dstRegs[d.dst].Some? && Held(w, d.ssa, dstRegs[d.dst].value)
    && IsMultiple(dstRegs[d.dst].value, NextPowerOfTwo(|d.ssa|))
  }

  lemma PlanHeldStep(w: View, w': View, plan: seq<VecDst>, dstRegs: seq<Option<nat>>, n: nat, reg: nat)
    requires n < |plan| && PlanHeld(w, plan, dstRegs, n) && Grows(w, w') && PlanInRange(plan, dstRegs)
    requires Held(w', plan[n].ssa, reg) && IsMultiple(reg, NextPowerOfTwo(|plan[n].ssa|))
    ensures PlanHeld(w', plan, dstRegs[plan[n].dst := Some(reg)], n + 1)
  {
    forall k | 0 <= k < n + 1
      ensures PlanHeldAt(w', plan[k], dstRegs[plan[n].dst := Some(reg)])
    {
      if k < n {
        assert PlanHeldAt(w, plan[k], dstRegs);
        HeldStays(w, w', plan[k].ssa, dstRegs[plan[k].dst].value, |plan[k].ssa|);
      }
    }
  }

  lemma PlanHeldStays(w: View, w': View, plan: seq<VecDst>, dstRegs: seq<Option<nat>>)
    requires PlanHeld(w, plan, dstRegs, |plan|) && Grows(w, w')
    ensures PlanHeld(w', plan, dstRegs, |plan|)
  {
    forall k | 0 <= k < |plan|
      ensures PlanHeldAt(w', plan[k], dstRegs)
    {
      assert PlanHeldAt(w, plan[k], dstRegs);
      HeldStays(w, w', plan[k].ssa, dstRegs[plan[k].dst].value, |plan[k].ssa|);
    }
  }

  /** The planned registers from the `n`-th on are free. */
  ghost predicate PlanFree(plan: seq<VecDst>, used: set<nat>, numRegs: nat, n: nat) {
    && (forall k :: n <= k < |plan| ==> Sized(plan, used, numRegs, k))
    && (forall j, k :: n <= j < k < |plan| ==> Apart(plan[j], plan[k]))
  }

  lemma PlanFreeStep(plan: seq<VecDst>, used: set<nat>, numRegs: nat, n: nat)
    requires n < |plan| && PlanFree(plan, used, numRegs, n)
    ensures Sized(plan, used, numRegs, n)
    ensures PlanFree(plan, used + Range(plan[n].reg.value, |plan[n].ssa|), numRegs, n + 1)
  {
    assert Sized(plan, used, numRegs, n);
    var used' := used + Range(plan[n].reg.value, |plan[n].ssa|);
    forall k | n + 1 <= k < |plan|
      ensures Sized(plan, used', numRegs, k)
    {
      assert Sized(plan, used, numRegs, k) && Apart(plan[n], plan[k]);
      ApartUnset(used, plan[n], plan[k]);
    }
  }

  lemma ApartUnset(used: set<nat>, a: VecDst, b: VecDst)
    requires Apart(a, b) && RangeUnset(used, b.reg.value, |b.ssa|)
    ensures RangeUnset(used + Range(a.reg.value, |a.ssa|), b.reg.value, |b.ssa|)
  {
  }

  lemma NewAgainstPlan(plan: seq<VecDst>, file: RegFile, start: map<Ssa, nat>, keys0: set<Ssa>, n: nat)
    requires n < |plan| && PlanIsNew(plan, file, start)
    requires forall k, c {:trigger plan[k].ssa[c]} :: 0 <= k < |plan| && 0 <= c < |plan[k].ssa| ==> plan[k].ssa[c] !in keys0
    ensures forall c :: 0 <= c < |plan[n].ssa| ==> plan[n].ssa[c] !in keys0 + PlanValues(plan, n)
  {
    forall c | 0 <= c < |plan[n].ssa|
      ensures plan[n].ssa[c] !in PlanValues(plan, n)
    {
      assert plan[n].ssa[c] in plan[n].ssa;
      InPlanValues(plan, n, plan[n].ssa[c]);
    }
  }

  /** Gives the vector destinations the registers found for them beforehand. */
  method AssignVecDsts(plan: seq<VecDst>, vra: VecRegAllocator, dstRegs0: seq<Option<nat>>) returns (dstRegs: seq<Option<nat>>)
    requires vra.Inv() && PlanInRange(plan, dstRegs0) && PlanIsNew(plan, vra.ra.file, vra.start)
    requires PlanFree(plan, vra.ra.used, vra.ra.numRegs, 0) && vra.ra.ssaReg.Keys <= vra.start.Keys
    modifies vra, vra.ra
    ensures vra.Inv() && (old(vra.Tight()) ==> vra.Tight()) && Grows(old(vra.Now()), vra.Now())
    ensures vra.ra.pinned == old(vra.ra.pinned) && |dstRegs| == |dstRegs0|
    ensures Values(vra.Now()) == old(Values(vra.Now())) + PlanValues(plan, |plan|)
    ensures PlanHeld(vra.Now(), plan, dstRegs, |plan|)
  {
    hide Ok, Grows, Values, RegAllocator.Valid, Held, PlanIsNew, PlanHeld, PlanFree;
    GrowsSelf(vra.Now());
    NothingHeld(vra.Now(), plan, dstRegs0);
    dstRegs := dstRegs0;
    for k := 0 to |plan|
      invariant vra.Inv() && (old(vra.Tight()) ==> vra.Tight()) && Grows(old(vra.Now()), vra.Now())
      invariant vra.ra.pinned == old(vra.ra.pinned) && |dstRegs| == |dstRegs0|
      invariant vra.ra.ssaReg.Keys == old(vra.ra.ssaReg.Keys) + PlanValues(plan, k)
      invariant Values(vra.Now()) == old(Values(vra.Now())) + PlanValues(plan, k)
      invariant PlanFree(plan, vra.ra.used, vra.ra.numRegs, k) && PlanHeld(vra.Now(), plan, dstRegs, k)
    {
      ghost var before := vra.Now();
      PlanFreeStep(plan, vra.ra.used, vra.ra.numRegs, k);
      NextIsNew(plan, vra, old(vra.ra.ssaReg.Keys), k);
      var reg := plan[k].reg.value;
      vra.AssignPinVecReg(plan[k].ssa, reg);
      GrowsTrans(old(vra.Now()), before, vra.Now());
      PlanHeldStep(before, vra.Now(), plan, dstRegs, k, reg);
      dstRegs := dstRegs[plan[k].dst := Some(reg)];
    }
  }

  lemma NothingHeld(w: View, plan: seq<VecDst>, dstRegs: seq<Option<nat>>)
    ensures PlanHeld(w, plan, dstRegs, 0)
  {
  }

  lemma NextIsNew(plan: seq<VecDst>, vra: VecRegAllocator, keys0: set<Ssa>, k: nat)
    requires k < |plan| && PlanIsNew(plan, vra.ra.file, vra.start) && keys0 <= vra.start.Keys
    requires vra.ra.ssaReg.Keys == keys0 + PlanValues(plan, k)
    ensures vra.IsNew(plan[k].ssa)
  {
    NewAgainstPlan(plan, vra.ra.file, vra.start, keys0, k);
    assert DistinctElements(plan[k].ssa);
    forall c | 0 <= c < |plan[k].ssa|
      ensures plan[k].ssa[c].file == vra.ra.file && plan[k].ssa[c] !in vra.start && plan[k].ssa[c] !in vra.ra.ssaReg
    {
    }
  }

  /** Finds registers for the vector destinations one by one, pushing values out where necessary. */
  method AllocVecDsts(plan: seq<VecDst>, vra: VecRegAllocator, dstRegs0: seq<Option<nat>>) returns (ok: bool, dstRegs: seq<Option<nat>>)
    requires vra.Inv() && vra.Tight() && PlanInRange(plan, dstRegs0) && PlanIsNew(plan, vra.ra.file, vra.start)
    requires Values(vra.Now()) == vra.start.Keys
    modifies vra, vra.ra
    ensures ok ==> vra.Inv() && Grows(old(vra.Now()), vra.Now()) && |dstRegs| == |dstRegs0|
    ensures ok ==> vra.ra.pinned == old(vra.ra.pinned)
    ensures ok ==> Values(vra.Now()) == vra.start.Keys + PlanValues(plan, |plan|)
    ensures ok ==> PlanHeld(vra.Now(), plan, dstRegs, |plan|)
  {
    hide Ok, Grows, Values, RegAllocator.Valid, Held, PlanIsNew, PlanHeld;
    GrowsSelf(vra.Now());
    NothingHeld(vra.Now(), plan, dstRegs0);
    dstRegs := dstRegs0;
    for k := 0 to |plan|
      invariant vra.Inv() && vra.Tight() && Grows(old(vra.Now()), vra.Now())
      invariant vra.ra.pinned == old(vra.ra.pinned) && |dstRegs| == |dstRegs0|
      invariant Values(vra.Now()) == vra.start.Keys + PlanValues(plan, k)
      invariant PlanHeld(vra.Now(), plan, dstRegs, k)
    {
      ghost var before := vra.Now();
      NextIsNewHere(plan, vra, k);
      var found, reg := vra.AllocVector(plan[k].ssa);
      if !found {
        return false, dstRegs;
      }
      GrowsTrans(old(vra.Now()), before, vra.Now());
      ModIsMultiple(reg, NextPowerOfTwo(|plan[k].ssa|));
      PlanHeldStep(before, vra.Now(), plan, dstRegs, k, reg);
      dstRegs := dstRegs[plan[k].dst := Some(reg)];
    }
    ok := true;
  }

  lemma NextIsNewHere(plan: seq<VecDst>, vra: VecRegAllocator, k: nat)
    requires k < |plan| && PlanIsNew(plan, vra.ra.file, vra.start)
    requires Values(vra.Now()) == vra.start.Keys + PlanValues(plan, k)
    ensures vra.IsNew(plan[k].ssa)
  {
    NewAgainstPlan(plan, vra.ra.file, vra.start, vra.start.Keys, k);
    assert DistinctElements(plan[k].ssa);
    forall c | 0 <= c < |plan[k].ssa|
      ensures plan[k].ssa[c].file == vra.ra.file && plan[k].ssa[c] !in vra.start && plan[k].ssa[c] !in vra.ra.ssaReg
    {
      InValues(vra.Now(), plan[k].ssa[c]);
    }
  }

  // ----- Scalar destinations -----

  ghost function ScalarValues(dsts: seq<Operand>, file: RegFile, n: nat): set<Ssa>
    requires n <= |dsts|
  {
    if n == 0 then {}
    else ScalarValues(dsts, file, n - 1) + if InFile(dsts[n - 1], file) && IsScalar(dsts[n - 1]) then {dsts[n - 1].ssa[0]} else {}
  }

  lemma {:induction false} InScalarValues(dsts: seq<Operand>, file: RegFile, n: nat, v: Ssa)
    requires n <= |dsts|
    ensures v in ScalarValues(dsts, file, n) <==> exists k :: 0 <= k < n && InFile(dsts[k], file) && IsScalar(dsts[k]) && Has(dsts[k], v)
  {
    if n > 0 {
      InScalarValues(dsts, file, n - 1, v);
      if InFile(dsts[n - 1], file) && IsScalar(dsts[n - 1]) {
        assert Has(dsts[n - 1], v) <==> v == dsts[n - 1].ssa[0];
      }
    }
  }

  ghost predicate ScalarsPlaced(m: map<Ssa, nat>, dsts: seq<Operand>, file: RegFile, dstRegs: seq<Option<nat>>, n: nat)
    requires n <= |dsts| == |dstRegs|
  {
    forall k :: 0 <= k < n && InFile(dsts[k], file) && IsScalar(dsts[k]) ==>
      dstRegs[k].Some? && dsts[k].ssa[0] in m && m[dsts[k].ssa[0]] == dstRegs[k].value
  }

  ghost predicate Extends(m: map<Ssa, nat>, m': map<Ssa, nat>) {
    forall v :: v in m ==> v in m' && m'[v] == m[v]
  }

  ghost predicate ScalarsNew(dsts: seq<Operand>, file: RegFile, m: map<Ssa, nat>) {
    && (forall k :: 0 <= k < |dsts| && InFile(dsts[k], file) && IsScalar(dsts[k]) ==> dsts[k].ssa[0] !in m)
    && (forall j, k :: 0 <= j < k < |dsts| && InFile(dsts[j], file) && IsScalar(dsts[j]) && InFile(dsts[k], file) && IsScalar(dsts[k]) ==>
          dsts[j].ssa[0] != dsts[k].ssa[0])
  }

  lemma ScalarIsNew(dsts: seq<Operand>, file: RegFile, m: map<Ssa, nat>, n: nat)
    requires n < |dsts| && ScalarsNew(dsts, file, m) && InFile(dsts[n], file) && IsScalar(dsts[n])
    ensures dsts[n].ssa[0] !in m.Keys + ScalarValues(dsts, file, n)
  {
    InScalarValues(dsts, file, n, dsts[n].ssa[0]);
  }

  /** Gives each scalar destination a free register. */
  method AllocScalarDsts(dsts: seq<Operand>, hints: seq<seq<nat>>, ra: RegAllocator, dstRegs0: seq<Option<nat>>)
    returns (ok: bool, dstRegs: seq<Option<nat>>)
    requires ra.Valid() && |dsts| == |hints| == |dstRegs0| && ScalarsNew(dsts, ra.file, ra.ssaReg)
    modifies ra
    ensures ok ==> ra.Valid() && ra.pinned == old(ra.pinned) && Extends(old(ra.ssaReg), ra.ssaReg)
    ensures ok ==> ra.ssaReg.Keys == old(ra.ssaReg.Keys) + ScalarValues(dsts, ra.file, |dsts|)
    ensures ok ==> |dstRegs| == |dsts| && ScalarsPlaced(ra.ssaReg, dsts, ra.file, dstRegs, |dsts|)
    ensures ok ==> forall k :: 0 <= k < |dsts| && !IsScalar(dsts[k]) ==> dstRegs[k] == dstRegs0[k]
  {
    hide RegAllocator.Valid, ScalarsNew;
    dstRegs := dstRegs0;
    for i := 0 to |dsts|
      invariant ra.Valid() && ra.pinned == old(ra.pinned) && Extends(old(ra.ssaReg), ra.ssaReg)
      invariant ra.ssaReg.Keys == old(ra.ssaReg.Keys) + ScalarValues(dsts, ra.file, i)
      invariant |dstRegs| == |dsts| && ScalarsPlaced(ra.ssaReg, dsts, ra.file, dstRegs, i)
      invariant forall k :: 0 <= k < |dsts| && !IsScalar(dsts[k]) ==> dstRegs[k] == dstRegs0[k]
    {
      if InFile(dsts[i], ra.file) && IsScalar(dsts[i]) {
        ScalarIsNew(dsts, ra.file, old(ra.ssaReg), i);
        var reg := ra.AllocScalar(hints[i], dsts[i].ssa[0]);
        if reg.None? {
          return false, dstRegs;
        }
        dstRegs := dstRegs[i := reg];
      }
    }
    ok := true;
  }

  // ----- The whole instruction -----

  /** The copies read old registers of values and write distinct registers of the file. */
  ghost predicate GoodCopies(file: RegFile, numRegs: nat, start: map<Ssa, nat>, copies: seq<Copy>) {
    && DistinctDsts(copies)
    && forall i :: 0 <= i < |copies| ==> GoodCopy(file, numRegs, start, copies[i])
  }

  ghost predicate GoodCopy(file: RegFile, numRegs: nat, start: map<Ssa, nat>, c: Copy) {
    && c.dst.file == file && c.dst.idx < numRegs
    && exists v :: v in start && c.src == FromReg(Reg(file, start[v]))
  }

  /** Every component of `vec` is in its register from `reg` on once the copies have been made. */
  ghost predicate VecArrives(file: RegFile, start: map<Ssa, nat>, copies: seq<Copy>, vec: seq<Ssa>, reg: Option<nat>) {
    && reg.Some? && IsMultiple(reg.value, NextPowerOfTwo(|vec|))
    && forall c: nat {:trigger Comp(reg.value, c)} :: c < |vec| ==> ArrivesAt(file, start, copies, vec[c], Comp(reg.value, c))
  }

  ghost predicate SourcesArrive(file: RegFile, start: map<Ssa, nat>, copies: seq<Copy>, instr: Instr, regs: Regs) {
    && |regs.srcs| == |instr.srcs|
    && (forall i :: 0 <= i < |instr.srcs| && InFile(instr.srcs[i], file) ==> VecArrives(file, start, copies, instr.srcs[i].ssa, regs.srcs[i]))
    && (instr.pred.Some? && instr.pred.value.file == file ==> VecArrives(file, start, copies, [instr.pred.value], regs.pred))
  }

  ghost predicate DstPlaced(final: map<Ssa, nat>, vec: seq<Ssa>, reg: Option<nat>) {
    reg.Some? && IsMultiple(reg.value, NextPowerOfTwo(|vec|)) && InVector(final, vec, reg.value)
  }

  ghost predicate DstsPlaced(file: RegFile, final: map<Ssa, nat>, instr: Instr, regs: Regs) {
    && |regs.dsts| == |instr.dsts|
    && forall i :: 0 <= i < |instr.dsts| && InFile(instr.dsts[i], file) ==> DstPlaced(final, instr.dsts[i].ssa, regs.dsts[i])
  }

  /** The live values afterwards: the surviving ones and the new ones. */
  ghost predicate LiveAfter(file: RegFile, start: map<Ssa, nat>, final: map<Ssa, nat>, instr: Instr, killed: seq<Ssa>) {
    forall v :: v in final <==> (v in start && v !in killed) || (v.file == file && Defines(instr, v))
  }

  ghost predicate SurvivorsArrive(file: RegFile, start: map<Ssa, nat>, final: map<Ssa, nat>, copies: seq<Copy>) {
    forall v :: v in start && v in final ==> ArrivesAt(file, start, copies, v, final[v])
  }

  /** What has been achieved for one instruction and one register file. */
  ghost predicate Correct(file: RegFile, numRegs: nat, start: map<Ssa, nat>, final: map<Ssa, nat>, instr: Instr, killed: seq<Ssa>,
                          copies: seq<Copy>, regs: Regs)
  {
    && IsAssignment(file, numRegs, final) && GoodCopies(file, numRegs, start, copies)
    && LiveAfter(file, start, final, instr, killed) && SurvivorsArrive(file, start, final, copies)
    && SourcesArrive(file, start, copies, instr, regs) && DstsPlaced(file, final, instr, regs)
  }

  lemma CopiesAreGood(file: RegFile, numRegs: nat, start: map<Ssa, nat>, w: View)
    requires CopiesOk(file, numRegs, start, w)
    ensures GoodCopies(file, numRegs, start, w.copies)
  {
    forall i | 0 <= i < |w.copies|
      ensures GoodCopy(file, numRegs, start, w.copies[i])
    {
      assert CopyOk(file, numRegs, start, w.pinned, w.copies[i]);
    }
  }

  lemma SourcesDo(file: RegFile, start: map<Ssa, nat>, w: View, instr: Instr, regs: Regs)
    requires AllArrive(file, start, w, instr, regs)
    ensures SourcesArrive(file, start, w.copies, instr, regs)
  {
    forall i | 0 <= i < |instr.srcs| && InFile(instr.srcs[i], file)
      ensures VecArrives(file, start, w.copies, instr.srcs[i].ssa, regs.srcs[i])
    {
      assert SrcArrives(file, start, w, instr.srcs[i], regs.srcs[i]);
      ModIsMultiple(regs.srcs[i].value, NextPowerOfTwo(|instr.srcs[i].ssa|));
    }
    if instr.pred.Some? && instr.pred.value.file == file {
      MultipleOfOne(regs.pred.value);
    }
  }

  lemma MultipleOfOne(reg: nat)
    ensures IsMultiple(reg, NextPowerOfTwo(1))
  {
    assert reg == reg * 1;
  }

  lemma DstsAre(file: RegFile, w: View, final: map<Ssa, nat>, instr: Instr, plan: seq<VecDst>, vecRegs: seq<Option<nat>>, regs: Regs)
    requires |regs.dsts| == |vecRegs| == |instr.dsts| && Lists(plan, instr, file, |instr.dsts|)
    requires PlanHeld(w, plan, vecRegs, |plan|) && Extends(w.regs, final)
    requires ScalarsPlaced(final, instr.dsts, file, regs.dsts, |instr.dsts|)
    requires forall k :: 0 <= k < |instr.dsts| && !IsScalar(instr.dsts[k]) ==> regs.dsts[k] == vecRegs[k]
    ensures DstsPlaced(file, final, instr, regs)
  {
    forall i | 0 <= i < |instr.dsts| && InFile(instr.dsts[i], file)
      ensures DstPlaced(final, instr.dsts[i].ssa, regs.dsts[i])
    {
      if IsScalar(instr.dsts[i]) {
        MultipleOfOne(regs.dsts[i].value);
      } else {
        assert IsVecDst(instr.dsts[i], file) && Listed(plan, i);
        var k :| 0 <= k < |plan| && plan[k].dst == i;
        assert PlanHeldAt(w, plan[k], vecRegs);
        HeldInVector(w, final, plan[k].ssa, vecRegs[i].value);
      }
    }
  }

  lemma HeldInVector(w: View, final: map<Ssa, nat>, vec: seq<Ssa>, reg: nat)
    requires Held(w, vec, reg) && Extends(w.regs, final)
    ensures InVector(final, vec, reg)
  {
  }

  lemma DefinedValues(file: RegFile, instr: Instr, plan: seq<VecDst>, v: Ssa)
    requires WellFormed(instr) && Lists(plan, instr, file, |instr.dsts|)
    ensures v in PlanValues(plan, |plan|) + ScalarValues(instr.dsts, file, |instr.dsts|) <==> v.file == file && Defines(instr, v)
  {
    InPlanValues(plan, |plan|, v);
    InScalarValues(instr.dsts, file, |instr.dsts|, v);
    if v.file == file && Defines(instr, v) {
      var i :| 0 <= i < |instr.dsts| && Has(instr.dsts[i], v);
      assert OperandOk(instr.dsts[i]) && InFile(instr.dsts[i], file);
      if !IsScalar(instr.dsts[i]) {
        assert Listed(plan, i);
        var k :| 0 <= k < |plan| && plan[k].dst == i;
        assert v in plan[k].ssa;
      }
    }
    if k :| 0 <= k < |plan| && v in plan[k].ssa {
      assert OperandOk(instr.dsts[plan[k].dst]) && Has(instr.dsts[plan[k].dst], v);
    }
  }

  lemma ScalarsAreNew(file: RegFile, start: map<Ssa, nat>, instr: Instr, killed: seq<Ssa>, plan: seq<VecDst>, m: map<Ssa, nat>)
    requires Ready(file, start, instr, killed) && Lists(plan, instr, file, |instr.dsts|)
    requires m.Keys == start.Keys - Elements(killed) + PlanValues(plan, |plan|)
    ensures ScalarsNew(instr.dsts, file, m)
  {
    forall i | 0 <= i < |instr.dsts| && InFile(instr.dsts[i], file) && IsScalar(instr.dsts[i])
      ensures instr.dsts[i].ssa[0] !in m
    {
      ScalarNotPlanned(file, start, instr, killed, plan, i);
    }
    ScalarsDiffer(file, instr);
  }

  lemma ScalarsDiffer(file: RegFile, instr: Instr)
    requires WellFormed(instr)
    ensures forall j, k ::
              0 <= j < k < |instr.dsts| && InFile(instr.dsts[j], file) && IsScalar(instr.dsts[j]) && InFile(instr.dsts[k], file) && IsScalar(instr.dsts[k]) ==>
                instr.dsts[j].ssa[0] != instr.dsts[k].ssa[0]
  {
    forall j, k | 0 <= j < k < |instr.dsts| && InFile(instr.dsts[j], file) && IsScalar(instr.dsts[j]) && InFile(instr.dsts[k], file) && IsScalar(instr.dsts[k])
      ensures instr.dsts[j].ssa[0] != instr.dsts[k].ssa[0]
    {
      assert Has(instr.dsts[j], instr.dsts[j].ssa[0]) && Has(instr.dsts[k], instr.dsts[k].ssa[0]);
    }
  }

  lemma ScalarNotPlanned(file: RegFile, start: map<Ssa, nat>, instr: Instr, killed: seq<Ssa>, plan: seq<VecDst>, i: nat)
    requires Ready(file, start, instr, killed) && Lists(plan, instr, file, |instr.dsts|)
    requires i < |instr.dsts| && InFile(instr.dsts[i], file) && IsScalar(instr.dsts[i])
    ensures instr.dsts[i].ssa[0] !in start && instr.dsts[i].ssa[0] !in PlanValues(plan, |plan|)
  {
    var v := instr.dsts[i].ssa[0];
    assert Has(instr.dsts[i], v) && Defines(instr, v);
    InPlanValues(plan, |plan|, v);
    assert forall k :: 0 <= k < |plan| ==> (v in plan[k].ssa <==> Has(instr.dsts[plan[k].dst], v)) && plan[k].dst != i;
  }

  lemma LiveIs(file: RegFile, start: map<Ssa, nat>, m: map<Ssa, nat>, final: map<Ssa, nat>, instr: Instr, killed: seq<Ssa>, plan: seq<VecDst>)
    requires WellFormed(instr) && Lists(plan, instr, file, |instr.dsts|)
    requires m.Keys == start.Keys - Elements(killed) + PlanValues(plan, |plan|)
    requires final.Keys == m.Keys + ScalarValues(instr.dsts, file, |instr.dsts|)
    ensures LiveAfter(file, start, final, instr, killed)
  {
    forall v
      ensures v in final <==> (v in start && v !in killed) || (v.file == file && Defines(instr, v))
    {
      DefinedValues(file, instr, plan, v);
    }
  }

  lemma SurvivorsDo(file: RegFile, start: map<Ssa, nat>, w: View, final: map<Ssa, nat>, instr: Instr, killed: seq<Ssa>)
    requires Placed(file, start, w) && Extends(w.regs, final)
    requires forall v :: v in start && v in final ==> v in w.regs
    ensures SurvivorsArrive(file, start, final, w.copies)
  {
  }

  /** The last steps: everything that was pushed out finds a place, and scalar destinations are placed. */
  method Conclude(instr: Instr, hints: seq<seq<nat>>, vra: VecRegAllocator, ghost killed: seq<Ssa>, ghost plan: seq<VecDst>, regs0: Regs)
    returns (ok: bool, copies: seq<Copy>, regs: Regs)
    requires vra.Inv() && Ready(vra.ra.file, vra.start, instr, killed) && Lists(plan, instr, vra.ra.file, |instr.dsts|)
    requires AllArrive(vra.ra.file, vra.start, vra.Now(), instr, regs0) && PlanHeld(vra.Now(), plan, regs0.dsts, |plan|)
    requires |hints| == |instr.dsts| == |regs0.dsts|
    requires Values(vra.Now()) == vra.start.Keys - Elements(killed) + PlanValues(plan, |plan|)
    modifies vra, vra.ra
    ensures ok ==> vra.ra.Valid() && vra.ra.pinned == old(vra.ra.pinned)
    ensures ok ==> Correct(vra.ra.file, vra.ra.numRegs, vra.start, vra.ra.ssaReg, instr, killed, copies, regs)
  {
    hide Ready, Lists, AllArrive, PlanHeld, Held, Placed, Unmoved, EvictedOk, CopiesOk, Values, PlanValues, RegAllocator.Valid;
    ghost var w0 := vra.Now();
    ok := vra.Finish();
    copies := vra.pcopy;
    regs := regs0;
    if !ok {
      return;
    }
    ghost var w := vra.Now();
    AllArriveStays(vra.ra.file, vra.start, w0, w, instr, regs, regs);
    PlanHeldStays(w0, w, plan, regs.dsts);
    ScalarsAreNew(vra.ra.file, vra.start, instr, killed, plan, w.regs);
    var dstRegs;
    ok, dstRegs := AllocScalarDsts(instr.dsts, hints, vra.ra, regs.dsts);
    if !ok {
      return;
    }
    regs := regs.(dsts := dstRegs);
    AllArriveStays(vra.ra.file, vra.start, w, w, instr, regs0, regs);
    vra.ra.Injective();
    AllCorrect(vra.ra.file, vra.ra.numRegs, vra.start, w, vra.ra.ssaReg, instr, killed, plan, regs0.dsts, regs);
  }

  lemma AllCorrect(file: RegFile, numRegs: nat, start: map<Ssa, nat>, w: View, final: map<Ssa, nat>, instr: Instr, killed: seq<Ssa>,
                   plan: seq<VecDst>, vecRegs: seq<Option<nat>>, regs: Regs)
    requires Ok(file, numRegs, start, w) && IsAssignment(file, numRegs, final)
    requires Ready(file, start, instr, killed) && Lists(plan, instr, file, |instr.dsts|)
    requires AllArrive(file, start, w, instr, regs) && PlanHeld(w, plan, vecRegs, |plan|)
    requires w.regs.Keys == start.Keys - Elements(killed) + PlanValues(plan, |plan|)
    requires final.Keys == w.regs.Keys + ScalarValues(instr.dsts, file, |instr.dsts|) && Extends(w.regs, final)
    requires |regs.dsts| == |vecRegs| == |instr.dsts| && ScalarsPlaced(final, instr.dsts, file, regs.dsts, |instr.dsts|)
    requires forall k :: 0 <= k < |instr.dsts| && !IsScalar(instr.dsts[k]) ==> regs.dsts[k] == vecRegs[k]
    ensures Correct(file, numRegs, start, final, instr, killed, w.copies, regs)
  {
    hide AllArrive, PlanHeld, Lists, Held, Placed, CopiesOk, ScalarsPlaced;
    CopiesAreGood(file, numRegs, start, w);
    SourcesDo(file, start, w, instr, regs);
    DstsAre(file, w, final, instr, plan, vecRegs, regs);
    LiveIs(file, start, w.regs, final, instr, killed, plan);
    SurvivorsStay(file, start, w, final, instr, killed, plan);
    SurvivorsDo(file, start, w, final, instr, killed);
  }

  lemma SurvivorsStay(file: RegFile, start: map<Ssa, nat>, w: View, final: map<Ssa, nat>, instr: Instr, killed: seq<Ssa>, plan: seq<VecDst>)
    requires Ready(file, start, instr, killed) && LiveAfter(file, start, final, instr, killed)
    requires w.regs.Keys == start.Keys - Elements(killed) + PlanValues(plan, |plan|)
    ensures forall v :: v in start && v in final ==> v in w.regs
  {
    forall v | v in start && v in final
      ensures v in w.regs
    {
      assert !Defines(instr, v);
      assert v in start.Keys - Elements(killed);
    }
  }

  lemma UsedIsMapped(w: View, file: RegFile, start: map<Ssa, nat>, instr: Instr, killed: seq<Ssa>, regs: Regs, v: Ssa)
    requires Ready(file, start, instr, killed) && AllMapped(w, file, instr, regs) && Uses(instr, v) && v.file == file
    ensures v in w.regs
  {
    if instr.pred == Some(v) {
      assert [v][0] in w.regs;
    } else {
      var i :| 0 <= i < |instr.srcs| && Has(instr.srcs[i], v);
      assert OperandOk(instr.srcs[i]) && InFile(instr.srcs[i], file);
      assert MappedAt(w, instr.srcs[i], regs.srcs[i]);
      var c :| 0 <= c < |instr.srcs[i].ssa| && instr.srcs[i].ssa[c] == v;
    }
  }

  /** All that dies is in registers once the sources have been collected. */
  lemma KilledInRegs(w: View, file: RegFile, start: map<Ssa, nat>, instr: Instr, killed: seq<Ssa>, regs: Regs)
    requires Ready(file, start, instr, killed) && AllMapped(w, file, instr, regs)
    ensures forall v :: v in killed && v.file == file ==> v in w.regs
  {
    forall v | v in killed && v.file == file
      ensures v in w.regs
    {
      UsedIsMapped(w, file, start, instr, killed, regs, v);
    }
  }

  lemma ValuesAfterFreeing(file: RegFile, start: map<Ssa, nat>, w: View, w': View, killed: seq<Ssa>, base: set<Ssa>)
    requires EvictedOk(start, w) && (forall v :: v in start ==> v.file == file) && Values(w) == base
    requires forall v :: v in killed && v.file == file ==> v in w.regs
    requires w'.regs == w.regs - Elements(killed) && w'.evicted == w.evicted
    ensures Values(w') == base - Elements(killed)
  {
  }

  lemma PlanSurvives(file: RegFile, start: map<Ssa, nat>, instr: Instr, killed: seq<Ssa>, plan: seq<VecDst>)
    requires Ready(file, start, instr, killed) && PlanIsNew(plan, file, start)
    ensures forall k, c {:trigger plan[k].ssa[c]} :: 0 <= k < |plan| && 0 <= c < |plan[k].ssa| ==> plan[k].ssa[c] !in killed
    ensures start.Keys + PlanValues(plan, |plan|) - Elements(killed) == start.Keys - Elements(killed) + PlanValues(plan, |plan|)
  {
    forall k, c | 0 <= k < |plan| && 0 <= c < |plan[k].ssa|
      ensures plan[k].ssa[c] !in killed
    {
    }
    forall v | v in PlanValues(plan, |plan|)
      ensures v !in Elements(killed)
    {
      InPlanValues(plan, |plan|, v);
    }
  }

  lemma PlanHeldAfterFree(w: View, w': View, plan: seq<VecDst>, dstRegs: seq<Option<nat>>, killed: seq<Ssa>)
    requires PlanHeld(w, plan, dstRegs, |plan|) && w'.regs == w.regs - Elements(killed) && w'.pinned == w.pinned
    requires forall k, c {:trigger plan[k].ssa[c]} :: 0 <= k < |plan| && 0 <= c < |plan[k].ssa| ==> plan[k].ssa[c] !in killed
    ensures PlanHeld(w', plan, dstRegs, |plan|)
  {
    forall k | 0 <= k < |plan|
      ensures PlanHeldAt(w', plan[k], dstRegs)
    {
      assert PlanHeldAt(w, plan[k], dstRegs);
      HeldAfterFree(w, w', plan[k].ssa, dstRegs[plan[k].dst].value, killed);
    }
  }

  lemma HeldAfterFree(w: View, w': View, vec: seq<Ssa>, reg: nat, killed: seq<Ssa>)
    requires Held(w, vec, reg) && w'.regs == w.regs - Elements(killed) && w'.pinned == w.pinned
    requires forall c :: 0 <= c < |vec| ==> vec[c] !in killed
    ensures Held(w', vec, reg)
  {
  }

  /** Frees the dying sources and concludes, when all vector destinations have been placed. */
  method FreeAndConclude(instr: Instr, hints: seq<seq<nat>>, vra: VecRegAllocator, killed: seq<Ssa>, ghost plan: seq<VecDst>, regs0: Regs)
    returns (ok: bool, copies: seq<Copy>, regs: Regs)
    requires vra.Inv() && Ready(vra.ra.file, vra.start, instr, killed) && Lists(plan, instr, vra.ra.file, |instr.dsts|)
    requires AllMapped(vra.Now(), vra.ra.file, instr, regs0) && PlanHeld(vra.Now(), plan, regs0.dsts, |plan|)
    requires |hints| == |instr.dsts| == |regs0.dsts|
    requires Values(vra.Now()) == vra.start.Keys + PlanValues(plan, |plan|)
    modifies vra, vra.ra
    ensures ok ==> vra.ra.Valid()
    ensures ok ==> Correct(vra.ra.file, vra.ra.numRegs, vra.start, vra.ra.ssaReg, instr, killed, copies, regs)
  {
    hide Ready, Lists, AllArrive, PlanHeld, Held, Placed, Unmoved, EvictedOk, CopiesOk, Values, PlanValues, RegAllocator.Valid, AllMapped, Correct, PlanIsNew;
    ghost var w0 := vra.Now();
    AllMappedArrive(vra.ra.file, vra.start, w0, instr, killed, regs0);
    KilledInRegs(w0, vra.ra.file, vra.start, instr, killed, regs0);
    KilledDistinct(vra.ra.file, vra.start, instr, killed);
    vra.FreeKilled(killed);
    ghost var w1 := vra.Now();
    AllArriveStays(vra.ra.file, vra.start, w0, w1, instr, regs0, regs0);
    ValuesAfterFreeing(vra.ra.file, vra.start, w0, w1, killed, vra.start.Keys + PlanValues(plan, |plan|));
    PlanIsNewFrom(instr, vra.ra.file, vra.start, killed, plan);
    PlanSurvives(vra.ra.file, vra.start, instr, killed, plan);
    PlanHeldAfterFree(w0, w1, plan, regs0.dsts, killed);
    ok, copies, regs := Conclude(instr, hints, vra, killed, plan, regs0);
  }

  lemma KilledDistinct(file: RegFile, start: map<Ssa, nat>, instr: Instr, killed: seq<Ssa>)
    requires Ready(file, start, instr, killed)
    ensures forall i, j :: 0 <= i < j < |killed| ==> killed[i] != killed[j]
  {
  }

  lemma UsesAreKnown(file: RegFile, start: map<Ssa, nat>, instr: Instr, killed: seq<Ssa>, w: View)
    requires Ready(file, start, instr, killed) && start.Keys <= Values(w)
    ensures UsesKnown(w, file, instr)
  {
    forall i, c | 0 <= i < |instr.srcs| && InFile(instr.srcs[i], file) && 0 <= c < |instr.srcs[i].ssa|
      ensures instr.srcs[i].ssa[c] in Values(w)
    {
      SourceValues(file, start, instr, killed, i);
    }
    if instr.pred.Some? && instr.pred.value.file == file {
      assert Uses(instr, instr.pred.value);
    }
  }

  lemma StartView(start: map<Ssa, nat>, w: View)
    requires w.regs == start && w.evicted == map[]
    ensures Values(w) == start.Keys
  {
  }

  lemma EmptyPlan(w: View, dstRegs: seq<Option<nat>>)
    ensures PlanHeld(w, [], dstRegs, 0) && PlanValues([], 0) == {}
  {
  }

  /** No vector destinations: collect the sources, free what dies, place the scalars. */
  method AssignWithoutVecDsts(instr: Instr, hints: seq<seq<nat>>, killed: seq<Ssa>, ra: RegAllocator)
    returns (ok: bool, copies: seq<Copy>, regs: Regs)
    requires ra.Valid() && Ready(ra.file, ra.ssaReg, instr, killed) && |hints| == |instr.dsts| && Lists([], instr, ra.file, |instr.dsts|)
    modifies ra
    ensures ok ==> ra.Valid() && Correct(ra.file, ra.numRegs, old(ra.ssaReg), ra.ssaReg, instr, killed, copies, regs)
  {
    hide Ready, Lists, PlanHeld, Held, Ok, Values, RegAllocator.Valid, AllMapped, Correct;
    var vra := new VecRegAllocator(ra);
    StartView(ra.ssaReg, vra.Now());
    UsesAreKnown(ra.file, ra.ssaReg, instr, killed, vra.Now());
    copies := [];
    ok, regs := RemapSrcs(instr, vra);
    if ok {
      EmptyPlan(vra.Now(), regs.dsts);
      ok, copies, regs := FreeAndConclude(instr, hints, vra, killed, [], regs);
    }
  }

  /** All vector destinations fit into free registers: place them first. */
  method AssignIntoFreeRegs(instr: Instr, hints: seq<seq<nat>>, killed: seq<Ssa>, ra: RegAllocator, plan: seq<VecDst>)
    returns (ok: bool, copies: seq<Copy>, regs: Regs)
    requires ra.Valid() && Ready(ra.file, ra.ssaReg, instr, killed) && |hints| == |instr.dsts| && Lists(plan, instr, ra.file, |instr.dsts|)
    requires PlanFree(plan, ra.used, ra.numRegs, 0)
    modifies ra
    ensures ok ==> ra.Valid() && Correct(ra.file, ra.numRegs, old(ra.ssaReg), ra.ssaReg, instr, killed, copies, regs)
  {
    hide Ready, Lists, PlanHeld, Held, Ok, Values, RegAllocator.Valid, AllMapped, Correct, PlanFree, PlanIsNew, PlanValues;
    PlanIsNewFrom(instr, ra.file, ra.ssaReg, killed, plan);
    var none: seq<Option<nat>> := seq(|instr.dsts|, i => None);
    PlanFits(plan, instr, ra.file, none);
    var vra := new VecRegAllocator(ra);
    StartView(ra.ssaReg, vra.Now());
    var dstRegs := AssignVecDsts(plan, vra, none);
    ghost var w1 := vra.Now();
    UsesAreKnown(ra.file, vra.start, instr, killed, w1);
    copies := [];
    ok, regs := RemapSrcs(instr, vra);
    if ok {
      PlanHeldStays(w1, vra.Now(), plan, dstRegs);
      regs := SetDsts(regs, dstRegs, vra.Now(), ra.file, instr);
      ok, copies, regs := FreeAndConclude(instr, hints, vra, killed, plan, regs);
    }
  }

  method SetDsts(regs: Regs, dstRegs: seq<Option<nat>>, ghost w: View, ghost file: RegFile, ghost instr: Instr) returns (regs': Regs)
    requires AllMapped(w, file, instr, regs)
    ensures AllMapped(w, file, instr, regs') && regs'.dsts == dstRegs
  {
    regs' := regs.(dsts := dstRegs);
    assert forall i :: 0 <= i < |instr.srcs| && InFile(instr.srcs[i], file) ==> MappedAt(w, instr.srcs[i], regs.srcs[i]);
  }

  lemma PlanFits(plan: seq<VecDst>, instr: Instr, file: RegFile, dstRegs: seq<Option<nat>>)
    requires Lists(plan, instr, file, |instr.dsts|) && |dstRegs| == |instr.dsts|
    ensures PlanInRange(plan, dstRegs)
  {
  }

  /** The general case: collect the sources, then make room for the vector destinations. */
  method AssignMakingRoom(instr: Instr, hints: seq<seq<nat>>, killed: seq<Ssa>, ra: RegAllocator, plan: seq<VecDst>)
    returns (ok: bool, copies: seq<Copy>, regs: Regs)
    requires ra.Valid() && Ready(ra.file, ra.ssaReg, instr, killed) && |hints| == |instr.dsts| && Lists(plan, instr, ra.file, |instr.dsts|)
    modifies ra
    ensures ok ==> ra.Valid() && Correct(ra.file, ra.numRegs, old(ra.ssaReg), ra.ssaReg, instr, killed, copies, regs)
  {
    hide Ready, Lists, PlanHeld, Held, Ok, Values, RegAllocator.Valid, AllMapped, Correct, PlanFree, PlanIsNew, PlanValues;
    PlanIsNewFrom(instr, ra.file, ra.ssaReg, killed, plan);
    var none: seq<Option<nat>> := seq(|instr.dsts|, i => None);
    PlanFits(plan, instr, ra.file, none);
    var vra := new VecRegAllocator(ra);
    StartView(ra.ssaReg, vra.Now());
    UsesAreKnown(ra.file, vra.start, instr, killed, vra.Now());
    copies := [];
    ok, regs := RemapSrcs(instr, vra);
    if !ok {
      return;
    }
    ghost var w1 := vra.Now();
    var dstRegs;
    ok, dstRegs := AllocVecDsts(plan, vra, none);
    if ok {
      AllMappedStays(w1, vra.Now(), ra.file, instr, regs);
      regs := SetDsts(regs, dstRegs, vra.Now(), ra.file, instr);
      ok, copies, regs := FreeAndConclude(instr, hints, vra, killed, plan, regs);
    }
  }

  // ----- Taking over the registers of dying vectors -----

  /** Alignment for a longer vector is alignment for a shorter one. */
  lemma {:induction false} AlignedForLess(reg: nat, n: nat, m: nat, p: nat)
    requires n <= m && p >= 1 && IsMultiple(reg, Doubled(m, p))
    ensures IsMultiple(reg, Doubled(n, p)) && IsMultiple(reg, p)
    decreases m - p
  {
    if p < m {
      AlignedForLess(reg, if n <= p then p else n, m, 2 * p);
      Halve(reg, p);
    }
  }

  lemma Halve(reg: nat, p: nat)
    requires IsMultiple(reg, 2 * p)
    ensures IsMultiple(reg, p)
  {
    var k: nat :| reg == k * (2 * p);
    assert reg == (2 * k) * p;
  }

  /** Destination `d` is to take over the registers of the dying vector `vec`. */
  ghost predicate TakesOver(d: VecDst, vec: seq<Ssa>, m: map<Ssa, nat>) {
    d.reg.Some? && |d.ssa| <= |vec| && InVector(m, vec, d.reg.value) && IsMultiple(d.reg.value, NextPowerOfTwo(|vec|))
  }

  ghost predicate AllTakeOver(plan: seq<VecDst>, vecs: seq<seq<Ssa>>, m: map<Ssa, nat>) {
    && (forall k :: 0 <= k < |plan| ==> TakesFrom(plan[k], vecs, m))
    && (forall j, k :: 0 <= j < k < |plan| ==> plan[j].killed != plan[k].killed)
  }

  ghost predicate TakesFrom(d: VecDst, vecs: seq<seq<Ssa>>, m: map<Ssa, nat>) {
    d.killed.Some? && d.killed.value < |vecs| && TakesOver(d, vecs[d.killed.value], m)
  }

  /** The registers in which the dying vectors have been collected. */
  method KilledRegs(plan0: seq<VecDst>, vecs: seq<seq<Ssa>>, vra: VecRegAllocator, ghost instr: Instr, ghost killed: seq<Ssa>, ghost regs: Regs)
    returns (plan: seq<VecDst>)
    requires AllMapped(vra.Now(), vra.ra.file, instr, regs) && KilledOk(vecs, instr, vra.ra.file, killed)
    requires exists taken :: KilledPlan(plan0, vecs, Indices(|plan0|), taken, true)
    ensures |plan| == |plan0| && forall k :: 0 <= k < |plan| ==> plan[k].dst == plan0[k].dst && plan[k].ssa == plan0[k].ssa
    ensures AllTakeOver(plan, vecs, vra.ra.ssaReg)
  {
    hide AllMapped, KilledOk;
    ghost var taken :| KilledPlan(plan0, vecs, Indices(|plan0|), taken, true);
    plan := [];
    for k := 0 to |plan0|
      invariant |plan| == k
      invariant forall j :: 0 <= j < k ==> plan[j].dst == plan0[j].dst && plan[j].ssa == plan0[j].ssa && plan[j].killed == plan0[j].killed
      invariant forall j :: 0 <= j < k ==> TakesFrom(plan[j], vecs, vra.ra.ssaReg)
    {
      assert k in Indices(|plan0|);
      var vec := vecs[plan0[k].killed.value];
      SourceIsCollected(vra.Now(), vra.ra.file, instr, killed, regs, vecs, plan0[k].killed.value);
      var reg := vra.ra.TryGetVecReg(vec);
      ModIsMultiple(reg.value, NextPowerOfTwo(|vec|));
      plan := plan + [plan0[k].(reg := reg)];
    }
  }

  lemma SourceIsCollected(w: View, file: RegFile, instr: Instr, killed: seq<Ssa>, regs: Regs, vecs: seq<seq<Ssa>>, k: nat)
    requires AllMapped(w, file, instr, regs) && KilledOk(vecs, instr, file, killed) && k < |vecs|
    ensures vecs[k] != [] && vecs[k][0] in w.regs && InVector(w.regs, vecs[k], w.regs[vecs[k][0]])
    ensures w.regs[vecs[k][0]] % NextPowerOfTwo(|vecs[k]|) == 0
  {
    assert IsSource(instr, file, vecs[k]);
    var i :| 0 <= i < |instr.srcs| && instr.srcs[i] == Vec(vecs[k]) && InFile(instr.srcs[i], file);
    assert MappedAt(w, instr.srcs[i], regs.srcs[i]);
    assert Comp(regs.srcs[i].value, 0) == regs.srcs[i].value;
    assert w.regs[vecs[k][0]] == regs.srcs[i].value;
  }

  /** Registers of dying vectors are free once these have died, and no two of them overlap. */
  lemma TakenOverAreFree(plan: seq<VecDst>, vecs: seq<seq<Ssa>>, instr: Instr, file: RegFile, numRegs: nat, killed: seq<Ssa>,
                         m: map<Ssa, nat>, m': map<Ssa, nat>, used: set<nat>)
    requires AllTakeOver(plan, vecs, m) && KilledOk(vecs, instr, file, killed)
    requires IsAssignment(file, numRegs, m) && m' == m - Elements(killed) && forall r :: r in used ==> r in m'.Values
    requires forall k :: 0 <= k < |plan| ==> plan[k].ssa != []
    ensures PlanFree(plan, used, numRegs, 0)
  {
    forall k | 0 <= k < |plan|
      ensures Sized(plan, used, numRegs, k)
    {
      assert TakesFrom(plan[k], vecs, m);
      var vec := vecs[plan[k].killed.value];
      AlignedForLess(plan[k].reg.value, |plan[k].ssa|, |vec|, 1);
      FreedRange(vec, plan[k].reg.value, |plan[k].ssa|, file, numRegs, killed, m, m', used);
    }
    forall j, k | 0 <= j < k < |plan|
      ensures Apart(plan[j], plan[k])
    {
      assert TakesFrom(plan[j], vecs, m) && TakesFrom(plan[k], vecs, m);
      DisjointVectors(vecs, instr, file, killed, plan[j].killed.value, plan[k].killed.value);
      VectorsApart(plan[j], plan[k], vecs[plan[j].killed.value], vecs[plan[k].killed.value], file, numRegs, m);
    }
  }

  lemma DisjointVectors(vecs: seq<seq<Ssa>>, instr: Instr, file: RegFile, killed: seq<Ssa>, j: nat, k: nat)
    requires KilledOk(vecs, instr, file, killed) && j < |vecs| && k < |vecs| && j != k
    ensures forall v :: v in vecs[j] ==> v !in vecs[k]
  {
  }

  lemma FreedRange(vec: seq<Ssa>, reg: nat, n: nat, file: RegFile, numRegs: nat, killed: seq<Ssa>, m: map<Ssa, nat>, m': map<Ssa, nat>, used: set<nat>)
    requires InVector(m, vec, reg) && 0 < n <= |vec| && IsAssignment(file, numRegs, m) && m' == m - Elements(killed)
    requires (forall c :: 0 <= c < |vec| ==> vec[c] in killed) && forall r :: r in used ==> r in m'.Values
    ensures reg + n <= numRegs && RangeUnset(used, reg, n)
  {
    assert m[vec[n - 1]] == Comp(reg, n - 1);
    forall c: nat | c < n
      ensures Comp(reg, c) !in used
    {
      assert m[vec[c]] == Comp(reg, c) && vec[c] in killed;
    }
  }

  lemma VectorsApart(a: VecDst, b: VecDst, va: seq<Ssa>, vb: seq<Ssa>, file: RegFile, numRegs: nat, m: map<Ssa, nat>)
    requires TakesOver(a, va, m) && TakesOver(b, vb, m) && IsAssignment(file, numRegs, m)
    requires (forall v :: v in va ==> v !in vb) && a.ssa != [] && b.ssa != []
    ensures Apart(a, b)
  {
    var x := if a.reg.value <= b.reg.value then b.reg.value else a.reg.value;
    if x < a.reg.value + |a.ssa| && x < b.reg.value + |b.ssa| {
      SharedRegister(va, vb, a.reg.value, b.reg.value, x, file, numRegs, m);
    }
  }

  lemma SharedRegister(va: seq<Ssa>, vb: seq<Ssa>, a: nat, b: nat, x: nat, file: RegFile, numRegs: nat, m: map<Ssa, nat>)
    requires InVector(m, va, a) && InVector(m, vb, b) && IsAssignment(file, numRegs, m)
    requires a <= x < a + |va| && b <= x < b + |vb|
    ensures va[x - a] == vb[x - b] && va[x - a] in va && vb[x - b] in vb
  {
    assert m[va[x - a]] == Comp(a, x - a) && m[vb[x - b]] == Comp(b, x - b);
  }

  /** Every vector destination takes over the registers of a dying vector. */
  method AssignOverKilled(instr: Instr, hints: seq<seq<nat>>, killed: seq<Ssa>, ra: RegAllocator, plan0: seq<VecDst>, vecs: seq<seq<Ssa>>)
    returns (ok: bool, copies: seq<Copy>, regs: Regs)
    requires ra.Valid() && Ready(ra.file, ra.ssaReg, instr, killed) && |hints| == |instr.dsts| && Lists(plan0, instr, ra.file, |instr.dsts|)
    requires KilledOk(vecs, instr, ra.file, killed) && exists taken :: KilledPlan(plan0, vecs, Indices(|plan0|), taken, true)
    modifies ra
    ensures ok ==> ra.Valid() && Correct(ra.file, ra.numRegs, old(ra.ssaReg), ra.ssaReg, instr, killed, copies, regs)
  {
    hide Ready, Lists, PlanHeld, Held, Ok, Values, RegAllocator.Valid, AllMapped, Correct, PlanFree, PlanIsNew, PlanValues, KilledOk, KilledPlan, AllTakeOver, AllArrive;
    var vra := new VecRegAllocator(ra);
    StartView(ra.ssaReg, vra.Now());
    UsesAreKnown(ra.file, vra.start, instr, killed, vra.Now());
    copies := [];
    ok, regs := RemapSrcs(instr, vra);
    if !ok {
      return;
    }
    var plan := KilledRegs(plan0, vecs, vra, instr, killed, regs);
    SameLists(plan0, plan, instr, ra.file);
    FreeForPlan(instr, vra, killed, plan, vecs, regs);
    var none: seq<Option<nat>> := seq(|instr.dsts|, i => None);
    PlanFits(plan, instr, ra.file, none);
    PlanIsNewFrom(instr, ra.file, vra.start, killed, plan);
    ghost var w1 := vra.Now();
    KeysInValues(vra.start, w1, killed);
    var dstRegs := AssignVecDsts(plan, vra, none);
    AllArriveLater(ra.file, vra.start, w1, vra.Now(), instr, regs, regs.(dsts := dstRegs));
    regs := regs.(dsts := dstRegs);
    ok, copies, regs := Conclude(instr, hints, vra, killed, plan, regs);
  }

  lemma AllArriveLater(file: RegFile, start: map<Ssa, nat>, w: View, w': View, instr: Instr, regs: Regs, regs': Regs)
    requires AllArrive(file, start, w, instr, regs) && Grows(w, w') && regs'.pred == regs.pred && regs'.srcs == regs.srcs
    ensures AllArrive(file, start, w', instr, regs')
  {
    AllArriveStays(file, start, w, w', instr, regs, regs');
  }

  lemma KeysInValues(start: map<Ssa, nat>, w: View, killed: seq<Ssa>)
    requires Values(w) == start.Keys - Elements(killed)
    ensures w.regs.Keys <= start.Keys
  {
    assert w.regs.Keys <= Values(w);
  }

  lemma SameLists(plan0: seq<VecDst>, plan: seq<VecDst>, instr: Instr, file: RegFile)
    requires Lists(plan0, instr, file, |instr.dsts|)
    requires |plan| == |plan0| && forall k :: 0 <= k < |plan| ==> plan[k].dst == plan0[k].dst && plan[k].ssa == plan0[k].ssa
    ensures Lists(plan, instr, file, |instr.dsts|) && forall k :: 0 <= k < |plan| ==> plan[k].ssa != []
  {
    forall i | 0 <= i < |instr.dsts| && IsVecDst(instr.dsts[i], file)
      ensures Listed(plan, i)
    {
      assert Listed(plan0, i);
      var k :| 0 <= k < |plan0| && plan0[k].dst == i;
      assert plan[k].dst == i;
    }
  }

  /** Frees the dying sources; the planned registers are free then. */
  method FreeForPlan(instr: Instr, vra: VecRegAllocator, killed: seq<Ssa>, ghost plan: seq<VecDst>, ghost vecs: seq<seq<Ssa>>, ghost regs: Regs)
    requires vra.Inv() && Ready(vra.ra.file, vra.start, instr, killed) && AllMapped(vra.Now(), vra.ra.file, instr, regs)
    requires KilledOk(vecs, instr, vra.ra.file, killed) && AllTakeOver(plan, vecs, vra.ra.ssaReg) && Values(vra.Now()) == vra.start.Keys
    requires forall k :: 0 <= k < |plan| ==> plan[k].ssa != []
    modifies vra.ra
    ensures vra.Inv() && AllArrive(vra.ra.file, vra.start, vra.Now(), instr, regs)
    ensures Values(vra.Now()) == vra.start.Keys - Elements(killed)
    ensures PlanFree(plan, vra.ra.used, vra.ra.numRegs, 0)
  {
    hide Ready, PlanHeld, Held, Placed, Unmoved, EvictedOk, CopiesOk, Values, RegAllocator.Valid, AllMapped, PlanFree, KilledOk, AllTakeOver, AllArrive;
    ghost var w0 := vra.Now();
    AllMappedArrive(vra.ra.file, vra.start, w0, instr, killed, regs);
    KilledInRegs(w0, vra.ra.file, vra.start, instr, killed, regs);
    KilledDistinct(vra.ra.file, vra.start, instr, killed);
    vra.FreeKilled(killed);
    ghost var w1 := vra.Now();
    AllArriveStays(vra.ra.file, vra.start, w0, w1, instr, regs, regs);
    ValuesAfterFreeing(vra.ra.file, vra.start, w0, w1, killed, vra.start.Keys);
    vra.ra.Injective();
    TakenOverAreFree(plan, vecs, instr, vra.ra.file, vra.ra.numRegs, killed, w0.regs, w1.regs, vra.ra.used);
  }

  /** Gives all operands of one register file their registers.  `ok` is false where there is no room or
      a pinned value is in the way.  `hints` are the registers that the heuristics suggest for each
      scalar destination. */
  method InstrAssignRegsFile(instr: Instr, hints: seq<seq<nat>>, killed: seq<Ssa>, ra: RegAllocator)
    returns (ok: bool, copies: seq<Copy>, regs: Regs)
    requires ra.Valid() && Ready(ra.file, ra.ssaReg, instr, killed) && |hints| == |instr.dsts|
    modifies ra
    ensures ok ==> ra.Valid() && Correct(ra.file, ra.numRegs, old(ra.ssaReg), ra.ssaReg, instr, killed, copies, regs)
  {
    hide Ready, Lists, RegAllocator.Valid, Correct, PlanFree, KilledOk, KilledPlan, RangePlan;
    var plan := FindVecDsts(instr, ra.file);
    if plan == [] {
      ok, copies, regs := AssignWithoutVecDsts(instr, hints, killed, ra);
      return;
    }
    var vecs := FindKilledVecs(instr, ra.file, killed);
    var mapped, trivial;
    var plan0 := plan;
    plan, mapped, trivial := PlanVecDsts(plan0, vecs, ra);
    SameLists(plan0, plan, instr, ra.file);
    if mapped {
      ok, copies, regs := AssignOverKilled(instr, hints, killed, ra, plan, vecs);
    } else if trivial {
      RangesAreFree(plan, ra.used, ra.numRegs);
      ok, copies, regs := AssignIntoFreeRegs(instr, hints, killed, ra, plan);
    } else {
      ok, copies, regs := AssignMakingRoom(instr, hints, killed, ra, plan);
    }
  }

  lemma RangesAreFree(plan: seq<VecDst>, used: set<nat>, numRegs: nat)
    requires exists next :: RangePlan(plan, used, numRegs, Indices(|plan|), next, true)
    ensures PlanFree(plan, used, numRegs, 0)
  {
    var next :| RangePlan(plan, used, numRegs, Indices(|plan|), next, true);
    forall k | 0 <= k < |plan|
      ensures Sized(plan, used, numRegs, k)
    {
      assert k in Indices(|plan|);
    }
    forall j, k | 0 <= j < k < |plan|
      ensures Apart(plan[j], plan[k])
    {
      assert j in Indices(|plan|) && k in Indices(|plan|);
    }
  }
}
