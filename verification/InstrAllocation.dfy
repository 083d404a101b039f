/** Registers for the operands of one instruction (crates/deko-nak/src/assign_regs.rs). */
module InstrAllocation {
  import opened Machine
  import opened RegAllocation
  import opened VecRegAllocation

  /** A source or destination: a vector of values of one file, or something that needs no register. */
  datatype Operand = Vec(ssa: seq<Ssa>) | Other

  datatype Instr = Instr(pred: Option<Ssa>, srcs: seq<Operand>, dsts: seq<Operand>)

  /** The registers chosen for the operands of one file. */
  datatype Regs = Regs(pred: Option<nat>, srcs: seq<Option<nat>>, dsts: seq<Option<nat>>)

  predicate InFile(o: Operand, file: RegFile) {
    o.Vec? && o.ssa != [] && o.ssa[0].file == file
  }

  predicate IsScalar(o: Operand) {
    o.Vec? && |o.ssa| == 1
  }

  ghost predicate OperandOk(o: Operand) {
    o.Vec? ==> o.ssa != [] && forall c :: 0 <= c < |o.ssa| ==> o.ssa[c].file == o.ssa[0].file
  }

  predicate Has(o: Operand, v: Ssa) {
    o.Vec? && v in o.ssa
  }

  ghost predicate Uses(instr: Instr, v: Ssa) {
    instr.pred == Some(v) || exists i :: 0 <= i < |instr.srcs| && Has(instr.srcs[i], v)
  }

  ghost predicate Defines(instr: Instr, v: Ssa) {
    exists i :: 0 <= i < |instr.dsts| && Has(instr.dsts[i], v)
  }

  ghost predicate DistinctElements(s: seq<Ssa>) {
    forall c, d :: 0 <= c < d < |s| ==> s[c] != s[d]
  }

  ghost predicate WellFormed(instr: Instr) {
    && (forall i :: 0 <= i < |instr.srcs| ==> OperandOk(instr.srcs[i]))
    && (forall i :: 0 <= i < |instr.dsts| ==> OperandOk(instr.dsts[i]))
    && (forall i :: 0 <= i < |instr.dsts| && instr.dsts[i].Vec? ==> DistinctElements(instr.dsts[i].ssa))
    && (forall i, j, v {:trigger Has(instr.dsts[i], v), Has(instr.dsts[j], v)} ::
          0 <= i < j < |instr.dsts| && Has(instr.dsts[i], v) ==> !Has(instr.dsts[j], v))
  }

  /** What SSA form and liveness guarantee about an instruction: sources are live, destinations are
      new, and only sources die. */
  ghost predicate Ready(file: RegFile, m: map<Ssa, nat>, instr: Instr, killed: seq<Ssa>) {
    && WellFormed(instr) && DistinctElements(killed)
    && (forall v :: Uses(instr, v) && v.file == file ==> v in m)
    && (forall v :: Defines(instr, v) ==> v !in m)
    && (forall v :: v in killed ==> Uses(instr, v))
  }

  // ----- Sources -----

  /** Operand `o` has been given register `reg`. */
  ghost predicate MappedAt(w: View, o: Operand, reg: Option<nat>) {
    o.Vec? && reg.Some? && Held(w, o.ssa, reg.value) && reg.value % NextPowerOfTwo(|o.ssa|) == 0
  }

  ghost predicate MappedUpTo(w: View, file: RegFile, srcs: seq<Operand>, regs: seq<Option<nat>>, scalars: bool, n: nat)
    requires n <= |srcs| == |regs|
  {
    forall i :: 0 <= i < n && InFile(srcs[i], file) && IsScalar(srcs[i]) == scalars ==> MappedAt(w, srcs[i], regs[i])
  }

  lemma MappedStays(w: View, w': View, file: RegFile, srcs: seq<Operand>, regs: seq<Option<nat>>, scalars: bool, n: nat)
    requires n <= |srcs| == |regs| && MappedUpTo(w, file, srcs, regs, scalars, n) && Grows(w, w')
    ensures MappedUpTo(w', file, srcs, regs, scalars, n)
  {
    forall i | 0 <= i < n && InFile(srcs[i], file) && IsScalar(srcs[i]) == scalars
      ensures MappedAt(w', srcs[i], regs[i])
    {
      assert MappedAt(w, srcs[i], regs[i]);
      HeldStays(w, w', srcs[i].ssa, regs[i].value, |srcs[i].ssa|);
    }
  }

  ghost predicate SourcesKnown(w: View, file: RegFile, srcs: seq<Operand>) {
    forall i, c {:trigger srcs[i].ssa[c]} :: 0 <= i < |srcs| && InFile(srcs[i], file) && 0 <= c < |srcs[i].ssa| ==> srcs[i].ssa[c] in Values(w)
  }

  /** Collects either the vector or the scalar sources. */
  method RemapPass(srcs: seq<Operand>, scalars: bool, vra: VecRegAllocator, regs0: seq<Option<nat>>)
    returns (ok: bool, regs: seq<Option<nat>>)
    requires vra.Inv() && vra.Tight() && |regs0| == |srcs| && SourcesKnown(vra.Now(), vra.ra.file, srcs)
    modifies vra, vra.ra
    ensures ok ==> vra.Inv() && vra.Tight() && Grows(old(vra.Now()), vra.Now()) && Values(vra.Now()) == old(Values(vra.Now()))
    ensures ok ==> vra.ra.pinned == old(vra.ra.pinned) && |regs| == |srcs|
    ensures ok ==> MappedUpTo(vra.Now(), vra.ra.file, srcs, regs, scalars, |srcs|)
    ensures ok ==> forall i :: 0 <= i < |srcs| && IsScalar(srcs[i]) != scalars ==> regs[i] == regs0[i]
  {
    hide Ok, Grows, Values, RegAllocator.Valid, Held;
    GrowsSelf(vra.Now());
    regs := regs0;
    for i := 0 to |srcs|
      invariant vra.Inv() && vra.Tight() && Grows(old(vra.Now()), vra.Now()) && Values(vra.Now()) == old(Values(vra.Now()))
      invariant vra.ra.pinned == old(vra.ra.pinned) && |regs| == |srcs|
      invariant MappedUpTo(vra.Now(), vra.ra.file, srcs, regs, scalars, i)
      invariant forall k :: 0 <= k < |srcs| && (k >= i || IsScalar(srcs[k]) != scalars) ==> regs[k] == regs0[k]
    {
      if InFile(srcs[i], vra.ra.file) && IsScalar(srcs[i]) == scalars {
        ghost var before := vra.Now();
        var collected, reg := vra.CollectVector(srcs[i].ssa);
        if !collected {
          return false, regs;
        }
        GrowsTrans(old(vra.Now()), before, vra.Now());
        MappedStays(before, vra.Now(), vra.ra.file, srcs, regs, scalars, i);
        regs := regs[i := Some(reg)];
      }
    }
    ok := true;
  }

  ghost predicate PredMapped(w: View, file: RegFile, pred: Option<Ssa>, reg: Option<nat>) {
    pred.Some? && pred.value.file == file ==> reg.Some? && Held(w, [pred.value], reg.value)
  }

  ghost predicate AllMapped(w: View, file: RegFile, instr: Instr, regs: Regs) {
    && |regs.srcs| == |instr.srcs| && PredMapped(w, file, instr.pred, regs.pred)
    && forall i :: 0 <= i < |instr.srcs| && InFile(instr.srcs[i], file) ==> MappedAt(w, instr.srcs[i], regs.srcs[i])
  }

  lemma AllMappedStays(w: View, w': View, file: RegFile, instr: Instr, regs: Regs)
    requires AllMapped(w, file, instr, regs) && Grows(w, w')
    ensures AllMapped(w', file, instr, regs)
  {
    forall i | 0 <= i < |instr.srcs| && InFile(instr.srcs[i], file)
      ensures MappedAt(w', instr.srcs[i], regs.srcs[i])
    {
      assert MappedAt(w, instr.srcs[i], regs.srcs[i]);
      HeldStays(w, w', instr.srcs[i].ssa, regs.srcs[i].value, |instr.srcs[i].ssa|);
    }
    if instr.pred.Some? && instr.pred.value.file == file {
      HeldStays(w, w', [instr.pred.value], regs.pred.value, 1);
    }
  }

  ghost predicate UsesKnown(w: View, file: RegFile, instr: Instr) {
    SourcesKnown(w, file, instr.srcs) && (instr.pred.Some? && instr.pred.value.file == file ==> instr.pred.value in Values(w))
  }

  /** Gives every source its registers: vectors first, because collecting them may move scalars. */
  method RemapSrcs(instr: Instr, vra: VecRegAllocator) returns (ok: bool, regs: Regs)
    requires vra.Inv() && vra.Tight() && UsesKnown(vra.Now(), vra.ra.file, instr)
    modifies vra, vra.ra
    ensures ok ==> vra.Inv() && vra.Tight() && Grows(old(vra.Now()), vra.Now()) && Values(vra.Now()) == old(Values(vra.Now()))
    ensures ok ==> vra.ra.pinned == old(vra.ra.pinned) && AllMapped(vra.Now(), vra.ra.file, instr, regs)
    ensures ok ==> |regs.dsts| == |instr.dsts|
  {
    hide Ok, Grows, Values, RegAllocator.Valid, Held;
    var none: seq<Option<nat>> := seq(|instr.srcs|, i => None);
    regs := Regs(None, none, seq(|instr.dsts|, i => None));
    var srcRegs;
    ok, srcRegs := RemapPass(instr.srcs, false, vra, none);
    if !ok { return; }
    ghost var w1 := vra.Now();
    var predReg;
    ok, predReg := RemapPred(instr.pred, vra);
    if !ok { return; }
    ghost var w2 := vra.Now();
    var allRegs;
    ok, allRegs := RemapPass(instr.srcs, true, vra, srcRegs);
    if !ok { return; }
    regs := regs.(pred := predReg, srcs := allRegs);
    GrowsTrans(w1, w2, vra.Now());
    GrowsTrans(old(vra.Now()), w1, vra.Now());
    MappedStays(w1, vra.Now(), vra.ra.file, instr.srcs, srcRegs, false, |instr.srcs|);
    PredStays(w2, vra.Now(), vra.ra.file, instr.pred, predReg);
    BothPasses(vra.Now(), vra.ra.file, instr, srcRegs, allRegs, regs);
  }

  method RemapPred(pred: Option<Ssa>, vra: VecRegAllocator) returns (ok: bool, reg: Option<nat>)
    requires vra.Inv() && vra.Tight() && (pred.Some? && pred.value.file == vra.ra.file ==> pred.value in Values(vra.Now()))
    modifies vra, vra.ra
    ensures ok ==> vra.Inv() && vra.Tight() && Grows(old(vra.Now()), vra.Now()) && Values(vra.Now()) == old(Values(vra.Now()))
    ensures ok ==> vra.ra.pinned == old(vra.ra.pinned) && PredMapped(vra.Now(), vra.ra.file, pred, reg)
  {
    hide Ok, Grows, Values, RegAllocator.Valid, Held;
    GrowsSelf(vra.Now());
    reg := None;
    ok := true;
    if pred.Some? && pred.value.file == vra.ra.file {
      var r;
      ok, r := vra.CollectVector([pred.value]);
      reg := Some(r);
    }
  }

  lemma PredStays(w: View, w': View, file: RegFile, pred: Option<Ssa>, reg: Option<nat>)
    requires PredMapped(w, file, pred, reg) && Grows(w, w')
    ensures PredMapped(w', file, pred, reg)
  {
    if pred.Some? && pred.value.file == file {
      HeldStays(w, w', [pred.value], reg.value, 1);
    }
  }

  lemma BothPasses(w: View, file: RegFile, instr: Instr, vecs: seq<Option<nat>>, all: seq<Option<nat>>, regs: Regs)
    requires |vecs| == |all| == |instr.srcs| && regs.srcs == all && PredMapped(w, file, instr.pred, regs.pred)
    requires MappedUpTo(w, file, instr.srcs, vecs, false, |instr.srcs|)
    requires MappedUpTo(w, file, instr.srcs, all, true, |instr.srcs|)
    requires forall i :: 0 <= i < |instr.srcs| && IsScalar(instr.srcs[i]) != true ==> all[i] == vecs[i]
    ensures AllMapped(w, file, instr, regs)
  {
    forall i | 0 <= i < |instr.srcs| && InFile(instr.srcs[i], file)
      ensures MappedAt(w, instr.srcs[i], regs.srcs[i])
    {
    }
  }

  // ----- Where the sources are when the instruction reads them -----

  /** The parallel copy brings the components of `vec` into the registers from `reg`, for good. */
  ghost predicate Arrives(file: RegFile, start: map<Ssa, nat>, w: View, vec: seq<Ssa>, reg: nat) {
    forall c: nat {:trigger Comp(reg, c)} {:trigger vec[c]} :: c < |vec| ==>
      ArrivesAt(file, start, w.copies, vec[c], Comp(reg, c)) && Comp(reg, c) in w.pinned
  }

  lemma HeldArrives(file: RegFile, start: map<Ssa, nat>, w: View, vec: seq<Ssa>, reg: nat)
    requires Placed(file, start, w) && Held(w, vec, reg) && forall c :: 0 <= c < |vec| ==> vec[c] in start
    ensures Arrives(file, start, w, vec, reg)
  {
  }

  lemma ArrivesStays(file: RegFile, start: map<Ssa, nat>, w: View, w': View, vec: seq<Ssa>, reg: nat)
    requires Arrives(file, start, w, vec, reg) && w.pinned <= w'.pinned
    requires w.copies <= w'.copies && forall i :: |w.copies| <= i < |w'.copies| ==> w'.copies[i].dst.idx !in w.pinned
    ensures Arrives(file, start, w', vec, reg)
  {
    forall c: nat | c < |vec|
      ensures ArrivesAt(file, start, w'.copies, vec[c], Comp(reg, c)) && Comp(reg, c) in w'.pinned
    {
      ArrivalStays(file, start, w, w', vec[c], Comp(reg, c));
    }
  }

  ghost predicate SrcArrives(file: RegFile, start: map<Ssa, nat>, w: View, o: Operand, reg: Option<nat>) {
    InFile(o, file) ==> reg.Some? && Arrives(file, start, w, o.ssa, reg.value) && reg.value % NextPowerOfTwo(|o.ssa|) == 0
  }

  ghost predicate PredArrives(file: RegFile, start: map<Ssa, nat>, w: View, pred: Option<Ssa>, reg: Option<nat>) {
    pred.Some? && pred.value.file == file ==> reg.Some? && Arrives(file, start, w, [pred.value], reg.value)
  }

  ghost predicate AllArrive(file: RegFile, start: map<Ssa, nat>, w: View, instr: Instr, regs: Regs) {
    && |regs.srcs| == |instr.srcs| && PredArrives(file, start, w, instr.pred, regs.pred)
    && forall i :: 0 <= i < |instr.srcs| ==> SrcArrives(file, start, w, instr.srcs[i], regs.srcs[i])
  }

  lemma AllMappedArrive(file: RegFile, start: map<Ssa, nat>, w: View, instr: Instr, killed: seq<Ssa>, regs: Regs)
    requires Placed(file, start, w) && AllMapped(w, file, instr, regs) && Ready(file, start, instr, killed)
    ensures AllArrive(file, start, w, instr, regs)
  {
    forall i | 0 <= i < |instr.srcs|
      ensures SrcArrives(file, start, w, instr.srcs[i], regs.srcs[i])
    {
      var o := instr.srcs[i];
      if InFile(o, file) {
        assert MappedAt(w, o, regs.srcs[i]);
        SourceValues(file, start, instr, killed, i);
        HeldArrives(file, start, w, o.ssa, regs.srcs[i].value);
      }
    }
    if instr.pred.Some? && instr.pred.value.file == file {
      assert Uses(instr, instr.pred.value);
      HeldArrives(file, start, w, [instr.pred.value], regs.pred.value);
    }
  }

  lemma SourceValues(file: RegFile, start: map<Ssa, nat>, instr: Instr, killed: seq<Ssa>, i: nat)
    requires Ready(file, start, instr, killed) && i < |instr.srcs| && InFile(instr.srcs[i], file)
    ensures forall c :: 0 <= c < |instr.srcs[i].ssa| ==> instr.srcs[i].ssa[c] in start
  {
    var o := instr.srcs[i];
    assert OperandOk(o);
    forall c | 0 <= c < |o.ssa|
      ensures o.ssa[c] in start
    {
      assert Has(instr.srcs[i], o.ssa[c]);
      assert Uses(instr, o.ssa[c]);
    }
  }

  lemma AllArriveStays(file: RegFile, start: map<Ssa, nat>, w: View, w': View, instr: Instr, regs: Regs, regs': Regs)
    requires AllArrive(file, start, w, instr, regs) && w.pinned <= w'.pinned
    requires w.copies <= w'.copies && forall i :: |w.copies| <= i < |w'.copies| ==> w'.copies[i].dst.idx !in w.pinned
    requires regs'.pred == regs.pred && regs'.srcs == regs.srcs
    ensures AllArrive(file, start, w', instr, regs')
  {
    forall i | 0 <= i < |instr.srcs|
      ensures SrcArrives(file, start, w', instr.srcs[i], regs.srcs[i])
    {
      assert SrcArrives(file, start, w, instr.srcs[i], regs.srcs[i]);
      if InFile(instr.srcs[i], file) {
        ArrivesStays(file, start, w, w', instr.srcs[i].ssa, regs.srcs[i].value);
      }
    }
    if instr.pred.Some? && instr.pred.value.file == file {
      ArrivesStays(file, start, w, w', [instr.pred.value], regs.pred.value);
    }
  }

  // ----- Plans for vector destinations -----

  /** A vector destination: its place among the destinations, the vector of dying sources whose
      registers it may take over, and the free registers found for it. */
  datatype VecDst = VecDst(dst: nat, ssa: seq<Ssa>, killed: Option<nat>, reg: Option<nat>)

  predicate IsVecDst(o: Operand, file: RegFile) {
    InFile(o, file) && !IsScalar(o)
  }

  /** The plan lists exactly the vector destinations of the file, in order. */
  ghost predicate Lists(plan: seq<VecDst>, instr: Instr, file: RegFile, n: nat)
    requires n <= |instr.dsts|
  {
    && (forall k :: 0 <= k < |plan| ==> plan[k].dst < n && IsVecDst(instr.dsts[plan[k].dst], file) && plan[k].ssa == instr.dsts[plan[k].dst].ssa)
    && (forall j, k :: 0 <= j < k < |plan| ==> plan[j].dst < plan[k].dst)
    && (forall i :: 0 <= i < n && IsVecDst(instr.dsts[i], file) ==> Listed(plan, i))
  }

  ghost predicate Listed(plan: seq<VecDst>, i: nat) {
    exists k :: 0 <= k < |plan| && plan[k].dst == i
  }

  method FindVecDsts(instr: Instr, file: RegFile) returns (plan: seq<VecDst>)
    ensures Lists(plan, instr, file, |instr.dsts|)
    ensures forall k :: 0 <= k < |plan| ==> plan[k].killed == None && plan[k].reg == None
  {
    plan := [];
    for i := 0 to |instr.dsts|
      invariant Lists(plan, instr, file, i)
      invariant forall k :: 0 <= k < |plan| ==> plan[k].killed == None && plan[k].reg == None
    {
      ghost var was := plan;
      if IsVecDst(instr.dsts[i], file) {
        plan := plan + [VecDst(i, instr.dsts[i].ssa, None, None)];
      }
      ListsStep(was, plan, instr, file, i);
    }
  }

  lemma ListsStep(was: seq<VecDst>, plan: seq<VecDst>, instr: Instr, file: RegFile, i: nat)
    requires i < |instr.dsts| && Lists(was, instr, file, i)
    requires plan == if IsVecDst(instr.dsts[i], file) then was + [VecDst(i, instr.dsts[i].ssa, None, None)] else was
    ensures Lists(plan, instr, file, i + 1)
  {
    forall j | 0 <= j < i + 1 && IsVecDst(instr.dsts[j], file)
      ensures Listed(plan, j)
    {
      if j < i {
        var k :| 0 <= k < |was| && was[k].dst == j;
        assert plan[k] == was[k];
      } else {
        assert plan[|was|].dst == i;
      }
    }
  }

  /** Vector sources all of whose values die here, no value in two of them. */
  ghost predicate KilledOk(vecs: seq<seq<Ssa>>, instr: Instr, file: RegFile, killed: seq<Ssa>) {
    && (forall k :: 0 <= k < |vecs| ==> vecs[k] != [] && IsSource(instr, file, vecs[k]))
    && (forall k, c {:trigger vecs[k][c]} :: 0 <= k < |vecs| && 0 <= c < |vecs[k]| ==> vecs[k][c] in killed)
    && (forall j, k, v {:trigger v in vecs[j], v in vecs[k]} :: 0 <= j < k < |vecs| && v in vecs[j] ==> v !in vecs[k])
  }

  ghost predicate IsSource(instr: Instr, file: RegFile, vec: seq<Ssa>) {
    exists i :: 0 <= i < |instr.srcs| && instr.srcs[i] == Vec(vec) && InFile(instr.srcs[i], file)
  }

  method AllAvailable(vec: seq<Ssa>, file: RegFile, avail: set<Ssa>) returns (all: bool)
    ensures all <==> forall c :: 0 <= c < |vec| ==> vec[c].file == file && vec[c] in avail
  {
    for c := 0 to |vec|
      invariant forall d :: 0 <= d < c ==> vec[d].file == file && vec[d] in avail
    {
      if vec[c].file != file || vec[c] !in avail {
        return false;
      }
    }
    return true;
  }

  method FindKilledVecs(instr: Instr, file: RegFile, killed: seq<Ssa>) returns (vecs: seq<seq<Ssa>>)
    ensures KilledOk(vecs, instr, file, killed)
  {
    var avail := set v | v in killed;
    vecs := [];
    for i := 0 to |instr.srcs|
      invariant KilledOk(vecs, instr, file, killed)
      invariant avail <= set v | v in killed
      invariant forall k, v {:trigger v in vecs[k]} :: 0 <= k < |vecs| && v in vecs[k] ==> v !in avail
    {
      var o := instr.srcs[i];
      if o.Vec? && |o.ssa| > 1 {
        var dies := AllAvailable(o.ssa, file, avail);
        if dies {
          KilledStep(vecs, instr, file, killed, avail, i);
          avail := avail - set v | v in o.ssa;
          vecs := vecs + [o.ssa];
        }
      }
    }
  }

  lemma KilledStep(vecs: seq<seq<Ssa>>, instr: Instr, file: RegFile, killed: seq<Ssa>, avail: set<Ssa>, i: nat)
    requires KilledOk(vecs, instr, file, killed) && avail <= (set v | v in killed) && i < |instr.srcs|
    requires instr.srcs[i].Vec? && |instr.srcs[i].ssa| > 1
    requires forall c :: 0 <= c < |instr.srcs[i].ssa| ==> instr.srcs[i].ssa[c].file == file && instr.srcs[i].ssa[c] in avail
    requires forall k, v {:trigger v in vecs[k]} :: 0 <= k < |vecs| && v in vecs[k] ==> v !in avail
    ensures KilledOk(vecs + [instr.srcs[i].ssa], instr, file, killed)
  {
    var vec := instr.srcs[i].ssa;
    assert instr.srcs[i] == Vec(vec);
    assert IsSource(instr, file, vec);
    forall v | v in vec
      ensures v in avail && v in killed
    {
    }
  }

  /** The index of the longest vector that is not done; of equally long ones, the last. */
  method Longest(sizes: seq<nat>, done: set<nat>) returns (r: Option<nat>)
    ensures r.Some? ==> r.value < |sizes| && r.value !in done
    ensures r.None? ==> forall k :: 0 <= k < |sizes| ==> k in done
    ensures r.Some? ==> forall k :: 0 <= k < |sizes| && k !in done ==> sizes[k] <= sizes[r.value]
  {
    r := None;
    for k := 0 to |sizes|
      invariant r.Some? ==> r.value < k && r.value !in done
      invariant r.None? ==> forall j :: 0 <= j < k ==> j in done
      invariant r.Some? ==> forall j :: 0 <= j < k && j !in done ==> sizes[j] <= sizes[r.value]
    {
      if k !in done && (r.None? || sizes[k] >= sizes[r.value]) {
        r := Some(k);
      }
    }
  }

  /** Distinct dying vectors, long enough, for the destinations that are done. */
  ghost predicate KilledPlan(plan: seq<VecDst>, vecs: seq<seq<Ssa>>, done: set<nat>, taken: set<nat>, mapped: bool) {
    && (forall k :: 0 <= k < |plan| && plan[k].killed.Some? ==>
          k in done && plan[k].killed.value in taken && plan[k].killed.value < |vecs| && |plan[k].ssa| <= |vecs[plan[k].killed.value]|)
    && (forall j, k :: 0 <= j < k < |plan| && plan[j].killed.Some? && plan[k].killed.Some? ==> plan[j].killed != plan[k].killed)
    && (mapped ==> forall k :: 0 <= k < |plan| && k in done ==> plan[k].killed.Some?)
  }

  ghost predicate Sized(plan: seq<VecDst>, used: set<nat>, numRegs: nat, k: nat)
    requires k < |plan|
  {
    && plan[k].reg.Some? && plan[k].reg.value + |plan[k].ssa| <= numRegs
    && IsMultiple(plan[k].reg.value, NextPowerOfTwo(|plan[k].ssa|))
    && RangeUnset(used, plan[k].reg.value, |plan[k].ssa|)
  }

  /** The registers of two destinations do not overlap. */
  ghost predicate Apart(a: VecDst, b: VecDst) {
    && a.reg.Some? && b.reg.Some?
    && (a.reg.value + |a.ssa| <= b.reg.value || b.reg.value + |b.ssa| <= a.reg.value)
  }

  ghost predicate IsMultiple(reg: nat, align: nat) {
    exists k: nat :: reg == k * align
  }

  lemma ModIsMultiple(reg: nat, align: nat)
    requires align > 0 && reg % align == 0
    ensures IsMultiple(reg, align)
  {
    assert reg == (reg / align) * align;
  }

  /** Free registers, one after the other, for the destinations that are done. */
  ghost predicate RangePlan(plan: seq<VecDst>, used: set<nat>, numRegs: nat, done: set<nat>, next: nat, trivial: bool) {
    trivial ==>
      && (forall k :: 0 <= k < |plan| && k in done ==> Sized(plan, used, numRegs, k) && plan[k].reg.value + |plan[k].ssa| <= next)
      && (forall j, k :: 0 <= j < |plan| && 0 <= k < |plan| && j != k && j in done && k in done ==> Apart(plan[j], plan[k]))
  }

  /** The longest dying vector that has not been looked at, if it is long enough; shorter ones are
      passed over. */
  method TakeKilled(vecs: seq<seq<Ssa>>, taken0: set<nat>, size: nat) returns (choice: Option<nat>, taken: set<nat>)
    ensures taken0 <= taken
    ensures choice.Some? ==> choice.value < |vecs| && choice.value !in taken0 && choice.value in taken && size <= |vecs[choice.value]|
  {
    taken := taken0;
    choice := None;
    var sizes := seq(|vecs|, i requires 0 <= i < |vecs| => |vecs[i]|);
    var left := |vecs|;
    while left > 0
      invariant taken0 <= taken
      decreases left
    {
      var longest := Longest(sizes, taken);
      if longest.None? {
        return;
      }
      taken := taken + {longest.value};
      if |vecs[longest.value]| >= size {
        choice := longest;
        return;
      }
      left := left - 1;
    }
  }

  /** Plans the vector destinations, longest first. */
  method PlanVecDsts(plan0: seq<VecDst>, vecs: seq<seq<Ssa>>, ra: RegAllocator) returns (plan: seq<VecDst>, mapped: bool, trivial: bool)
    requires forall k :: 0 <= k < |plan0| ==> plan0[k].killed == None && plan0[k].reg == None
    ensures |plan| == |plan0| && forall k :: 0 <= k < |plan| ==> plan[k].dst == plan0[k].dst && plan[k].ssa == plan0[k].ssa
    ensures mapped ==> exists taken :: KilledPlan(plan, vecs, Indices(|plan|), taken, true)
    ensures trivial ==> exists next :: RangePlan(plan, ra.used, ra.numRegs, Indices(|plan|), next, true)
  {
    plan, mapped, trivial := plan0, true, true;
    var nextReg: nat := 0;
    var done: set<nat>, taken: set<nat> := {}, {};
    var sizes := seq(|plan|, i requires 0 <= i < |plan| => |plan[i].ssa|);
    while true
      invariant |plan| == |plan0| == |sizes| && forall k :: 0 <= k < |plan| ==> plan[k].dst == plan0[k].dst && plan[k].ssa == plan0[k].ssa
      invariant done <= Indices(|plan|)
      invariant forall k :: 0 <= k < |plan| && k !in done ==> plan[k].killed == None
      invariant KilledPlan(plan, vecs, done, taken, mapped)
      invariant RangePlan(plan, ra.used, ra.numRegs, done, nextReg, trivial)
      decreases Indices(|plan|) - done
    {
      var longest := Longest(sizes, done);
      if longest.None? {
        assert done == Indices(|plan|);
        assert mapped ==> KilledPlan(plan, vecs, Indices(|plan|), taken, true);
        assert trivial ==> RangePlan(plan, ra.used, ra.numRegs, Indices(|plan|), nextReg, true);
        return;
      }
      var k := longest.value;
      ghost var was := plan;
      var choice, taken' := TakeKilled(vecs, taken, |plan[k].ssa|);
      var reg := ra.TryFindUnusedRegRange(nextReg, |plan[k].ssa|, NextPowerOfTwo(|plan[k].ssa|));
      plan := plan[k := plan[k].(killed := choice, reg := reg)];
      KilledPlanStep(was, vecs, done, taken, mapped, k, choice, reg, taken');
      RangePlanStep(was, ra.used, ra.numRegs, done, nextReg, trivial, k, choice, reg);
      mapped := mapped && choice.Some?;
      if reg.Some? {
        nextReg := reg.value + |plan[k].ssa|;
      } else {
        trivial := false;
      }
      taken := taken';
      done := done + {k};
    }
  }

  ghost function Indices(n: nat): (r: set<nat>)
    ensures forall i: nat :: i in r <==> i < n
  {
    if n == 0 then {} else Indices(n - 1) + {n - 1}
  }

  lemma KilledPlanStep(plan: seq<VecDst>, vecs: seq<seq<Ssa>>, done: set<nat>, taken: set<nat>, mapped: bool, k: nat,
                       choice: Option<nat>, reg: Option<nat>, taken': set<nat>)
    requires KilledPlan(plan, vecs, done, taken, mapped) && k < |plan| && k !in done && taken <= taken'
    requires choice.Some? ==> choice.value < |vecs| && choice.value !in taken && choice.value in taken' && |plan[k].ssa| <= |vecs[choice.value]|
    ensures KilledPlan(plan[k := plan[k].(killed := choice, reg := reg)], vecs, done + {k}, taken', mapped && choice.Some?)
  {
  }

  lemma RangePlanStep(plan: seq<VecDst>, used: set<nat>, numRegs: nat, done: set<nat>, next: nat, trivial: bool, k: nat,
                      choice: Option<nat>, reg: Option<nat>)
    requires RangePlan(plan, used, numRegs, done, next, trivial) && k < |plan| && k !in done
    requires reg.Some? ==>
               && next <= reg.value && reg.value + |plan[k].ssa| <= numRegs && reg.value % NextPowerOfTwo(|plan[k].ssa|) == 0
               && RangeUnset(used, reg.value, |plan[k].ssa|)
    ensures reg.Some? ==>
              RangePlan(plan[k := plan[k].(killed := choice, reg := reg)], used, numRegs, done + {k}, reg.value + |plan[k].ssa|, trivial)
  {
    if reg.Some? && trivial {
      ModIsMultiple(reg.value, NextPowerOfTwo(|plan[k].ssa|));
      var plan' := plan[k := plan[k].(killed := choice, reg := reg)];
      forall j | 0 <= j < |plan'| && j in done + {k}
        ensures Sized(plan', used, numRegs, j) && plan'[j].reg.value + |plan'[j].ssa| <= reg.value + |plan[k].ssa|
      {
        if j != k {
          assert Sized(plan, used, numRegs, j);
        }
      }
    }
  }
}
