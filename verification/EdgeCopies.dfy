/** Where live values are expected at the start of a block, and the copies on the edges that bring
    them there (crates/deko-nak/src/assign_regs.rs). */
module EdgeCopies {
  import opened Machine
  import opened RegAllocation
  import opened VecRegAllocation
  import opened InstrAllocation
  import opened DstAllocation
  import opened AllocatedCode
  import opened AllocatedBlocks

  /** What a live-in register holds: a value that is live across the edge, or a phi. */
  datatype LiveRef = LiveSsa(v: Ssa) | LivePhi(phi: nat)

  datatype LiveValue = LiveValue(ref: LiveRef, reg: Reg)

  /** The source of a phi on one edge. */
  datatype PhiSrc = SsaSrc(v: Ssa) | FixedSrc(word: Word)

  // ----- The start of a block -----

  ghost predicate DistinctRegs(liveIn: seq<LiveValue>) {
    forall i, j :: 0 <= i < j < |liveIn| ==> liveIn[i].reg != liveIn[j].reg
  }

  ghost predicate NoneInFile(liveIn: seq<LiveValue>, file: RegFile) {
    forall i :: 0 <= i < |liveIn| ==> liveIn[i].reg.file != file
  }

  /** Every value in `m` has its entry in the list of live-in registers. */
  ghost predicate Records(liveIn: seq<LiveValue>, file: RegFile, m: map<Ssa, nat>) {
    forall v :: v in m ==> LiveValue(LiveSsa(v), Reg(file, m[v])) in liveIn
  }

  ghost predicate Restricted(m: map<Ssa, nat>, of: map<Ssa, nat>, live: set<Ssa>) {
    forall v :: (v in m <==> v in of && v in live) && (v in m ==> m[v] == of[v])
  }

  /** The registers in use are those of the listed live-in values of the file. */
  ghost predicate ListedInFile(liveIn: seq<LiveValue>, file: RegFile, used: set<nat>) {
    forall i :: 0 <= i < |liveIn| && liveIn[i].reg.file == file ==> liveIn[i].reg.idx in used
  }

  /** The value is expected where it is. */
  ghost predicate StaysIn(lv: LiveValue, file: RegFile, m: map<Ssa, nat>) {
    lv.ref.LiveSsa? && lv.ref.v.file == file && lv.ref.v in m && lv.reg == Reg(file, m[lv.ref.v])
  }

  ghost predicate StaysInOne(lv: LiveValue, ras: seq<RegAllocator>, maps: seq<map<Ssa, nat>>)
    requires |maps| == |ras|
  {
    exists k :: 0 <= k < |ras| && StaysIn(lv, ras[k].file, maps[k])
  }

  /** Starts a block's allocator with the live-in values where the first predecessor left them. */
  method TakeLiveIn(predRa: RegAllocator, ra: RegAllocator, live: set<Ssa>, liveIn0: seq<LiveValue>) returns (liveIn: seq<LiveValue>)
    requires predRa != ra && predRa.Valid() && ra.Valid() && predRa.file == ra.file && predRa.numRegs == ra.numRegs && ra.ssaReg == map[]
    requires DistinctRegs(liveIn0) && NoneInFile(liveIn0, ra.file)
    modifies ra
    ensures ra.Valid() && Restricted(ra.ssaReg, predRa.ssaReg, live)
    ensures liveIn0 <= liveIn && DistinctRegs(liveIn) && Records(liveIn, ra.file, ra.ssaReg) && ListedInFile(liveIn, ra.file, ra.used)
    ensures forall i :: |liveIn0| <= i < |liveIn| ==> liveIn[i].reg.file == ra.file && liveIn[i].ref.LiveSsa? && liveIn[i].ref.v in live
    ensures forall r :: r in ra.pinned <==> r in ra.used && r in predRa.pinned
    ensures forall i :: |liveIn0| <= i < |liveIn| ==> StaysIn(liveIn[i], predRa.file, predRa.ssaReg)
  {
    hide TakenSoFar, RegAllocator.Valid;
    liveIn := liveIn0;
    var rest := predRa.ssaReg.Keys;
    NothingTaken(predRa, ra, live, liveIn);
    while rest != {}
      invariant rest <= predRa.ssaReg.Keys && predRa.Valid()
      invariant TakenSoFar(predRa, ra, live * (predRa.ssaReg.Keys - rest), liveIn0, liveIn)
      decreases rest
    {
      var ssa :| ssa in rest;
      ghost var done := predRa.ssaReg.Keys - rest;
      rest := rest - {ssa};
      assert predRa.ssaReg.Keys - rest == done + {ssa};
      if ssa in live {
        assert live * (done + {ssa}) == live * done + {ssa};
        liveIn := TakeOne(predRa, ra, ssa, live * done, liveIn0, liveIn);
      } else {
        assert live * (done + {ssa}) == live * done;
      }
    }
    AllTaken(predRa, ra, live, liveIn0, liveIn);
  }

  /** The values in `taken` have been taken over. */
  ghost predicate TakenSoFar(predRa: RegAllocator, ra: RegAllocator, taken: set<Ssa>, liveIn0: seq<LiveValue>, liveIn: seq<LiveValue>)
    reads predRa, ra
  {
    && ra.Valid() && Restricted(ra.ssaReg, predRa.ssaReg, taken)
    && liveIn0 <= liveIn && DistinctRegs(liveIn) && Records(liveIn, ra.file, ra.ssaReg) && ListedInFile(liveIn, ra.file, ra.used)
    && (forall i :: |liveIn0| <= i < |liveIn| ==> liveIn[i].reg.file == ra.file && liveIn[i].ref.LiveSsa? && liveIn[i].ref.v in taken)
    && (forall r :: r in ra.pinned <==> r in ra.used && r in predRa.pinned)
    && forall i :: |liveIn0| <= i < |liveIn| ==> StaysIn(liveIn[i], predRa.file, predRa.ssaReg)
  }

  lemma NothingTaken(predRa: RegAllocator, ra: RegAllocator, live: set<Ssa>, liveIn0: seq<LiveValue>)
    requires ra.Valid() && ra.ssaReg == map[] && DistinctRegs(liveIn0) && NoneInFile(liveIn0, ra.file)
    ensures TakenSoFar(predRa, ra, live * (predRa.ssaReg.Keys - predRa.ssaReg.Keys), liveIn0, liveIn0)
  {
    hide RegAllocator.Valid;
    NothingUsed(ra);
  }

  lemma AllTaken(predRa: RegAllocator, ra: RegAllocator, live: set<Ssa>, liveIn0: seq<LiveValue>, liveIn: seq<LiveValue>)
    requires TakenSoFar(predRa, ra, live * (predRa.ssaReg.Keys - {}), liveIn0, liveIn)
    ensures ra.Valid() && Restricted(ra.ssaReg, predRa.ssaReg, live)
    ensures liveIn0 <= liveIn && DistinctRegs(liveIn) && Records(liveIn, ra.file, ra.ssaReg) && ListedInFile(liveIn, ra.file, ra.used)
    ensures forall i :: |liveIn0| <= i < |liveIn| ==> liveIn[i].reg.file == ra.file && liveIn[i].ref.LiveSsa? && liveIn[i].ref.v in live
    ensures forall r :: r in ra.pinned <==> r in ra.used && r in predRa.pinned
    ensures forall i :: |liveIn0| <= i < |liveIn| ==> StaysIn(liveIn[i], predRa.file, predRa.ssaReg)
  {
    hide RegAllocator.Valid;
  }

  /** Takes over one more value, with its pin. */
  method TakeOne(predRa: RegAllocator, ra: RegAllocator, ssa: Ssa, ghost taken: set<Ssa>, ghost liveIn0: seq<LiveValue>, liveIn: seq<LiveValue>)
    returns (liveIn': seq<LiveValue>)
    requires predRa != ra && predRa.Valid() && predRa.file == ra.file && predRa.numRegs == ra.numRegs
    requires TakenSoFar(predRa, ra, taken, liveIn0, liveIn) && ssa in predRa.ssaReg && ssa !in taken
    modifies ra
    ensures TakenSoFar(predRa, ra, taken + {ssa}, liveIn0, liveIn')
  {
    hide RegAllocator.Valid;
    var reg := predRa.ssaReg[ssa];
    NotTakenYet(predRa, ra, taken, ssa);
    ra.AssignReg(ssa, reg);
    if reg in predRa.pinned {
      ra.PinReg(reg);
    }
    liveIn' := liveIn + [LiveValue(LiveSsa(ssa), Reg(ra.file, reg))];
  }

  lemma NothingUsed(ra: RegAllocator)
    requires ra.Valid() && ra.ssaReg == map[]
    ensures ra.used == {} && ra.pinned == {}
  {
    assert forall r :: r in ra.used ==> ra.HeldIn(r);
  }

  lemma NotTakenYet(predRa: RegAllocator, ra: RegAllocator, taken: set<Ssa>, ssa: Ssa)
    requires predRa.Valid() && ra.Valid() && Restricted(ra.ssaReg, predRa.ssaReg, taken) && ssa in predRa.ssaReg && ssa !in taken
    ensures ssa !in ra.ssaReg && predRa.ssaReg[ssa] !in ra.used && ssa.file == predRa.file && predRa.ssaReg[ssa] < predRa.numRegs
  {
    predRa.Injective();
    ra.Injective();
  }

  ghost predicate FreshFor(predRas: seq<RegAllocator>, ras: seq<RegAllocator>) {
    && |predRas| == |ras|
    && (forall k :: 0 <= k < |ras| ==> predRas[k].file == ras[k].file && predRas[k].numRegs == ras[k].numRegs)
    && (forall j, k :: 0 <= j < |ras| && 0 <= k < |ras| ==> predRas[j] != ras[k])
  }

  /** Starts all of a block's allocators. */
  method StartBlock(predRas: seq<RegAllocator>, ras: seq<RegAllocator>, live: set<Ssa>) returns (liveIn: seq<LiveValue>)
    requires PerFile(ras) && FreshFor(predRas, ras)
    requires forall k :: 0 <= k < |ras| ==> predRas[k].Valid() && ras[k].Valid() && ras[k].ssaReg == map[]
    modifies ras
    ensures forall k :: 0 <= k < |ras| ==> ras[k].Valid() && Restricted(ras[k].ssaReg, predRas[k].ssaReg, live)
    ensures DistinctRegs(liveIn) && forall k :: 0 <= k < |ras| ==> Records(liveIn, ras[k].file, ras[k].ssaReg)
    ensures forall k :: 0 <= k < |ras| ==> ListedInFile(liveIn, ras[k].file, ras[k].used)
    ensures forall i :: 0 <= i < |liveIn| ==> liveIn[i].ref.LiveSsa? && liveIn[i].ref.v in live
    ensures forall i :: 0 <= i < |liveIn| ==> StaysInOne(liveIn[i], predRas, Maps(predRas))
  {
    hide RegAllocator.Valid, Restricted, StaysIn;
    liveIn := [];
    for k := 0 to |ras|
      invariant forall j :: 0 <= j < |ras| ==> predRas[j].Valid() && ras[j].Valid()
      invariant forall j :: k <= j < |ras| ==> ras[j].ssaReg == map[] && NoneInFile(liveIn, ras[j].file)
      invariant DistinctRegs(liveIn)
      invariant forall j :: 0 <= j < k ==> Restricted(ras[j].ssaReg, predRas[j].ssaReg, live)
      invariant forall j :: 0 <= j < k ==> Records(liveIn, ras[j].file, ras[j].ssaReg) && ListedInFile(liveIn, ras[j].file, ras[j].used)
      invariant forall i :: 0 <= i < |liveIn| ==> liveIn[i].ref.LiveSsa? && liveIn[i].ref.v in live
      invariant forall i :: 0 <= i < |liveIn| ==> StaysInOne(liveIn[i], predRas, Maps(predRas))
    {
      ghost var was := liveIn;
      liveIn := TakeLiveIn(predRas[k], ras[k], live, liveIn);
      assert Maps(predRas)[k] == predRas[k].ssaReg;
      assert forall i :: 0 <= i < |was| ==> liveIn[i] == was[i];
      forall j | 0 <= j < |ras| && j != k
        ensures j > k ==> NoneInFile(liveIn, ras[j].file)
        ensures j < k ==> Records(liveIn, ras[j].file, ras[j].ssaReg) && ListedInFile(liveIn, ras[j].file, ras[j].used)
      {
        OtherFileListed(was, liveIn, ras[k].file, ras[j].file, ras[j].ssaReg, ras[j].used);
      }
    }
  }

  lemma OtherFileListed(was: seq<LiveValue>, liveIn: seq<LiveValue>, file: RegFile, other: RegFile, m: map<Ssa, nat>, used: set<nat>)
    requires was <= liveIn && file != other && forall i :: |was| <= i < |liveIn| ==> liveIn[i].reg.file == file
    ensures NoneInFile(was, other) ==> NoneInFile(liveIn, other)
    ensures Records(was, other, m) ==> Records(liveIn, other, m)
    ensures ListedInFile(was, other, used) ==> ListedInFile(liveIn, other, used)
  {
    assert forall i :: 0 <= i < |was| ==> liveIn[i] == was[i];
    if Records(was, other, m) {
      forall v | v in m
        ensures LiveValue(LiveSsa(v), Reg(other, m[v])) in liveIn
      {
        var i :| 0 <= i < |was| && was[i] == LiveValue(LiveSsa(v), Reg(other, m[v]));
        assert liveIn[i] == was[i];
      }
    }
  }

  // ----- Phis -----

  method IndexOf(ras: seq<RegAllocator>, file: RegFile) returns (k: nat)
    requires HasFile(ras, file)
    ensures k < |ras| && ras[k].file == file
  {
    k := 0;
    while ras[k].file != file
      invariant k < |ras| && exists j :: k <= j < |ras| && ras[j].file == file
      decreases |ras| - k
    {
      k := k + 1;
    }
  }

  /** The register holds a live-in value or the phi that defines it. */
  ghost predicate Recorded(liveIn: seq<LiveValue>, phis: seq<(nat, Ssa)>, v: Ssa, reg: Reg) {
    LiveValue(LiveSsa(v), reg) in liveIn || exists p :: (p, v) in phis && LiveValue(LivePhi(p), reg) in liveIn
  }

  ghost predicate AllRecorded(ras: seq<RegAllocator>, maps: seq<map<Ssa, nat>>, liveIn: seq<LiveValue>, phis: seq<(nat, Ssa)>)
    requires |maps| == |ras|
  {
    forall k, v {:trigger v in maps[k]} :: 0 <= k < |ras| && v in maps[k] ==> Recorded(liveIn, phis, v, Reg(ras[k].file, maps[k][v]))
  }

  ghost predicate AllListed(ras: seq<RegAllocator>, liveIn: seq<LiveValue>)
    reads ras
  {
    forall k :: 0 <= k < |ras| ==> ListedInFile(liveIn, ras[k].file, ras[k].used)
  }

  /** Places one phi in a free register and records it. */
  method PlacePhi(phi: nat, ssa: Ssa, hints: seq<nat>, ras: seq<RegAllocator>, liveIn0: seq<LiveValue>, ghost phis: seq<(nat, Ssa)>)
    returns (ok: bool, liveIn: seq<LiveValue>)
    requires PerFile(ras) && (forall k :: 0 <= k < |ras| ==> ras[k].Valid()) && HasFile(ras, ssa.file)
    requires forall k :: 0 <= k < |ras| ==> ssa !in ras[k].ssaReg
    requires DistinctRegs(liveIn0) && AllListed(ras, liveIn0) && AllRecorded(ras, Maps(ras), liveIn0, phis)
    modifies ras
    ensures ok ==> forall k :: 0 <= k < |ras| ==> ras[k].Valid()
    ensures ok ==> DistinctRegs(liveIn) && AllListed(ras, liveIn) && AllRecorded(ras, Maps(ras), liveIn, phis + [(phi, ssa)])
    ensures ok ==> forall k :: 0 <= k < |ras| ==> Extends(old(ras[k].ssaReg), ras[k].ssaReg)
    ensures ok ==> forall k :: 0 <= k < |ras| ==> ras[k].ssaReg.Keys == old(ras[k].ssaReg.Keys) + if ras[k].file == ssa.file then {ssa} else {}
    ensures ok ==> liveIn0 <= liveIn && |liveIn| == |liveIn0| + 1 && liveIn[|liveIn0|].ref == LivePhi(phi)
  {
    hide RegAllocator.Valid, AllRecorded;
    var k := IndexOf(ras, ssa.file);
    var reg := ras[k].AllocScalar(hints, ssa);
    if reg.None? {
      return false, liveIn0;
    }
    liveIn := liveIn0 + [LiveValue(LivePhi(phi), Reg(ssa.file, reg.value))];
    PhiRecorded(ras, k, old(Maps(ras)), Maps(ras), liveIn0, phis, phi, ssa, reg.value);
    forall j | 0 <= j < |ras|
      ensures ListedInFile(liveIn, ras[j].file, ras[j].used)
    {
      assert old(ListedInFile(liveIn0, ras[j].file, ras[j].used));
    }
    ok := true;
  }

  function Put(m: map<Ssa, nat>, v: Ssa, reg: nat): map<Ssa, nat> {
    m[v := reg]
  }

  lemma PhiRecorded(ras: seq<RegAllocator>, k: nat, maps0: seq<map<Ssa, nat>>, maps: seq<map<Ssa, nat>>, liveIn: seq<LiveValue>, phis: seq<(nat, Ssa)>,
                    phi: nat, ssa: Ssa, reg: nat)
    requires k < |ras| == |maps0| == |maps| && AllRecorded(ras, maps0, liveIn, phis) && ras[k].file == ssa.file
    requires maps == maps0[k := Put(maps0[k], ssa, reg)]
    ensures AllRecorded(ras, maps, liveIn + [LiveValue(LivePhi(phi), Reg(ssa.file, reg))], phis + [(phi, ssa)])
  {
    var added := LiveValue(LivePhi(phi), Reg(ssa.file, reg));
    forall j, v | 0 <= j < |ras| && v in maps[j]
      ensures Recorded(liveIn + [added], phis + [(phi, ssa)], v, Reg(ras[j].file, maps[j][v]))
    {
      if j == k && v == ssa {
        assert (phi, ssa) in phis + [(phi, ssa)] && added in liveIn + [added];
      } else {
        assert v in maps0[j];
        RecordedStays(liveIn, added, phis, (phi, ssa), v, Reg(ras[j].file, maps[j][v]));
      }
    }
  }

  lemma RecordedStays(liveIn: seq<LiveValue>, added: LiveValue, phis: seq<(nat, Ssa)>, p: (nat, Ssa), v: Ssa, reg: Reg)
    requires Recorded(liveIn, phis, v, reg)
    ensures Recorded(liveIn + [added], phis + [p], v, reg)
  {
    if LiveValue(LiveSsa(v), reg) !in liveIn {
      var q :| (q, v) in phis && LiveValue(LivePhi(q), reg) in liveIn;
      assert (q, v) in phis + [p] && LiveValue(LivePhi(q), reg) in liveIn + [added];
    }
  }

  // ----- The copies on an edge -----

  /** The copies bring what `src` denotes into `reg`. */
  ghost predicate Delivered(copies: seq<Copy>, reg: Reg, src: Src) {
    (src == FromReg(reg) && !IsDst(copies, reg)) || Copy(reg, src) in copies
  }

  ghost predicate Available(ras: seq<RegAllocator>, maps: seq<map<Ssa, nat>>, phiOut: map<nat, Src>, ref: LiveRef)
    requires |maps| == |ras|
  {
    match ref
    case LiveSsa(v) => exists k :: 0 <= k < |ras| && ras[k].file == v.file && v in maps[k]
    case LivePhi(p) => p in phiOut
  }

  /** Where the predecessor has what the successor expects. */
  ghost predicate IsSource(ras: seq<RegAllocator>, maps: seq<map<Ssa, nat>>, phiOut: map<nat, Src>, ref: LiveRef, src: Src)
    requires |maps| == |ras|
  {
    match ref
    case LiveSsa(v) => exists k :: 0 <= k < |ras| && ras[k].file == v.file && v in maps[k] && src == FromReg(Reg(v.file, maps[k][v]))
    case LivePhi(p) => p in phiOut && src == phiOut[p]
  }

  ghost predicate DeliveredAt(ras: seq<RegAllocator>, maps: seq<map<Ssa, nat>>, phiOut: map<nat, Src>, lv: LiveValue, copies: seq<Copy>)
    requires |maps| == |ras|
  {
    exists src :: IsSource(ras, maps, phiOut, lv.ref, src) && Delivered(copies, lv.reg, src)
  }

  method SourceOf(ras: seq<RegAllocator>, phiOut: map<nat, Src>, ref: LiveRef) returns (src: Src)
    requires PerFile(ras) && Available(ras, Maps(ras), phiOut, ref)
    ensures IsSource(ras, Maps(ras), phiOut, ref, src)
  {
    match ref {
      case LiveSsa(v) =>
        ghost var j :| 0 <= j < |ras| && ras[j].file == v.file && v in Maps(ras)[j];
        var k := IndexOf(ras, v.file);
        assert k == j && Maps(ras)[k] == ras[k].ssaReg;
        src := FromReg(Reg(v.file, ras[k].ssaReg[v]));
      case LivePhi(p) =>
        src := phiOut[p];
    }
  }

  lemma DeliveredStays(copies: seq<Copy>, c: Copy, reg: Reg, src: Src)
    requires Delivered(copies, reg, src) && c.dst != reg
    ensures Delivered(copies + [c], reg, src)
  {
    PushCopy(copies, c);
  }

  lemma AllDeliveredStay(ras: seq<RegAllocator>, maps: seq<map<Ssa, nat>>, phiOut: map<nat, Src>, liveIn: seq<LiveValue>, n: nat, copies: seq<Copy>, c: Copy)
    requires |maps| == |ras| && n < |liveIn| && DistinctRegs(liveIn) && c.dst == liveIn[n].reg
    requires forall i :: 0 <= i < n ==> DeliveredAt(ras, maps, phiOut, liveIn[i], copies)
    ensures forall i :: 0 <= i < n ==> DeliveredAt(ras, maps, phiOut, liveIn[i], copies + [c])
  {
    forall i | 0 <= i < n
      ensures DeliveredAt(ras, maps, phiOut, liveIn[i], copies + [c])
    {
      assert DeliveredAt(ras, maps, phiOut, liveIn[i], copies);
      var src :| IsSource(ras, maps, phiOut, liveIn[i].ref, src) && Delivered(copies, liveIn[i].reg, src);
      DeliveredStays(copies, c, liveIn[i].reg, src);
    }
  }

  ghost predicate WritesOnly(copies: seq<Copy>, liveIn: seq<LiveValue>, n: nat)
    requires n <= |liveIn|
  {
    forall i :: 0 <= i < |copies| ==> exists j :: 0 <= j < n && liveIn[j].reg == copies[i].dst
  }

  lemma WritesOneMore(copies: seq<Copy>, liveIn: seq<LiveValue>, n: nat, src: Src)
    requires n < |liveIn| && DistinctRegs(liveIn) && WritesOnly(copies, liveIn, n) && DistinctDsts(copies)
    ensures WritesOnly(copies, liveIn, n + 1) && !IsDst(copies, liveIn[n].reg)
    ensures WritesOnly(copies + [Copy(liveIn[n].reg, src)], liveIn, n + 1) && DistinctDsts(copies + [Copy(liveIn[n].reg, src)])
  {
    forall i | 0 <= i < |copies|
      ensures copies[i].dst != liveIn[n].reg && exists j :: 0 <= j < n + 1 && liveIn[j].reg == copies[i].dst
    {
      var j :| 0 <= j < n && liveIn[j].reg == copies[i].dst;
    }
    var more := copies + [Copy(liveIn[n].reg, src)];
    forall i | 0 <= i < |more|
      ensures exists j :: 0 <= j < n + 1 && liveIn[j].reg == more[i].dst
    {
      if i < |copies| {
        assert more[i] == copies[i];
      } else {
        assert liveIn[n].reg == more[i].dst;
      }
    }
  }

  /** Every copy brings something that the successor expects. */
  ghost predicate FromSources(ras: seq<RegAllocator>, maps: seq<map<Ssa, nat>>, phiOut: map<nat, Src>, liveIn: seq<LiveValue>, copies: seq<Copy>)
    requires |maps| == |ras|
  {
    forall i :: 0 <= i < |copies| ==> exists lv :: lv in liveIn && copies[i].dst == lv.reg && IsSource(ras, maps, phiOut, lv.ref, copies[i].src)
  }

  lemma OneMoreSource(ras: seq<RegAllocator>, maps: seq<map<Ssa, nat>>, phiOut: map<nat, Src>, liveIn: seq<LiveValue>, copies: seq<Copy>, n: nat, src: Src)
    requires |maps| == |ras| && n < |liveIn| && FromSources(ras, maps, phiOut, liveIn, copies) && IsSource(ras, maps, phiOut, liveIn[n].ref, src)
    ensures FromSources(ras, maps, phiOut, liveIn, copies + [Copy(liveIn[n].reg, src)])
  {
    hide IsSource;
    assert liveIn[n] in liveIn;
  }

  /** The parallel copy at the end of a block for one of its successors. */
  method SecondPass(ras: seq<RegAllocator>, phiOut: map<nat, Src>, liveIn: seq<LiveValue>) returns (copies: seq<Copy>)
    requires PerFile(ras) && DistinctRegs(liveIn)
    requires forall i :: 0 <= i < |liveIn| ==> Available(ras, Maps(ras), phiOut, liveIn[i].ref)
    ensures DistinctDsts(copies) && WritesOnly(copies, liveIn, |liveIn|) && FromSources(ras, Maps(ras), phiOut, liveIn, copies)
    ensures (forall i :: 0 <= i < |liveIn| ==> StaysInOne(liveIn[i], ras, Maps(ras))) ==> copies == []
    ensures forall i :: 0 <= i < |liveIn| ==> DeliveredAt(ras, Maps(ras), phiOut, liveIn[i], copies)
  {
    hide Available, IsSource, DeliveredAt, DistinctRegs, WritesOnly, StaysInOne, FromSources;
    copies := [];
    WritesNothing(liveIn);
    assert FromSources(ras, Maps(ras), phiOut, liveIn, []) by { NothingFrom(ras, Maps(ras), phiOut, liveIn); }
    for n := 0 to |liveIn|
      invariant DistinctDsts(copies) && WritesOnly(copies, liveIn, n) && FromSources(ras, Maps(ras), phiOut, liveIn, copies)
      invariant (forall i :: 0 <= i < n ==> StaysInOne(liveIn[i], ras, Maps(ras))) ==> copies == []
      invariant forall i :: 0 <= i < n ==> DeliveredAt(ras, Maps(ras), phiOut, liveIn[i], copies)
    {
      var src := SourceOf(ras, phiOut, liveIn[n].ref);
      var c := Copy(liveIn[n].reg, src);
      WritesOneMore(copies, liveIn, n, src);
      if StaysInOne(liveIn[n], ras, Maps(ras)) {
        StaysSource(ras, Maps(ras), phiOut, liveIn[n], src);
      }
      if src == FromReg(liveIn[n].reg) {
        DeliveredByStaying(ras, Maps(ras), phiOut, liveIn[n], copies, src);
      } else {
        AllDeliveredStay(ras, Maps(ras), phiOut, liveIn, n, copies, c);
        OneMoreSource(ras, Maps(ras), phiOut, liveIn, copies, n, src);
        copies := copies + [c];
        DeliveredByCopy(ras, Maps(ras), phiOut, liveIn[n], copies, src);
      }
    }
  }

  /** What is expected where it is comes from there. */
  lemma StaysSource(ras: seq<RegAllocator>, maps: seq<map<Ssa, nat>>, phiOut: map<nat, Src>, lv: LiveValue, src: Src)
    requires |maps| == |ras| && PerFile(ras) && IsSource(ras, maps, phiOut, lv.ref, src) && StaysInOne(lv, ras, maps)
    ensures src == FromReg(lv.reg)
  {
    var j :| 0 <= j < |ras| && StaysIn(lv, ras[j].file, maps[j]);
    var v := lv.ref.v;
    var k :| 0 <= k < |ras| && ras[k].file == v.file && v in maps[k] && src == FromReg(Reg(v.file, maps[k][v]));
    assert j == k;
  }

  lemma NothingFrom(ras: seq<RegAllocator>, maps: seq<map<Ssa, nat>>, phiOut: map<nat, Src>, liveIn: seq<LiveValue>)
    requires |maps| == |ras|
    ensures FromSources(ras, maps, phiOut, liveIn, [])
  {
  }

  lemma WritesNothing(liveIn: seq<LiveValue>)
    ensures WritesOnly([], liveIn, 0)
  {
  }

  lemma DeliveredByStaying(ras: seq<RegAllocator>, maps: seq<map<Ssa, nat>>, phiOut: map<nat, Src>, lv: LiveValue, copies: seq<Copy>, src: Src)
    requires |maps| == |ras| && IsSource(ras, maps, phiOut, lv.ref, src) && src == FromReg(lv.reg) && !IsDst(copies, lv.reg)
    ensures DeliveredAt(ras, maps, phiOut, lv, copies)
  {
  }

  lemma DeliveredByCopy(ras: seq<RegAllocator>, maps: seq<map<Ssa, nat>>, phiOut: map<nat, Src>, lv: LiveValue, copies: seq<Copy>, src: Src)
    requires |maps| == |ras| && IsSource(ras, maps, phiOut, lv.ref, src) && Copy(lv.reg, src) in copies
    ensures DeliveredAt(ras, maps, phiOut, lv, copies)
  {
  }

  // ----- What the copies on an edge achieve -----

  /** The SSA program crosses an edge: every phi takes its source's value, nothing else changes. */
  ghost predicate EdgeStep(phis: seq<(nat, Ssa)>, phiSrcs: map<nat, PhiSrc>, env: Env, env': Env) {
    && (forall p, v :: (p, v) in phis && p in phiSrcs ==> env'(v) == PhiWord(phiSrcs[p], env))
    && (forall v :: (forall p :: (p, v) !in phis) ==> env'(v) == env(v))
  }

  function PhiWord(src: PhiSrc, env: Env): Word {
    match src
    case SsaSrc(v) => env(v)
    case FixedSrc(w) => w
  }

  /** The predecessor's phi outputs denote the phi sources. */
  ghost predicate PhiOutOk(phiOut: map<nat, Src>, phiSrcs: map<nat, PhiSrc>, env: Env, s: State) {
    forall p :: p in phiOut ==> p in phiSrcs && Eval(phiOut[p], s) == PhiWord(phiSrcs[p], env)
  }

  lemma DeliveredValue(copies: seq<Copy>, reg: Reg, src: Src, s: State, t: State)
    requires Delivered(copies, reg, src) && IsParallelCopy(copies, iset{}, s, t)
    ensures t(reg) == Eval(src, s)
  {
    if Copy(reg, src) in copies {
      var i :| 0 <= i < |copies| && copies[i] == Copy(reg, src);
      assert t(copies[i].dst) == Eval(copies[i].src, s);
    }
  }

  lemma LiveValueDelivered(predRas: seq<RegAllocator>, predMaps: seq<map<Ssa, nat>>, phiOut: map<nat, Src>, phiSrcs: map<nat, PhiSrc>,
                           lv: LiveValue, copies: seq<Copy>, env: Env, s: State, t: State)
    requires HoldsAll(predRas, predMaps, env, s) && PhiOutOk(phiOut, phiSrcs, env, s) && IsParallelCopy(copies, iset{}, s, t)
    requires DeliveredAt(predRas, predMaps, phiOut, lv, copies)
    ensures lv.ref.LiveSsa? ==> t(lv.reg) == env(lv.ref.v)
    ensures lv.ref.LivePhi? ==> lv.ref.phi in phiSrcs && t(lv.reg) == PhiWord(phiSrcs[lv.ref.phi], env)
  {
    var src :| IsSource(predRas, predMaps, phiOut, lv.ref, src) && Delivered(copies, lv.reg, src);
    DeliveredValue(copies, lv.reg, src, s, t);
    if lv.ref.LiveSsa? {
      var v := lv.ref.v;
      var k :| 0 <= k < |predRas| && predRas[k].file == v.file && v in predMaps[k] && src == FromReg(Reg(v.file, predMaps[k][v]));
      assert Holds(predRas[k].file, predMaps[k], env, s);
    }
  }

  /** After the edge copies every live-in value and every phi of the successor is in the register that
      the successor assumed. */
  lemma EdgeKeepsValues(predRas: seq<RegAllocator>, predMaps: seq<map<Ssa, nat>>, phiOut: map<nat, Src>, phiSrcs: map<nat, PhiSrc>,
                        ras: seq<RegAllocator>, maps: seq<map<Ssa, nat>>, liveIn: seq<LiveValue>, phis: seq<(nat, Ssa)>,
                        copies: seq<Copy>, env: Env, env': Env, s: State, t: State)
    requires HoldsAll(predRas, predMaps, env, s) && PhiOutOk(phiOut, phiSrcs, env, s) && IsParallelCopy(copies, iset{}, s, t)
    requires forall i :: 0 <= i < |liveIn| ==> DeliveredAt(predRas, predMaps, phiOut, liveIn[i], copies)
    requires |maps| == |ras| && AllRecorded(ras, maps, liveIn, phis) && EdgeStep(phis, phiSrcs, env, env')
    requires forall k, v {:trigger v in maps[k]} :: 0 <= k < |ras| && v in maps[k] ==> v.file == ras[k].file
    // A live-in value is not the result of a phi of the same block.
    requires forall i :: 0 <= i < |liveIn| && liveIn[i].ref.LiveSsa? ==> forall p :: (p, liveIn[i].ref.v) !in phis
    ensures HoldsAll(ras, maps, env', t)
  {
    hide IsParallelCopy, DeliveredAt, HoldsAll, PhiOutOk;
    forall k | 0 <= k < |ras|
      ensures Holds(ras[k].file, maps[k], env', t)
    {
      forall v | v in maps[k]
        ensures t(Reg(ras[k].file, maps[k][v])) == env'(v)
      {
        var reg := Reg(ras[k].file, maps[k][v]);
        assert Recorded(liveIn, phis, v, reg);
        if LiveValue(LiveSsa(v), reg) in liveIn {
          var i :| 0 <= i < |liveIn| && liveIn[i] == LiveValue(LiveSsa(v), reg);
          LiveValueDelivered(predRas, predMaps, phiOut, phiSrcs, liveIn[i], copies, env, s, t);
        } else {
          var p :| (p, v) in phis && LiveValue(LivePhi(p), reg) in liveIn;
          var i :| 0 <= i < |liveIn| && liveIn[i] == LiveValue(LivePhi(p), reg);
          LiveValueDelivered(predRas, predMaps, phiOut, phiSrcs, liveIn[i], copies, env, s, t);
        }
      }
    }
    HoldsFromFiles(ras, maps, env', t);
  }

  lemma HoldsFromFiles(ras: seq<RegAllocator>, maps: seq<map<Ssa, nat>>, env: Env, t: State)
    requires |maps| == |ras| && forall k :: 0 <= k < |ras| ==> Holds(ras[k].file, maps[k], env, t)
    requires forall k, v {:trigger v in maps[k]} :: 0 <= k < |ras| && v in maps[k] ==> v.file == ras[k].file
    ensures HoldsAll(ras, maps, env, t)
  {
  }

  /** `phiOut` says for each phi where its source is at the end of the block. */
  ghost predicate PhiOutFrom(phiOut: map<nat, Src>, phiSrcs: map<nat, PhiSrc>, ras: seq<RegAllocator>, maps: seq<map<Ssa, nat>>)
    requires |maps| == |ras|
  {
    forall p :: p in phiOut ==> p in phiSrcs && PhiOutAt(phiOut[p], phiSrcs[p], ras, maps)
  }

  ghost predicate PhiOutAt(src: Src, of: PhiSrc, ras: seq<RegAllocator>, maps: seq<map<Ssa, nat>>)
    requires |maps| == |ras|
  {
    match of
    case SsaSrc(v) => IsSource(ras, maps, map[], LiveSsa(v), src)
    case FixedSrc(w) => src == Fixed(w)
  }

  /** Records where the phi sources are at the end of the predecessor. */
  method PhiSrcs(srcs: seq<(nat, PhiSrc)>, ras: seq<RegAllocator>, ghost phiSrcs: map<nat, PhiSrc>) returns (phiOut: map<nat, Src>)
    requires PerFile(ras)
    requires forall i :: 0 <= i < |srcs| ==> srcs[i].0 in phiSrcs && phiSrcs[srcs[i].0] == srcs[i].1
    requires forall i :: 0 <= i < |srcs| && srcs[i].1.SsaSrc? ==> Available(ras, Maps(ras), map[], LiveSsa(srcs[i].1.v))
    ensures PhiOutFrom(phiOut, phiSrcs, ras, Maps(ras)) && forall i :: 0 <= i < |srcs| ==> srcs[i].0 in phiOut
  {
    hide Available, IsSource;
    phiOut := map[];
    for i := 0 to |srcs|
      invariant PhiOutFrom(phiOut, phiSrcs, ras, Maps(ras)) && forall j :: 0 <= j < i ==> srcs[j].0 in phiOut
    {
      var src;
      match srcs[i].1 {
        case SsaSrc(v) =>
          src := SourceOf(ras, map[], LiveSsa(v));
        case FixedSrc(w) =>
          src := Fixed(w);
      }
      assert PhiOutAt(src, srcs[i].1, ras, Maps(ras));
      phiOut := phiOut[srcs[i].0 := src];
    }
  }

  lemma PhiOutValues(phiOut: map<nat, Src>, phiSrcs: map<nat, PhiSrc>, ras: seq<RegAllocator>, maps: seq<map<Ssa, nat>>, env: Env, s: State)
    requires |maps| == |ras| && PhiOutFrom(phiOut, phiSrcs, ras, maps) && HoldsAll(ras, maps, env, s)
    ensures PhiOutOk(phiOut, phiSrcs, env, s)
  {
    forall p | p in phiOut
      ensures Eval(phiOut[p], s) == PhiWord(phiSrcs[p], env)
    {
      assert PhiOutAt(phiOut[p], phiSrcs[p], ras, maps);
      if phiSrcs[p].SsaSrc? {
        SourceValue(ras, maps, phiSrcs[p].v, phiOut[p], env, s);
      }
    }
  }

  lemma SourceValue(ras: seq<RegAllocator>, maps: seq<map<Ssa, nat>>, v: Ssa, src: Src, env: Env, s: State)
    requires HoldsAll(ras, maps, env, s) && IsSource(ras, maps, map[], LiveSsa(v), src)
    ensures Eval(src, s) == env(v)
  {
    var k :| 0 <= k < |ras| && ras[k].file == v.file && v in maps[k] && src == FromReg(Reg(v.file, maps[k][v]));
    assert Holds(ras[k].file, maps[k], env, s);
  }

  // ----- Whole runs -----

  /** An allocated block. */
  datatype Block = Block(ras: seq<RegAllocator>, trace: seq<seq<map<Ssa, nat>>>, instrs: seq<Instr>, code: seq<Step>,
                         liveIn: seq<LiveValue>, phis: seq<(nat, Ssa)>)

  /** Values are expected in registers that exist. */
  ghost predicate InRegisters(ras: seq<RegAllocator>, liveIn: seq<LiveValue>) {
    forall i :: 0 <= i < |liveIn| ==> IsRegister(ras, liveIn[i].reg)
  }

  /** What the first pass establishes for a block. */
  ghost predicate BlockOk(b: Block) {
    && StepsOk(b.ras, b.trace, b.instrs, b.code, |b.instrs|)
    && (forall i :: 0 <= i < |b.instrs| ==> Covers(b.ras, b.instrs[i]))
    && |b.trace[0]| == |b.ras| && AllRecorded(b.ras, b.trace[0], b.liveIn, b.phis) && InRegisters(b.ras, b.liveIn)
    && (forall k, v {:trigger v in b.trace[0][k]} :: 0 <= k < |b.ras| && v in b.trace[0][k] ==> v.file == b.ras[k].file)
    && (forall i :: 0 <= i < |b.liveIn| && b.liveIn[i].ref.LiveSsa? ==> forall p :: (p, b.liveIn[i].ref.v) !in b.phis)
  }

  datatype Edge = Edge(phiSrcs: map<nat, PhiSrc>, phiOut: map<nat, Src>, copies: seq<Copy>)

  /** What the second pass establishes for an edge. */
  ghost predicate EdgeOk(p: Block, e: Edge, b: Block)
    requires |p.trace| == |p.instrs| + 1
  {
    var final := p.trace[|p.instrs|];
    && |final| == |p.ras| && PhiOutFrom(e.phiOut, e.phiSrcs, p.ras, final)
    && forall i :: 0 <= i < |b.liveIn| ==> DeliveredAt(p.ras, final, e.phiOut, b.liveIn[i], e.copies)
  }

  /** One pass through a block in both programs. */
  datatype Visit = Visit(block: Block, meanings: seq<Meaning>, envs: seq<Env>, states: seq<State>, copied: seq<State>)

  ghost predicate VisitOk(v: Visit) {
    && BlockOk(v.block)
    && SsaRun(v.block.instrs, v.meanings, v.envs, |v.block.instrs|)
    && RegRun(v.block.instrs, v.meanings, v.block.code, v.states, v.copied, |v.block.instrs|)
  }

  /** Control passes from one block to the next in both programs. */
  ghost predicate Crosses(v: Visit, e: Edge, w: Visit) {
    var n := |v.block.instrs|;
    && |v.block.trace| == n + 1 && |v.envs| > n && |v.states| > n && |w.envs| > 0 && |w.states| > 0
    && EdgeOk(v.block, e, w.block)
    && IsParallelCopy(e.copies, iset{}, v.states[n], w.states[0])
    && EdgeStep(w.block.phis, e.phiSrcs, v.envs[n], w.envs[0])
  }

  /** At the start of the visit the registers hold the values that are live into the block. */
  ghost predicate Agrees(v: Visit) {
    |v.block.trace| > 0 && |v.envs| > 0 && |v.states| > 0 && HoldsAll(v.block.ras, v.block.trace[0], v.envs[0], v.states[0])
  }

  /** On every path through the function the registers hold the live values, whatever blocks it visits. */
  lemma {:induction false} PathKeepsValues(visits: seq<Visit>, edges: seq<Edge>, n: nat)
    requires n < |visits| && |edges| + 1 >= |visits| && (forall i :: 0 <= i < |visits| ==> VisitOk(visits[i]))
    requires forall i :: 0 <= i < |visits| - 1 ==> Crosses(visits[i], edges[i], visits[i + 1])
    requires Agrees(visits[0])
    ensures Agrees(visits[n])
  {
    hide Agrees, VisitOk;
    if n > 0 {
      PathKeepsValues(visits, edges, n - 1);
      assert Crosses(visits[n - 1], edges[n - 1], visits[n - 1 + 1]);
      CrossingKeepsValues(visits[n - 1], edges[n - 1], visits[n]);
    }
  }

  lemma CrossingKeepsValues(v: Visit, e: Edge, w: Visit)
    requires VisitOk(v) && VisitOk(w) && Crosses(v, e, w) && Agrees(v)
    ensures Agrees(w)
  {
    hide HoldsAll, EdgeStep, IsParallelCopy, DeliveredAt, AllRecorded, Covers, SsaRun, RegRun, StepsOk;
    var n := |v.block.instrs|;
    VisitShape(v);
    VisitShape(w);
    BlockKeepsValues(v.block.ras, v.block.trace, v.block.instrs, v.block.code, v.meanings, v.envs, v.states, v.copied, n);
    PhiOutValues(e.phiOut, e.phiSrcs, v.block.ras, v.block.trace[n], v.envs[n], v.states[n]);
    EdgeKeepsValues(v.block.ras, v.block.trace[n], e.phiOut, e.phiSrcs, w.block.ras, w.block.trace[0], w.block.liveIn, w.block.phis,
                    e.copies, v.envs[n], w.envs[0], v.states[n], w.states[0]);
  }

  lemma VisitShape(v: Visit)
    requires VisitOk(v)
    ensures var n := |v.block.instrs|; |v.block.trace| == n + 1 && |v.envs| > n && |v.states| > n
  {
  }
}
