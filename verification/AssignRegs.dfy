/** Register assignment of a whole function: liveness, a first pass over the blocks and a second one over
    the edges (crates/deko-nak/src/assign_regs.rs). */
module AssignRegs {
  import opened Machine
  import opened RegAllocation
  import opened VecRegAllocation
  import opened InstrAllocation
  import opened DstAllocation
  import opened AllocatedCode
  import opened AllocatedBlocks
  import opened EdgeCopies
  import Flow
  import L = SimpleLiveness

  // ----- Functions -----

  /** A block begins with its phis and ends with the sources of its successor's phis. */
  datatype BlockIr = BlockIr(phis: seq<(nat, Ssa)>, instrs: seq<Instr>, phiSrcs: seq<(nat, PhiSrc)>)

  datatype Func = Func(blocks: seq<BlockIr>, succ: seq<seq<nat>>, pred: seq<seq<nat>>)
  {
    /** Strict SSA form without critical edges, in an order in which the first predecessor of a block comes
        before it. */
    ghost predicate Valid() {
      && |succ| == |pred| == |blocks|
      && Flowing()
      && (forall b :: 0 <= b < |blocks| ==> BlockValid(b))
      && (forall b, c :: 0 <= b < |blocks| && c in succ[b] && c < |blocks| ==> EdgeValid(b, c))
    }

    /** Every use is defined on every path to it, no value is defined after a use in its block or twice. */
    ghost predicate Flowing() {
      var g := ToFlow(this);
      && g.Valid() && g.Strict() && g.DefinedOnce()
      && forall path, ip, v :: g.ReachesUse(path, ip, v) ==> path[0] < |pred| && pred[path[0]] != []
    }

    ghost predicate BlockValid(b: nat)
      requires b < |blocks| == |pred|
    {
      && (pred[b] == [] || pred[b][0] < b)
      && (forall i :: 0 <= i < |blocks[b].instrs| ==> WellFormed(blocks[b].instrs[i]))
      && (forall i, j :: 0 <= i < j < |blocks[b].phis| ==> blocks[b].phis[i].1 != blocks[b].phis[j].1)
      && (forall i, j :: 0 <= i < j < |blocks[b].phiSrcs| ==> blocks[b].phiSrcs[i].0 != blocks[b].phiSrcs[j].0)
      && (pred[b] == [] ==> blocks[b].phis == [])
    }

    /** Every phi has a source; and the edge is not critical. */
    ghost predicate EdgeValid(b: nat, c: nat)
      requires b < |blocks| == |succ| == |pred| && c < |blocks|
    {
      && (forall i :: 0 <= i < |blocks[c].phis| ==> exists j :: 0 <= j < |blocks[b].phiSrcs| && blocks[b].phiSrcs[j].0 == blocks[c].phis[i].0)
      && (|succ[b]| == 1 || (pred[c] == [b] && blocks[c].phis == []))
    }
  }

  // ----- What liveness sees -----

  const NUM_FILES: nat := 7

  function FileIndex(file: RegFile): (i: nat)
    ensures i < NUM_FILES
  {
    match file
    case GPR => 0
    case UGPR => 1
    case Pred => 2
    case UPred => 3
    case Carry => 4
    case Bar => 5
    case Mem => 6
  }

  const FILES: seq<RegFile> := [GPR, UGPR, Pred, UPred, Carry, Bar, Mem]

  /** A value packs its file and its number. */
  function Pack(v: Ssa): nat {
    FileIndex(v.file) + NUM_FILES * v.id
  }

  function Unpack(n: nat): Ssa {
    Ssa(FILES[n % NUM_FILES], n / NUM_FILES)
  }

  lemma Packed(v: Ssa, n: nat)
    ensures Unpack(Pack(v)) == v && Pack(Unpack(n)) == n
  {
  }

  function PackAll(vs: seq<Ssa>): (ns: seq<nat>)
    ensures |ns| == |vs|
  {
    seq(|vs|, i requires 0 <= i < |vs| => Pack(vs[i]))
  }

  lemma InPacked(vs: seq<Ssa>, v: Ssa)
    ensures Pack(v) in PackAll(vs) <==> v in vs
  {
    if Pack(v) in PackAll(vs) {
      var i :| 0 <= i < |vs| && Pack(vs[i]) == Pack(v);
      Packed(v, 0);
      Packed(vs[i], 0);
    }
    if v in vs {
      var i :| 0 <= i < |vs| && vs[i] == v;
      assert PackAll(vs)[i] == Pack(v);
    }
  }

  function OperandValues(ops: seq<Operand>): seq<Ssa> {
    if ops == [] then [] else
      OperandValues(ops[..|ops| - 1]) + if ops[|ops| - 1].Vec? then ops[|ops| - 1].ssa else []
  }

  lemma {:induction false} InOperands(ops: seq<Operand>, v: Ssa)
    ensures v in OperandValues(ops) <==> exists i :: 0 <= i < |ops| && Has(ops[i], v)
  {
    if ops != [] {
      var shorter, last := ops[..|ops| - 1], ops[|ops| - 1];
      InOperands(shorter, v);
      if i :| 0 <= i < |ops| && Has(ops[i], v) {
        assert i < |shorter| ==> Has(shorter[i], v);
      }
      if i :| 0 <= i < |shorter| && Has(shorter[i], v) {
        assert Has(ops[i], v);
      }
      if Has(last, v) {
        assert Has(ops[|ops| - 1], v);
      }
    }
  }

  function UsedValues(instr: Instr): seq<Ssa> {
    (if instr.pred.Some? then [instr.pred.value] else []) + OperandValues(instr.srcs)
  }

  function FlowInstr(instr: Instr): Flow.Instr {
    Flow.Instr(PackAll(UsedValues(instr)), PackAll(OperandValues(instr.dsts)))
  }

  lemma FlowInstrIs(instr: Instr, v: Ssa)
    ensures Pack(v) in FlowInstr(instr).uses <==> Uses(instr, v)
    ensures Pack(v) in FlowInstr(instr).defs <==> Defines(instr, v)
  {
    InPacked(UsedValues(instr), v);
    InPacked(OperandValues(instr.dsts), v);
    InOperands(instr.srcs, v);
    InOperands(instr.dsts, v);
  }

  function PhiDefs(phis: seq<(nat, Ssa)>): (vs: seq<Ssa>)
    ensures |vs| == |phis|
  {
    seq(|phis|, i requires 0 <= i < |phis| => phis[i].1)
  }

  function PhiUses(srcs: seq<(nat, PhiSrc)>): seq<Ssa> {
    if srcs == [] then [] else
      var last := srcs[|srcs| - 1].1;
      PhiUses(srcs[..|srcs| - 1]) + if last.SsaSrc? then [last.v] else []
  }

  lemma {:induction false} PhiUsed(srcs: seq<(nat, PhiSrc)>, i: nat)
    requires i < |srcs| && srcs[i].1.SsaSrc?
    ensures srcs[i].1.v in PhiUses(srcs)
  {
    if i < |srcs| - 1 {
      PhiUsed(srcs[..|srcs| - 1], i);
    }
  }

  /** The phis are the first instruction of a block, their sources the last. */
  function FlowBlock(b: BlockIr): (block: seq<Flow.Instr>)
    ensures |block| == |b.instrs| + 2
  {
    [Flow.Instr([], PackAll(PhiDefs(b.phis)))]
    + seq(|b.instrs|, i requires 0 <= i < |b.instrs| => FlowInstr(b.instrs[i]))
    + [Flow.Instr(PackAll(PhiUses(b.phiSrcs)), [])]
  }

  function ToFlow(f: Func): (g: Flow.Function)
    ensures |g.blocks| == |f.blocks|
  {
    Flow.Function(seq(|f.blocks|, b requires 0 <= b < |f.blocks| => FlowBlock(f.blocks[b])), f.succ, f.pred)
  }

  function Unpacked(live: set<nat>): set<Ssa> {
    set n | n in live :: Unpack(n)
  }

  lemma InUnpacked(live: set<nat>, v: Ssa)
    ensures v in Unpacked(live) <==> Pack(v) in live
  {
    Packed(v, 0);
    if v in Unpacked(live) {
      var n :| n in live && Unpack(n) == v;
      Packed(v, n);
    }
  }

  ghost predicate LiveOf(f: Func, live: L.Live) {
    L.IsExact(ToFlow(f), live)
  }

  /** The values live in block `b` before instruction `n`; the first instruction is the phis. */
  function LiveAt(f: Func, live: L.Live, b: nat, n: nat): set<Ssa>
    requires b < |f.blocks| == |live.blocks| == |live.liveIn| == |live.liveOut|
  {
    Unpacked(L.LiveBefore(ToFlow(f), live, b, n))
  }

  lemma LiveShape(f: Func, live: L.Live)
    requires LiveOf(f, live)
    ensures |live.blocks| == |live.liveIn| == |live.liveOut| == |f.blocks|
  {
  }

  /** Liveness is right for every instruction. */
  lemma InstrIsLiveStep(f: Func, live: L.Live, b: nat, i: nat)
    requires f.Valid() && LiveOf(f, live) && b < |f.blocks| == |live.blocks| == |live.liveIn| == |live.liveOut| && i < |f.blocks[b].instrs|
    ensures LiveStep(f.blocks[b].instrs[i], LiveAt(f, live, b, i + 1), LiveAt(f, live, b, i + 2))
  {
    hide L.IsExact, L.LiveBefore, Pack, FlowInstr, Func.EdgeValid;
    var g, instr := ToFlow(f), f.blocks[b].instrs[i];
    L.LiveSteps(g, live, b, i + 1);
    assert g.blocks[b][i + 1] == FlowInstr(instr);
    assert f.BlockValid(b);
    forall v
      ensures v in LiveAt(f, live, b, i + 1) <==> Pack(v) in L.LiveBefore(g, live, b, i + 1)
      ensures v in LiveAt(f, live, b, i + 2) <==> Pack(v) in L.LiveBefore(g, live, b, i + 2)
      ensures Pack(v) in FlowInstr(instr).uses <==> Uses(instr, v)
      ensures Pack(v) in FlowInstr(instr).defs <==> Defines(instr, v)
    {
      InUnpacked(L.LiveBefore(g, live, b, i + 1), v);
      InUnpacked(L.LiveBefore(g, live, b, i + 2), v);
      FlowInstrIs(instr, v);
    }
  }

  /** The phis are new, and what is live behind them is live before them or a phi. */
  lemma PhisAreLiveStep(f: Func, live: L.Live, b: nat, v: Ssa)
    requires f.Valid() && LiveOf(f, live) && b < |f.blocks| == |live.blocks| == |live.liveIn| == |live.liveOut|
    ensures v in PhiDefs(f.blocks[b].phis) ==> v !in LiveAt(f, live, b, 0)
    ensures v in LiveAt(f, live, b, 1) ==> v in LiveAt(f, live, b, 0) || v in PhiDefs(f.blocks[b].phis)
    ensures v in LiveAt(f, live, b, 0) ==> v in LiveAt(f, live, b, 1)
  {
    hide L.IsExact, L.LiveBefore, Pack, Func.BlockValid, Func.EdgeValid;
    var g := ToFlow(f);
    L.LiveSteps(g, live, b, 0);
    assert g.blocks[b][0] == Flow.Instr([], PackAll(PhiDefs(f.blocks[b].phis)));
    InPacked(PhiDefs(f.blocks[b].phis), v);
    InUnpacked(L.LiveBefore(g, live, b, 0), v);
    InUnpacked(L.LiveBefore(g, live, b, 1), v);
  }

  /** The sources of the successor's phis are live at the end. */
  lemma PhiSrcIsLive(f: Func, live: L.Live, b: nat, i: nat)
    requires f.Valid() && LiveOf(f, live) && b < |f.blocks| == |live.blocks| == |live.liveIn| == |live.liveOut|
    requires i < |f.blocks[b].phiSrcs| && f.blocks[b].phiSrcs[i].1.SsaSrc?
    ensures f.blocks[b].phiSrcs[i].1.v in LiveAt(f, live, b, |f.blocks[b].instrs| + 1)
  {
    hide L.IsExact, L.LiveBefore, Pack, Func.BlockValid, Func.EdgeValid;
    var g, n, v := ToFlow(f), |f.blocks[b].instrs| + 1, f.blocks[b].phiSrcs[i].1.v;
    L.LiveSteps(g, live, b, n);
    assert g.blocks[b][n] == Flow.Instr(PackAll(PhiUses(f.blocks[b].phiSrcs)), []);
    PhiUsed(f.blocks[b].phiSrcs, i);
    InPacked(PhiUses(f.blocks[b].phiSrcs), v);
    InUnpacked(L.LiveBefore(g, live, b, n), v);
  }

  /** What is live into a block is live at the end of those before it. */
  lemma LiveOnEdge(f: Func, live: L.Live, b: nat, c: nat, v: Ssa)
    requires f.Valid() && LiveOf(f, live) && b < |f.blocks| == |live.blocks| == |live.liveIn| == |live.liveOut|
    requires c < |f.blocks| && c in f.succ[b] && v in LiveAt(f, live, c, 0)
    ensures v in LiveAt(f, live, b, |f.blocks[b].instrs| + 1)
  {
    hide L.IsExact, L.Live.IsLiveAfterIp, Pack, Func.BlockValid, Func.EdgeValid;
    var g, n := ToFlow(f), |f.blocks[b].instrs| + 1;
    InUnpacked(L.LiveBefore(g, live, c, 0), v);
    L.LiveAcrossEdge(g, live, b, c, Pack(v));
    forall i: nat | n <= i
      ensures !g.DefinedAt(b, i, Pack(v))
    {
      assert g.blocks[b][n] == Flow.Instr(PackAll(PhiUses(f.blocks[b].phiSrcs)), []);
    }
    L.LiveOutStays(g, live, b, n, Pack(v));
    InUnpacked(L.LiveBefore(g, live, b, n), v);
  }

  lemma LiveInHasPred(f: Func, live: L.Live, b: nat, n: nat)
    requires f.Valid() && LiveOf(f, live) && b < |f.blocks| == |live.liveIn| && n in live.liveIn[b]
    ensures f.pred[b] != []
  {
    hide L.Summarizes, Func.BlockValid, Func.EdgeValid, Flow.Function.LiveOut;
    var path, ip :| ToFlow(f).ReachesUse(path, ip, n) && path[0] == b;
  }

  /** Nothing is live into a block that nothing comes before. */
  lemma NothingLiveIn(f: Func, live: L.Live, b: nat)
    requires f.Valid() && LiveOf(f, live) && b < |f.blocks| == |live.blocks| == |live.liveIn| == |live.liveOut| && f.pred[b] == []
    ensures LiveAt(f, live, b, 0) == {}
  {
    hide Func.Valid, LiveOf;
    if live.liveIn[b] != {} {
      var n :| n in live.liveIn[b];
      LiveInHasPred(f, live, b, n);
    }
  }

  // ----- The first pass over a block -----

  /** An allocator for every file. */
  method NewAllocators(numRegs: RegFile -> nat) returns (ras: seq<RegAllocator>)
    ensures AllFiles(ras) && PerFile(ras) && (forall k :: 0 <= k < |ras| ==> fresh(ras[k]))
    ensures forall k :: 0 <= k < |ras| ==> ras[k].Valid() && ras[k].ssaReg == map[] && ras[k].numRegs == numRegs(ras[k].file)
  {
    hide RegAllocator.Valid;
    ras := [];
    for k := 0 to NUM_FILES
      invariant |ras| == k && forall j :: 0 <= j < k ==> fresh(ras[j]) && ras[j].file == FILES[j] && ras[j].numRegs == numRegs(FILES[j])
      invariant forall j :: 0 <= j < k ==> ras[j].Valid() && ras[j].ssaReg == map[]
      invariant PerFile(ras)
    {
      var ra := new RegAllocator(FILES[k], numRegs(FILES[k]));
      ras := ras + [ra];
    }
    FilesComplete(ras);
  }

  ghost predicate AllFiles(ras: seq<RegAllocator>) {
    |ras| == NUM_FILES && forall k :: 0 <= k < |ras| ==> ras[k].file == FILES[k]
  }

  lemma FilesComplete(ras: seq<RegAllocator>)
    requires AllFiles(ras)
    ensures forall file :: HasFile(ras, file)
  {
    forall file
      ensures HasFile(ras, file)
    {
      assert ras[FileIndex(file)].file == file;
    }
  }

  lemma FilesDiffer(ras: seq<RegAllocator>, others: seq<RegAllocator>)
    requires AllFiles(ras) && AllFiles(others)
    ensures |ras| == |others| && forall k :: 0 <= k < |ras| ==> ras[k].file == others[k].file
  {
  }

  /** What is known about a block's allocators after the first pass. */
  ghost predicate RasOk(ras: seq<RegAllocator>, numRegs: RegFile -> nat, maps: seq<map<Ssa, nat>>, live: set<Ssa>)
    reads ras
  {
    && AllFiles(ras) && PerFile(ras) && Maps(ras) == maps && Tracks(ras, maps, live)
    && forall k :: 0 <= k < |ras| ==> ras[k].Valid() && ras[k].numRegs == numRegs(ras[k].file)
  }

  /** The values that a block begins with: those live into it, where its first predecessor has them. */
  ghost predicate StartsFrom(liveIn: seq<LiveValue>, phis: seq<(nat, Ssa)>, predRas: seq<RegAllocator>, predMaps: seq<map<Ssa, nat>>, live: set<Ssa>)
    requires |predMaps| == |predRas|
  {
    forall i :: 0 <= i < |liveIn| ==>
      match liveIn[i].ref
      case LiveSsa(v) => v in live && StaysInOne(liveIn[i], predRas, predMaps)
      case LivePhi(p) => exists j :: 0 <= j < |phis| && phis[j].0 == p
  }

  /** Takes over the live-in values from the first predecessor. */
  method TakeOver(f: Func, ghost live: L.Live, b: nat, p: nat, ras: seq<RegAllocator>, predRas: seq<RegAllocator>, liveSet: set<Ssa>, numRegs: RegFile -> nat)
    returns (liveIn: seq<LiveValue>)
    requires f.Valid() && LiveOf(f, live) && b < |f.blocks| == |live.blocks| == |live.liveIn| == |live.liveOut| && p < |f.blocks| && b in f.succ[p]
    requires AllFiles(ras) && PerFile(ras) && FreshFor(predRas, ras) && liveSet == LiveAt(f, live, b, 0)
    requires forall k :: 0 <= k < |ras| ==> ras[k].Valid() && ras[k].ssaReg == map[]
    requires RasOk(predRas, numRegs, Maps(predRas), LiveAt(f, live, p, |f.blocks[p].instrs| + 1))
    modifies ras
    ensures forall k :: 0 <= k < |ras| ==> ras[k].Valid()
    ensures Tracks(ras, Maps(ras), liveSet) && DistinctRegs(liveIn) && AllListed(ras, liveIn) && AllRecorded(ras, Maps(ras), liveIn, [])
    ensures StartsFrom(liveIn, [], predRas, Maps(predRas), liveSet)
  {
    hide RegAllocator.Valid, Func.Valid, LiveOf, LiveAt, Restricted, Records, ListedInFile, StaysInOne, AllFiles, DistinctRegs;
    ghost var predMaps := Maps(predRas);
    assert forall k :: 0 <= k < |predRas| ==> predRas[k].Valid();
    liveIn := StartBlock(predRas, ras, liveSet);
    ghost var maps := Maps(ras);
    assert SameFiles(ras, predRas) by { FilesDiffer(ras, predRas); }
    assert forall k :: 0 <= k < |ras| ==> maps[k] == ras[k].ssaReg && Maps(predRas)[k] == predRas[k].ssaReg;
    assert Maps(predRas) == predMaps;
    TakenOver(f, live, b, p, ras, maps, predRas, predMaps, liveSet);
    AllTakenRecorded(ras, maps, liveIn);
  }

  ghost predicate SameFiles(ras: seq<RegAllocator>, others: seq<RegAllocator>) {
    |ras| == |others| && forall k :: 0 <= k < |ras| ==> ras[k].file == others[k].file
  }

  lemma TakenOver(f: Func, live: L.Live, b: nat, p: nat, ras: seq<RegAllocator>, maps: seq<map<Ssa, nat>>, predRas: seq<RegAllocator>,
                  predMaps: seq<map<Ssa, nat>>, liveSet: set<Ssa>)
    requires f.Valid() && LiveOf(f, live) && b < |f.blocks| == |live.blocks| == |live.liveIn| == |live.liveOut| && p < |f.blocks| && b in f.succ[p]
    requires liveSet == LiveAt(f, live, b, 0) && Tracks(predRas, predMaps, LiveAt(f, live, p, |f.blocks[p].instrs| + 1))
    requires SameFiles(ras, predRas) && |maps| == |ras| && forall k :: 0 <= k < |ras| ==> Restricted(maps[k], predMaps[k], liveSet)
    ensures Tracks(ras, maps, liveSet)
  {
    hide Func.Valid, LiveOf, LiveAt;
    forall k, v | 0 <= k < |ras|
      ensures v in maps[k] <==> v in liveSet && v.file == ras[k].file
    {
      assert Restricted(maps[k], predMaps[k], liveSet);
      if v in liveSet {
        LiveOnEdge(f, live, p, b, v);
      }
      assert v in predMaps[k] <==> v in LiveAt(f, live, p, |f.blocks[p].instrs| + 1) && v.file == predRas[k].file;
    }
  }

  lemma AllTakenRecorded(ras: seq<RegAllocator>, maps: seq<map<Ssa, nat>>, liveIn: seq<LiveValue>)
    requires |maps| == |ras| && forall k :: 0 <= k < |ras| ==> Records(liveIn, ras[k].file, maps[k])
    ensures AllRecorded(ras, maps, liveIn, [])
  {
    forall k, v | 0 <= k < |ras| && v in maps[k]
      ensures Recorded(liveIn, [], v, Reg(ras[k].file, maps[k][v]))
    {
      assert Records(liveIn, ras[k].file, maps[k]);
    }
  }

  lemma ListedAreRegisters(ras: seq<RegAllocator>, liveIn: seq<LiveValue>)
    requires AllFiles(ras) && AllListed(ras, liveIn) && forall k :: 0 <= k < |ras| ==> ras[k].Valid()
    ensures InRegisters(ras, liveIn)
  {
    FilesComplete(ras);
    forall i | 0 <= i < |liveIn|
      ensures IsRegister(ras, liveIn[i].reg)
    {
      assert HasFile(ras, liveIn[i].reg.file);
      var k :| 0 <= k < |ras| && ras[k].file == liveIn[i].reg.file;
      assert ListedInFile(liveIn, ras[k].file, ras[k].used);
      UsedIsRegister(ras[k], liveIn[i].reg.idx);
    }
  }

  lemma UsedIsRegister(ra: RegAllocator, reg: nat)
    requires ra.Valid() && reg in ra.used
    ensures reg < ra.numRegs
  {
    assert ra.HeldIn(reg);
  }

  /** Places all phis of a block. */
  method PlacePhis(phis: seq<(nat, Ssa)>, hints: nat -> seq<nat>, ras: seq<RegAllocator>, liveIn0: seq<LiveValue>, ghost live: set<Ssa>)
    returns (ok: bool, liveIn: seq<LiveValue>)
    requires AllFiles(ras) && PerFile(ras) && (forall k :: 0 <= k < |ras| ==> ras[k].Valid()) && Tracks(ras, Maps(ras), live)
    requires DistinctRegs(liveIn0) && AllListed(ras, liveIn0) && AllRecorded(ras, Maps(ras), liveIn0, [])
    requires (forall i :: 0 <= i < |phis| ==> phis[i].1 !in live) && forall i, j :: 0 <= i < j < |phis| ==> phis[i].1 != phis[j].1
    modifies ras
    ensures ok ==> (forall k :: 0 <= k < |ras| ==> ras[k].Valid()) && DistinctRegs(liveIn) && AllRecorded(ras, Maps(ras), liveIn, phis)
    ensures ok ==> Tracks(ras, Maps(ras), live + Elements(PhiDefs(phis))) && AllListed(ras, liveIn)
    ensures ok ==> |liveIn| == |liveIn0| + |phis| && liveIn0 <= liveIn && forall i :: |liveIn0| <= i < |liveIn| ==> IsPhiOf(liveIn[i], phis)
  {
    hide RegAllocator.Valid, DistinctRegs, AllListed, AllRecorded, Tracks;
    liveIn := liveIn0;
    assert phis[..0] == [] && live + Elements(PhiDefs(phis[..0])) == live;
    for i := 0 to |phis|
      invariant forall k :: 0 <= k < |ras| ==> ras[k].Valid()
      invariant DistinctRegs(liveIn) && AllListed(ras, liveIn) && AllRecorded(ras, Maps(ras), liveIn, phis[..i])
      invariant Tracks(ras, Maps(ras), live + Elements(PhiDefs(phis[..i])))
      invariant |liveIn| == |liveIn0| + i && liveIn0 <= liveIn && forall j :: |liveIn0| <= j < |liveIn| ==> IsPhiOf(liveIn[j], phis)
    {
      PhiIsNew(phis, i, live);
      ghost var was := liveIn;
      ok, liveIn := PlaceNext(phis, i, hints(i), ras, liveIn, live);
      if !ok {
        return;
      }
      assert forall j :: 0 <= j < |was| ==> liveIn[j] == was[j];
    }
    assert phis[..|phis|] == phis;
    ok := true;
  }

  /** Places the next phi of a block. */
  method PlaceNext(phis: seq<(nat, Ssa)>, i: nat, hints: seq<nat>, ras: seq<RegAllocator>, liveIn0: seq<LiveValue>, ghost live: set<Ssa>)
    returns (ok: bool, liveIn: seq<LiveValue>)
    requires AllFiles(ras) && PerFile(ras) && (forall k :: 0 <= k < |ras| ==> ras[k].Valid()) && i < |phis|
    requires DistinctRegs(liveIn0) && AllListed(ras, liveIn0) && AllRecorded(ras, Maps(ras), liveIn0, phis[..i])
    requires Tracks(ras, Maps(ras), live + Elements(PhiDefs(phis[..i]))) && phis[i].1 !in live + Elements(PhiDefs(phis[..i]))
    modifies ras
    ensures ok ==> forall k :: 0 <= k < |ras| ==> ras[k].Valid()
    ensures ok ==> DistinctRegs(liveIn) && AllListed(ras, liveIn) && AllRecorded(ras, Maps(ras), liveIn, phis[..i + 1])
    ensures ok ==> Tracks(ras, Maps(ras), live + Elements(PhiDefs(phis[..i + 1])))
    ensures ok ==> liveIn0 <= liveIn && |liveIn| == |liveIn0| + 1 && IsPhiOf(liveIn[|liveIn0|], phis)
  {
    hide RegAllocator.Valid, DistinctRegs, AllListed, AllRecorded, Extends;
    ghost var before := Maps(ras);
    FilesComplete(ras);
    assert forall k :: 0 <= k < |ras| ==> before[k] == ras[k].ssaReg;
    ok, liveIn := PlacePhi(phis[i].0, phis[i].1, hints, ras, liveIn0, phis[..i]);
    if !ok {
      return;
    }
    assert phis[..i + 1] == phis[..i] + [phis[i]];
    assert forall k :: 0 <= k < |ras| ==> Maps(ras)[k] == ras[k].ssaReg;
    PhiTracked(ras, before, Maps(ras), live + Elements(PhiDefs(phis[..i])), phis[i].1);
    assert live + Elements(PhiDefs(phis[..i + 1])) == live + Elements(PhiDefs(phis[..i])) + {phis[i].1} by { DefsGrow(phis, i); }
  }

  ghost predicate IsPhiOf(lv: LiveValue, phis: seq<(nat, Ssa)>) {
    lv.ref.LivePhi? && exists j :: 0 <= j < |phis| && phis[j].0 == lv.ref.phi
  }

  lemma PhiIsNew(phis: seq<(nat, Ssa)>, i: nat, live: set<Ssa>)
    requires i < |phis| && phis[i].1 !in live && forall i, j :: 0 <= i < j < |phis| ==> phis[i].1 != phis[j].1
    ensures phis[i].1 !in live + Elements(PhiDefs(phis[..i]))
  {
  }

  lemma DefsGrow(phis: seq<(nat, Ssa)>, i: nat)
    requires i < |phis|
    ensures Elements(PhiDefs(phis[..i + 1])) == Elements(PhiDefs(phis[..i])) + {phis[i].1}
  {
    assert PhiDefs(phis[..i + 1]) == PhiDefs(phis[..i]) + [phis[i].1];
  }

  lemma PhiTracked(ras: seq<RegAllocator>, before: seq<map<Ssa, nat>>, maps: seq<map<Ssa, nat>>, live: set<Ssa>, v: Ssa)
    requires |before| == |maps| == |ras| && Tracks(ras, before, live)
    requires forall k :: 0 <= k < |ras| ==> maps[k].Keys == before[k].Keys + if ras[k].file == v.file then {v} else {}
    ensures Tracks(ras, maps, live + {v})
  {
    forall k, u | 0 <= k < |ras|
      ensures u in maps[k] <==> u in live + {v} && u.file == ras[k].file
    {
      assert u in maps[k].Keys <==> u in before[k].Keys || (u == v && ras[k].file == v.file);
    }
  }

  /** Where every phi of the successor comes from. */
  function PhiMap(srcs: seq<(nat, PhiSrc)>): map<nat, PhiSrc> {
    if srcs == [] then map[] else PhiMap(srcs[..|srcs| - 1])[srcs[|srcs| - 1].0 := srcs[|srcs| - 1].1]
  }

  lemma {:induction false} PhiMapAt(srcs: seq<(nat, PhiSrc)>, i: nat)
    requires i < |srcs| && forall i, j :: 0 <= i < j < |srcs| ==> srcs[i].0 != srcs[j].0
    ensures srcs[i].0 in PhiMap(srcs) && PhiMap(srcs)[srcs[i].0] == srcs[i].1
  {
    if i < |srcs| - 1 {
      PhiMapAt(srcs[..|srcs| - 1], i);
      assert srcs[i].0 != srcs[|srcs| - 1].0;
    }
  }

  /** What the first pass makes of block `b`. */
  ghost predicate BlockAssigned(f: Func, b: nat, block: Block, phiOut: map<nat, Src>)
    requires b < |f.blocks|
  {
    && BlockOk(block) && |block.trace| == |block.instrs| + 1 && DistinctRegs(block.liveIn)
    && block.instrs == f.blocks[b].instrs && block.phis == f.blocks[b].phis
    && |Final(block)| == |block.ras| && PhiOutFrom(phiOut, PhiMap(f.blocks[b].phiSrcs), block.ras, Final(block))
    && forall i :: 0 <= i < |f.blocks[b].phiSrcs| ==> f.blocks[b].phiSrcs[i].0 in phiOut
  }

  /** Where the values are at the end of a block. */
  ghost function Final(block: Block): seq<map<Ssa, nat>> {
    if |block.instrs| < |block.trace| then block.trace[|block.instrs|] else []
  }

  /** Where the values are at the start of a block. */
  ghost predicate StartOk(f: Func, live: L.Live, b: nat, block: Block, predRas: seq<RegAllocator>, predMaps: seq<map<Ssa, nat>>)
    requires b < |f.blocks| == |live.blocks| == |live.liveIn| == |live.liveOut| && b < |f.pred|
  {
    if f.pred[b] == [] then block.liveIn == [] && |block.trace| > 0 && forall k :: 0 <= k < |block.trace[0]| ==> block.trace[0][k] == map[]
    else |predMaps| == |predRas| && StartsFrom(block.liveIn, f.blocks[b].phis, predRas, predMaps, LiveAt(f, live, b, 0))
  }

  /** The values live behind the phis are in registers; the others are freed. */
  lemma PhisFreed(f: Func, live: L.Live, b: nat, ras: seq<RegAllocator>, maps: seq<map<Ssa, nat>>, maps': seq<map<Ssa, nat>>, dead: seq<Ssa>,
                  liveIn: seq<LiveValue>)
    requires f.Valid() && LiveOf(f, live) && b < |f.blocks| == |live.blocks| == |live.liveIn| == |live.liveOut|
    requires |maps| == |maps'| == |ras| && forall k :: 0 <= k < |ras| ==> maps'[k] == maps[k] - Elements(dead)
    requires Tracks(ras, maps, LiveAt(f, live, b, 0) + Elements(PhiDefs(f.blocks[b].phis)))
    requires forall v :: v in dead <==> v in PhiDefs(f.blocks[b].phis) && v !in LiveAt(f, live, b, 1)
    requires AllRecorded(ras, maps, liveIn, f.blocks[b].phis)
    ensures Tracks(ras, maps', LiveAt(f, live, b, 1)) && AllRecorded(ras, maps', liveIn, f.blocks[b].phis)
  {
    hide Func.Valid, LiveOf, LiveAt, Recorded, PhiDefs;
    forall k, v | 0 <= k < |ras|
      ensures v in maps'[k] <==> v in LiveAt(f, live, b, 1) && v.file == ras[k].file
    {
      PhisAreLiveStep(f, live, b, v);
      assert v in maps[k] <==> v in LiveAt(f, live, b, 0) + Elements(PhiDefs(f.blocks[b].phis)) && v.file == ras[k].file;
    }
    forall k, v | 0 <= k < |ras| && v in maps'[k]
      ensures Recorded(liveIn, f.blocks[b].phis, v, Reg(ras[k].file, maps'[k][v]))
    {
      assert v in maps[k] && maps[k][v] == maps'[k][v];
    }
  }

  /** The start of a block: the live-in values and the phis. */
  method BeginBlock(f: Func, live: L.Live, b: nat, hints: nat -> seq<nat>, ras: seq<RegAllocator>, predRas: seq<RegAllocator>, numRegs: RegFile -> nat)
    returns (ok: bool, liveIn: seq<LiveValue>)
    requires f.Valid() && LiveOf(f, live) && b < |f.blocks| == |live.blocks| == |live.liveIn| == |live.liveOut|
    requires AllFiles(ras) && PerFile(ras) && forall k :: 0 <= k < |ras| ==> ras[k].Valid() && ras[k].ssaReg == map[]
    requires f.pred[b] != [] ==> FreshFor(predRas, ras) && PredOk(f, live, f.pred[b][0], predRas, numRegs)
    modifies ras
    ensures ok ==> (forall k :: 0 <= k < |ras| ==> ras[k].Valid()) && Tracks(ras, Maps(ras), LiveAt(f, live, b, 1))
    ensures ok ==> DistinctRegs(liveIn) && AllRecorded(ras, Maps(ras), liveIn, f.blocks[b].phis) && InRegisters(ras, liveIn)
    ensures ok && f.pred[b] == [] ==> liveIn == []
    ensures ok && f.pred[b] != [] ==> StartsFrom(liveIn, f.blocks[b].phis, predRas, old(Maps(predRas)), LiveAt(f, live, b, 0))
  {
    hide RegAllocator.Valid, LiveOf, LiveAt, DistinctRegs, InRegisters, AllListed, AllRecorded, Tracks, Func.EdgeValid, Func.Flowing, StartsFrom, RasOk;
    var phis := f.blocks[b].phis;
    assert f.BlockValid(b);
    ghost var predMaps := Maps(predRas);
    if f.pred[b] == [] {
      liveIn := [];
      NothingLiveIn(f, live, b);
      NothingTracked(ras, Maps(ras));
    } else {
      PredIsEdge(f, b);
      liveIn := TakeOver(f, live, b, f.pred[b][0], ras, predRas, LiveAt(f, live, b, 0), numRegs);
    }
    ghost var taken := liveIn;
    PhisAreNew(f, live, b);
    ok, liveIn := PlacePhis(phis, hints, ras, liveIn, LiveAt(f, live, b, 0));
    if !ok {
      return;
    }
    ListedAreRegisters(ras, liveIn);
    if f.pred[b] != [] {
      StartsWithPhis(taken, liveIn, phis, predRas, predMaps, LiveAt(f, live, b, 0));
    }
    var dead := AddKilled([], PhiDefs(phis), LiveAt(f, live, b, 1));
    ghost var maps := Maps(ras);
    DeadPhisTracked(ras, maps, LiveAt(f, live, b, 0), PhiDefs(phis), dead);
    assert forall k :: 0 <= k < |ras| ==> maps[k] == ras[k].ssaReg;
    FreeAllDsts(ras, dead);
    assert forall k :: 0 <= k < |ras| ==> Maps(ras)[k] == ras[k].ssaReg;
    PhisFreed(f, live, b, ras, maps, Maps(ras), dead, liveIn);
  }

  /** What the first pass has left behind for the first predecessor. */
  ghost predicate PredOk(f: Func, live: L.Live, p: nat, predRas: seq<RegAllocator>, numRegs: RegFile -> nat)
    reads predRas
  {
    && p < |f.blocks| == |live.blocks| == |live.liveIn| == |live.liveOut|
    && RasOk(predRas, numRegs, Maps(predRas), LiveAt(f, live, p, |f.blocks[p].instrs| + 1))
  }

  lemma PredIsEdge(f: Func, b: nat)
    requires f.Valid() && b < |f.blocks| && f.pred[b] != []
    ensures f.pred[b][0] < |f.blocks| && b in f.succ[f.pred[b][0]]
  {
    hide Func.BlockValid, Func.EdgeValid, Flow.Function.Strict, Flow.Function.DefinedOnce, Flow.Function.ReachesUse;
    assert f.pred[b][0] in ToFlow(f).pred[b];
  }

  lemma PhisAreNew(f: Func, live: L.Live, b: nat)
    requires f.Valid() && LiveOf(f, live) && b < |f.blocks| == |live.blocks| == |live.liveIn| == |live.liveOut|
    ensures forall i :: 0 <= i < |f.blocks[b].phis| ==> f.blocks[b].phis[i].1 !in LiveAt(f, live, b, 0)
  {
    hide Func.Valid, LiveOf, LiveAt;
    forall i | 0 <= i < |f.blocks[b].phis|
      ensures f.blocks[b].phis[i].1 !in LiveAt(f, live, b, 0)
    {
      assert PhiDefs(f.blocks[b].phis)[i] == f.blocks[b].phis[i].1;
      PhisAreLiveStep(f, live, b, f.blocks[b].phis[i].1);
    }
  }

  lemma NothingTracked(ras: seq<RegAllocator>, maps: seq<map<Ssa, nat>>)
    requires |maps| == |ras| && forall k :: 0 <= k < |ras| ==> maps[k] == map[]
    ensures Tracks(ras, maps, {}) && AllRecorded(ras, maps, [], []) && DistinctRegs([]) && AllListed(ras, [])
  {
  }

  lemma StartsWithPhis(taken: seq<LiveValue>, liveIn: seq<LiveValue>, phis: seq<(nat, Ssa)>, predRas: seq<RegAllocator>, predMaps: seq<map<Ssa, nat>>, live: set<Ssa>)
    requires |predMaps| == |predRas| && StartsFrom(taken, [], predRas, predMaps, live)
    requires taken <= liveIn && forall i :: |taken| <= i < |liveIn| ==> IsPhiOf(liveIn[i], phis)
    ensures StartsFrom(liveIn, phis, predRas, predMaps, live)
  {
    hide StaysInOne;
    forall i | 0 <= i < |liveIn|
      ensures match liveIn[i].ref
              case LiveSsa(v) => v in live && StaysInOne(liveIn[i], predRas, predMaps)
              case LivePhi(p) => exists j :: 0 <= j < |phis| && phis[j].0 == p
    {
      if i < |taken| {
        assert liveIn[i] == taken[i];
      } else {
        assert IsPhiOf(liveIn[i], phis);
      }
    }
  }

  lemma DeadPhisTracked(ras: seq<RegAllocator>, maps: seq<map<Ssa, nat>>, live: set<Ssa>, defs: seq<Ssa>, dead: seq<Ssa>)
    requires Tracks(ras, maps, live + Elements(defs)) && forall v :: v in dead ==> v in defs
    ensures forall k, v {:trigger v in maps[k]} :: 0 <= k < |ras| && v in dead && v.file == ras[k].file ==> v in maps[k]
  {
  }

  /** The values live behind each instruction of a block. */
  function LiveAfters(f: Func, live: L.Live, b: nat): (afters: seq<set<Ssa>>)
    requires b < |f.blocks| == |live.blocks| == |live.liveIn| == |live.liveOut|
    ensures |afters| == |f.blocks[b].instrs|
  {
    seq(|f.blocks[b].instrs|, i requires 0 <= i < |f.blocks[b].instrs| => LiveAt(f, live, b, i + 2))
  }

  lemma BlockLiveOk(f: Func, live: L.Live, b: nat)
    requires f.Valid() && LiveOf(f, live) && b < |f.blocks| == |live.blocks| == |live.liveIn| == |live.liveOut|
    ensures LiveOk(f.blocks[b].instrs, LiveAt(f, live, b, 1), LiveAfters(f, live, b))
    ensures LiveBefore(LiveAt(f, live, b, 1), LiveAfters(f, live, b), |f.blocks[b].instrs|) == LiveAt(f, live, b, |f.blocks[b].instrs| + 1)
  {
    hide Func.Valid, LiveOf, LiveAt, LiveStep;
    var instrs, first, afters := f.blocks[b].instrs, LiveAt(f, live, b, 1), LiveAfters(f, live, b);
    forall k | 0 <= k < |instrs|
      ensures LiveStep(instrs[k], LiveBefore(first, afters, k), afters[k])
    {
      InstrIsLiveStep(f, live, b, k);
    }
  }

  /** The heuristics' suggestions, by block, instruction and destination; the phis count as instruction 0. */
  type Hints = (nat, nat, nat) -> seq<nat>

  function InstrHints(hints: Hints, b: nat, instrs: seq<Instr>): (hs: seq<seq<seq<nat>>>)
    ensures |hs| == |instrs| && forall i :: 0 <= i < |instrs| ==> |hs[i]| == |instrs[i].dsts|
  {
    seq(|instrs|, i requires 0 <= i < |instrs| => seq(|instrs[i].dsts|, d requires 0 <= d => hints(b, i + 1, d)))
  }

  /** Assigns registers in block `b`, with new allocators. */
  method FillBlock(f: Func, live: L.Live, b: nat, hints: Hints, ras: seq<RegAllocator>, predRas: seq<RegAllocator>, numRegs: RegFile -> nat)
    returns (ok: bool, liveIn: seq<LiveValue>, code: seq<Step>, ghost block: Block)
    requires f.Valid() && LiveOf(f, live) && b < |f.blocks| == |live.blocks| == |live.liveIn| == |live.liveOut|
    requires AllFiles(ras) && PerFile(ras) && forall k :: 0 <= k < |ras| ==> ras[k].Valid() && ras[k].ssaReg == map[]
    requires f.pred[b] != [] ==> FreshFor(predRas, ras) && PredOk(f, live, f.pred[b][0], predRas, numRegs)
    modifies ras
    ensures ok ==> (forall k :: 0 <= k < |ras| ==> ras[k].Valid()) && FirstPassed(f, live, b, block)
    ensures ok ==> block.ras == ras && block.liveIn == liveIn && block.code == code && Final(block) == Maps(ras)
    ensures ok ==> Tracks(ras, Maps(ras), LiveAt(f, live, b, |f.blocks[b].instrs| + 1))
    ensures ok ==> StartOk(f, live, b, block, predRas, old(Maps(predRas)))
  {
    hide RegAllocator.Valid, Func.BlockValid, Func.EdgeValid, Func.Flowing, LiveOf, LiveAt, DistinctRegs, InRegisters, AllRecorded, Tracks, StartsFrom, StepsOk, LiveOk,
      StartOk, AllFiles, PredOk, FreshFor;
    var instrs := f.blocks[b].instrs;
    code := [];
    ok, liveIn := BeginBlock(f, live, b, i => hints(b, 0, i), ras, predRas, numRegs);
    block := Block(ras, [], instrs, code, liveIn, f.blocks[b].phis);
    if !ok {
      return;
    }
    BlockLiveOk(f, live, b);
    ghost var trace;
    ok, code, trace := FirstPass(instrs, InstrHints(hints, b, instrs), LiveAt(f, live, b, 1), LiveAfters(f, live, b), ras);
    if !ok {
      return;
    }
    StepsShape(ras, trace, instrs, code);
    block := Block(ras, trace, instrs, code, liveIn, f.blocks[b].phis);
    StartIs(f, live, b, block, predRas, old(Maps(predRas)));
  }

  /** The instructions of the block have been allocated. */
  ghost predicate FirstPassed(f: Func, live: L.Live, b: nat, block: Block)
    requires b < |f.blocks| == |live.blocks| == |live.liveIn| == |live.liveOut|
  {
    && |block.trace| == |block.instrs| + 1 && block.instrs == f.blocks[b].instrs && block.phis == f.blocks[b].phis
    && StepsOk(block.ras, block.trace, block.instrs, block.code, |block.instrs|)
    && |block.trace[0]| == |Final(block)| == |block.ras| && Tracks(block.ras, block.trace[0], LiveAt(f, live, b, 1))
    && AllRecorded(block.ras, block.trace[0], block.liveIn, block.phis) && DistinctRegs(block.liveIn) && InRegisters(block.ras, block.liveIn)
  }

  /** Assigns registers in block `b`. */
  method AssignBlock(f: Func, live: L.Live, b: nat, hints: Hints, predRas: seq<RegAllocator>, numRegs: RegFile -> nat)
    returns (ok: bool, ras: seq<RegAllocator>, liveIn: seq<LiveValue>, code: seq<Step>, phiOut: map<nat, Src>, ghost block: Block)
    requires f.Valid() && LiveOf(f, live) && b < |f.blocks| == |live.blocks| == |live.liveIn| == |live.liveOut|
    requires f.pred[b] != [] ==> PredOk(f, live, f.pred[b][0], predRas, numRegs)
    ensures forall k :: 0 <= k < |ras| ==> fresh(ras[k])
    ensures ok ==> BlockAssigned(f, b, block, phiOut) && block.ras == ras && block.liveIn == liveIn && block.code == code
    ensures ok ==> RasOk(ras, numRegs, Final(block), LiveAt(f, live, b, |f.blocks[b].instrs| + 1))
    ensures ok ==> StartOk(f, live, b, block, predRas, Maps(predRas))
  {
    hide RegAllocator.Valid, Func.BlockValid, Func.EdgeValid, Func.Flowing, LiveOf, LiveAt, Tracks, FirstPassed, PhiOutFrom, Available, BlockAssigned, StartOk,
      AllFiles, PredOk, FreshFor, PerFile;
    ghost var predMaps := Maps(predRas);
    ras := NewAllocators(numRegs);
    phiOut := map[];
    if f.pred[b] != [] {
      FreshRas(f, live, b, ras, predRas, numRegs);
    }
    ok, liveIn, code, block := FillBlock(f, live, b, hints, ras, predRas, numRegs);
    if !ok {
      return;
    }
    PhiSrcsAvailable(f, live, b, ras, Maps(ras));
    phiOut := PhiSrcs(f.blocks[b].phiSrcs, ras, PhiMap(f.blocks[b].phiSrcs));
    BlockIs(f, live, b, block, predRas, predMaps, phiOut);
  }

  lemma FreshRas(f: Func, live: L.Live, b: nat, ras: seq<RegAllocator>, predRas: seq<RegAllocator>, numRegs: RegFile -> nat)
    requires f.Valid() && b < |f.blocks| && f.pred[b] != [] && PredOk(f, live, f.pred[b][0], predRas, numRegs)
    requires AllFiles(ras) && forall k :: 0 <= k < |ras| ==> ras[k].numRegs == numRegs(ras[k].file)
    requires forall j, k :: 0 <= j < |predRas| && 0 <= k < |ras| ==> predRas[j] != ras[k]
    ensures FreshFor(predRas, ras)
  {
    hide Func.Valid, RegAllocator.Valid, Tracks;
    FilesDiffer(ras, predRas);
  }

  lemma StartIs(f: Func, live: L.Live, b: nat, block: Block, predRas: seq<RegAllocator>, predMaps: seq<map<Ssa, nat>>)
    requires f.Valid() && LiveOf(f, live) && b < |f.blocks| == |live.blocks| == |live.liveIn| == |live.liveOut| && |block.trace| > 0
    requires |predMaps| == |predRas| && Tracks(block.ras, block.trace[0], LiveAt(f, live, b, 1))
    requires if f.pred[b] == [] then block.liveIn == [] else StartsFrom(block.liveIn, f.blocks[b].phis, predRas, predMaps, LiveAt(f, live, b, 0))
    ensures StartOk(f, live, b, block, predRas, predMaps)
  {
    hide Func.BlockValid, Func.EdgeValid, Func.Flowing, LiveOf, LiveAt, Tracks, StartsFrom;
    if f.pred[b] == [] {
      StartIsEmpty(f, live, b, block.ras, block.trace[0]);
    }
  }

  lemma BlockIs(f: Func, live: L.Live, b: nat, block: Block, predRas: seq<RegAllocator>, predMaps: seq<map<Ssa, nat>>, phiOut: map<nat, Src>)
    requires f.Valid() && LiveOf(f, live) && b < |f.blocks| == |live.blocks| == |live.liveIn| == |live.liveOut| 
    requires FirstPassed(f, live, b, block)
    requires StartOk(f, live, b, block, predRas, predMaps) && |predMaps| == |predRas| && FirstPassed(f, live, b, block) && AllFiles(block.ras)
    requires PhiOutFrom(phiOut, PhiMap(f.blocks[b].phiSrcs), block.ras, Final(block))
    requires forall i :: 0 <= i < |f.blocks[b].phiSrcs| ==> f.blocks[b].phiSrcs[i].0 in phiOut
    ensures BlockAssigned(f, b, block, phiOut)
  {
    hide Func.BlockValid, Func.EdgeValid, Func.Flowing, LiveOf, LiveAt, Tracks, StartsFrom, AllFiles, StepsOk, AllRecorded, DistinctRegs, InRegisters, PhiOutFrom, BlockOk;
    StartIsLive(f, live, b, block.liveIn, predRas, predMaps);
    BlockIsOk(f, live, b, block);
  }

  lemma BlockIsOk(f: Func, live: L.Live, b: nat, block: Block)
    requires f.Valid() && LiveOf(f, live) && b < |f.blocks| == |live.blocks| == |live.liveIn| == |live.liveOut|
    requires block.instrs == f.blocks[b].instrs && block.phis == f.blocks[b].phis && AllFiles(block.ras)
    requires StepsOk(block.ras, block.trace, block.instrs, block.code, |block.instrs|) && |block.trace| > 0
    requires |block.trace[0]| == |block.ras| && Tracks(block.ras, block.trace[0], LiveAt(f, live, b, 1))
    requires AllRecorded(block.ras, block.trace[0], block.liveIn, block.phis) && InRegisters(block.ras, block.liveIn)
    requires forall i :: 0 <= i < |block.liveIn| && block.liveIn[i].ref.LiveSsa? ==> block.liveIn[i].ref.v in LiveAt(f, live, b, 0)
    ensures BlockOk(block)
  {
    hide LiveOf, LiveAt, Func.EdgeValid, Func.Flowing, StepsOk, AllRecorded, WellFormed, InRegisters;
    assert f.BlockValid(b);
    FilesComplete(block.ras);
    forall i | 0 <= i < |block.instrs|
      ensures Covers(block.ras, block.instrs[i])
    {
      assert WellFormed(f.blocks[b].instrs[i]);
    }
    forall i, p: nat | 0 <= i < |block.liveIn| && block.liveIn[i].ref.LiveSsa?
      ensures (p, block.liveIn[i].ref.v) !in block.phis
    {
      PhisAreLiveStep(f, live, b, block.liveIn[i].ref.v);
      InPhiDefs(block.phis, p, block.liveIn[i].ref.v);
    }
  }

  lemma InPhiDefs(phis: seq<(nat, Ssa)>, p: nat, v: Ssa)
    ensures (p, v) in phis ==> v in PhiDefs(phis)
  {
    if (p, v) in phis {
      var j :| 0 <= j < |phis| && phis[j] == (p, v);
      assert PhiDefs(phis)[j] == v;
    }
  }

  lemma StartIsLive(f: Func, live: L.Live, b: nat, liveIn: seq<LiveValue>, predRas: seq<RegAllocator>, predMaps: seq<map<Ssa, nat>>)
    requires b < |f.blocks| == |live.blocks| == |live.liveIn| == |live.liveOut| && |predMaps| == |predRas|
    requires liveIn == [] || StartsFrom(liveIn, f.blocks[b].phis, predRas, predMaps, LiveAt(f, live, b, 0))
    ensures forall i :: 0 <= i < |liveIn| && liveIn[i].ref.LiveSsa? ==> liveIn[i].ref.v in LiveAt(f, live, b, 0)
  {
    hide LiveAt, StaysInOne;
  }

  /** Without predecessors there is nothing to begin with. */
  lemma StartIsEmpty(f: Func, live: L.Live, b: nat, ras: seq<RegAllocator>, maps: seq<map<Ssa, nat>>)
    requires f.Valid() && LiveOf(f, live) && b < |f.blocks| == |live.blocks| == |live.liveIn| == |live.liveOut| && f.pred[b] == []
    requires Tracks(ras, maps, LiveAt(f, live, b, 1))
    ensures forall k :: 0 <= k < |maps| ==> maps[k] == map[]
  {
    hide LiveOf, LiveAt, Func.EdgeValid, Func.Flowing;
    assert f.BlockValid(b);
    NothingLiveIn(f, live, b);
    forall k, v | 0 <= k < |maps|
      ensures v !in maps[k]
    {
      PhisAreLiveStep(f, live, b, v);
      assert v !in LiveAt(f, live, b, 1);
    }
  }

  lemma StepsShape(ras: seq<RegAllocator>, trace: seq<seq<map<Ssa, nat>>>, instrs: seq<Instr>, code: seq<Step>)
    requires StepsOk(ras, trace, instrs, code, |instrs|)
    ensures |trace| == |instrs| + 1 && |code| == |instrs|
  {
  }

  lemma PhiSrcsAvailable(f: Func, live: L.Live, b: nat, ras: seq<RegAllocator>, maps: seq<map<Ssa, nat>>)
    requires f.Valid() && LiveOf(f, live) && b < |f.blocks| == |live.blocks| == |live.liveIn| == |live.liveOut|
    requires AllFiles(ras) && Tracks(ras, maps, LiveAt(f, live, b, |f.blocks[b].instrs| + 1))
    ensures var srcs := f.blocks[b].phiSrcs;
            && (forall i :: 0 <= i < |srcs| ==> srcs[i].0 in PhiMap(srcs) && PhiMap(srcs)[srcs[i].0] == srcs[i].1)
            && forall i :: 0 <= i < |srcs| && srcs[i].1.SsaSrc? ==> Available(ras, maps, map[], LiveSsa(srcs[i].1.v))
  {
    hide LiveOf, LiveAt, Func.EdgeValid, Func.Flowing, PhiMap;
    var srcs := f.blocks[b].phiSrcs;
    assert f.BlockValid(b);
    FilesComplete(ras);
    forall i | 0 <= i < |srcs|
      ensures srcs[i].0 in PhiMap(srcs) && PhiMap(srcs)[srcs[i].0] == srcs[i].1
      ensures srcs[i].1.SsaSrc? ==> Available(ras, maps, map[], LiveSsa(srcs[i].1.v))
    {
      PhiMapAt(srcs, i);
      if srcs[i].1.SsaSrc? {
        PhiSrcIsLive(f, live, b, i);
        LiveIsAvailable(ras, maps, LiveAt(f, live, b, |f.blocks[b].instrs| + 1), srcs[i].1.v);
      }
    }
  }

  lemma LiveIsAvailable(ras: seq<RegAllocator>, maps: seq<map<Ssa, nat>>, live: set<Ssa>, v: Ssa)
    requires Tracks(ras, maps, live) && v in live && HasFile(ras, v.file)
    ensures Available(ras, maps, map[], LiveSsa(v))
  {
    var k :| 0 <= k < |ras| && ras[k].file == v.file;
    assert v in maps[k];
  }
}
