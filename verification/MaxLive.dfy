/** The most values of each register file that are live at a time (crates/deko-nak/src/liveness.rs). */
module MaxLive {
  import opened Machine
  import F = Flow
  import L = SimpleLiveness
  import P = Pressure

  /** A function, with the register file of every value, and whether it is defined as part of a vector. */
  datatype Func = Func(flow: F.Function, file: F.Ssa -> RegFile, isVector: F.Ssa -> bool)
  {
    /** Values are defined once, and before they are used; the first predecessor of a block comes before it. */
    ghost predicate Valid() {
      && flow.Valid() && flow.Strict() && flow.DefinedOnce()
      && (forall b: nat, ip: nat :: b < |flow.blocks| && ip < |flow.blocks[b]| ==> AreDistinct(flow.blocks[b][ip].defs))
      && (forall b: nat :: b < |flow.pred| && flow.pred[b] != [] ==> flow.pred[b][0] < b)
      && (forall path, ip, v :: flow.ReachesUse(path, ip, v) && path[0] < |flow.pred| ==> flow.pred[path[0]] != [])
    }

    function Value(v: F.Ssa): Reg {
      Reg(file(v), v)
    }

    function Values(vs: set<F.Ssa>): set<Reg> {
      set v | v in vs :: Value(v)
    }

    function List(vs: seq<F.Ssa>): seq<Reg> {
      seq(|vs|, i requires 0 <= i < |vs| => Value(vs[i]))
    }

    /** The defined values that are parts of vectors, or those that are not. */
    function Part(vs: seq<F.Ssa>, vectors: bool): seq<F.Ssa> {
      if vs == [] then [] else Part(vs[..|vs| - 1], vectors) + if isVector(vs[|vs| - 1]) == vectors then [vs[|vs| - 1]] else []
    }

    function Shape(instr: F.Instr): P.Instr {
      P.Instr(List(instr.uses), List(Part(instr.defs, true)), List(Part(instr.defs, false)))
    }
  }

  ghost predicate AreDistinct(vs: seq<F.Ssa>) {
    forall i, j :: 0 <= i < j < |vs| ==> vs[i] != vs[j]
  }

  lemma {:induction false} PartElements(f: Func, vs: seq<F.Ssa>, vectors: bool, v: F.Ssa)
    ensures v in f.Part(vs, vectors) <==> v in vs && f.isVector(v) == vectors
  {
    if vs != [] {
      PartElements(f, vs[..|vs| - 1], vectors, v);
      assert vs == vs[..|vs| - 1] + [vs[|vs| - 1]];
    }
  }

  lemma ListElements(f: Func, vs: seq<F.Ssa>, x: Reg)
    ensures x in P.Elements(f.List(vs)) <==> x.idx in vs && x == f.Value(x.idx)
  {
    if x.idx in vs && x == f.Value(x.idx) {
      var i :| 0 <= i < |vs| && vs[i] == x.idx;
      assert f.List(vs)[i] == x;
    }
  }

  /** What the shape of an instruction reads and defines. */
  lemma ShapeIs(f: Func, instr: F.Instr, x: Reg)
    ensures x in f.Shape(instr).Uses() <==> x.idx in instr.uses && x == f.Value(x.idx)
    ensures x in f.Shape(instr).Defs() <==> x.idx in instr.defs && x == f.Value(x.idx)
  {
    hide Func.List;
    ListElements(f, instr.uses, x);
    ListElements(f, f.Part(instr.defs, true), x);
    ListElements(f, f.Part(instr.defs, false), x);
    PartElements(f, instr.defs, true, x.idx);
    PartElements(f, instr.defs, false, x.idx);
    assert P.Elements(f.List(instr.uses)) == f.Shape(instr).Uses();
    assert P.Elements(f.List(f.Part(instr.defs, true))) == f.Shape(instr).Vectors();
    assert P.Elements(f.List(f.Part(instr.defs, false))) == f.Shape(instr).Scalars();
  }

  ghost predicate IsLive(f: Func, live: L.Live) {
    && L.IsExact(f.flow, live)
    && |live.blocks| == |live.liveIn| == |live.liveOut| == |f.flow.blocks|
  }

  /** The values live before instruction `n` of a block, or at its end. */
  function LiveAt(f: Func, live: L.Live, b: nat, n: nat): set<Reg>
    requires b < |f.flow.blocks| == |live.blocks| == |live.liveIn| == |live.liveOut|
  {
    f.Values(L.LiveBefore(f.flow, live, b, n))
  }

  /** What the walk over an instruction finds is what the liveness analysis says. */
  lemma StepIs(f: Func, live: L.Live, b: nat, n: nat)
    requires f.Valid() && IsLive(f, live) && b < |f.flow.blocks| && n < |f.flow.blocks[b]|
    ensures var instr := f.Shape(f.flow.blocks[b][n]);
            LiveAt(f, live, b, n) == P.Before(instr, LiveAt(f, live, b, n + 1)) && instr.Uses() !! instr.Defs()
  {
    hide Func.Shape, L.LiveBefore, L.IsExact, F.Function.Strict, F.Function.Valid;
    var instr := f.flow.blocks[b][n];
    var before, after := L.LiveBefore(f.flow, live, b, n), L.LiveBefore(f.flow, live, b, n + 1);
    L.LiveSteps(f.flow, live, b, n);
    forall x: Reg
      ensures x in f.Values(before) <==> (x in f.Values(after) && x !in f.Shape(instr).Defs()) || x in f.Shape(instr).Uses()
      ensures !(x in f.Shape(instr).Uses() && x in f.Shape(instr).Defs())
    {
      ShapeIs(f, instr, x);
      assert x in f.Values(before) <==> x.idx in before && x == f.Value(x.idx);
      assert x in f.Values(after) <==> x.idx in after && x == f.Value(x.idx);
    }
  }

  /** A value that is live into a block is still there at the end of each block before it. */
  lemma LiveInIsThere(f: Func, live: L.Live, p: nat, b: nat)
    requires f.Valid() && IsLive(f, live) && p < |f.flow.blocks| && b < |f.flow.blocks| && b in f.flow.succ[p]
    ensures live.liveIn[b] <= L.LiveBefore(f.flow, live, p, |f.flow.blocks[p]|)
  {
    hide L.LiveBefore, L.IsExact, F.Function.Strict;
    forall v | v in live.liveIn[b]
      ensures v in L.LiveBefore(f.flow, live, p, |f.flow.blocks[p]|)
    {
      L.LiveAcrossEdge(f.flow, live, p, b, v);
      L.LiveOutStays(f.flow, live, p, |f.flow.blocks[p]|, v);
    }
  }

  lemma NothingLiveIn(f: Func, live: L.Live, b: nat)
    requires f.Valid() && IsLive(f, live) && b < |f.flow.blocks| && f.flow.pred[b] == []
    ensures live.liveIn[b] == {}
  {
    hide F.Function.ReachesUse;
  }

  /** What is live at the start of a block, taken from the first block before it. */
  method BlockStart(f: Func, live: L.Live, b: nat, outs: seq<set<Reg>>) returns (start: set<Reg>)
    requires f.Valid() && IsLive(f, live) && b < |f.flow.blocks| && |outs| == b
    requires forall p :: 0 <= p < b ==> outs[p] == LiveAt(f, live, p, |f.flow.blocks[p]|)
    ensures start == LiveAt(f, live, b, 0)
  {
    if f.flow.pred[b] == [] {
      NothingLiveIn(f, live, b);
      return {};
    }
    var p := f.flow.pred[b][0];
    assert p in f.flow.pred[b];
    LiveInIsThere(f, live, p, b);
    start := set x | x in outs[p] && x.idx in live.liveIn[b];
    forall x: Reg
      ensures x in start <==> x in LiveAt(f, live, b, 0)
    {
      assert x in outs[p] <==> x.idx in L.LiveBefore(f.flow, live, p, |f.flow.blocks[p]|) && x == f.Value(x.idx);
    }
  }

  /** The most values of a file that are live at a time while an instruction is executed. */
  function PeakAt(f: Func, live: L.Live, b: nat, ip: nat, file: RegFile): int
    requires b < |f.flow.blocks| == |live.blocks| == |live.liveIn| == |live.liveOut| && ip < |f.flow.blocks[b]|
  {
    var instr, after := f.Shape(f.flow.blocks[b][ip]), LiveAt(f, live, b, ip + 1);
    P.MaxInt(P.Count(P.Peak1(instr, after), file), P.Count(P.Peak2(instr, after), file))
  }

  /** An instruction before instruction `ip` of block `b` in layout order. */
  ghost predicate IsBefore(f: Func, c: nat, n: nat, b: nat, ip: nat) {
    c < |f.flow.blocks| && n < |f.flow.blocks[c]| && (c < b || (c == b && n < ip))
  }

  /** The greatest peak before an instruction. */
  ghost predicate IsMost(f: Func, live: L.Live, b: nat, ip: nat, most: P.PerFile)
    requires |f.flow.blocks| == |live.blocks| == |live.liveIn| == |live.liveOut|
  {
    && (forall c: nat, n: nat, file: RegFile :: IsBefore(f, c, n, b, ip) ==> PeakAt(f, live, c, n, file) <= most(file))
    && forall file :: most(file) == 0 || exists c: nat, n: nat :: IsBefore(f, c, n, b, ip) && most(file) == PeakAt(f, live, c, n, file)
  }

  lemma OneMorePeak(f: Func, live: L.Live, b: nat, ip: nat, most: P.PerFile, most': P.PerFile)
    requires |f.flow.blocks| == |live.blocks| == |live.liveIn| == |live.liveOut| && b < |f.flow.blocks| && ip < |f.flow.blocks[b]|
    requires IsMost(f, live, b, ip, most) && forall file :: most'(file) == P.MaxInt(most(file), PeakAt(f, live, b, ip, file))
    ensures IsMost(f, live, b, ip + 1, most')
  {
    hide PeakAt;
    forall file
      ensures most'(file) == 0 || exists c: nat, n: nat :: IsBefore(f, c, n, b, ip + 1) && most'(file) == PeakAt(f, live, c, n, file)
    {
      if most'(file) == most(file) {
        if most(file) != 0 {
          var c: nat, n: nat :| IsBefore(f, c, n, b, ip) && most(file) == PeakAt(f, live, c, n, file);
          assert IsBefore(f, c, n, b, ip + 1);
        }
      } else {
        assert IsBefore(f, b, ip, b, ip + 1);
      }
    }
    forall c: nat, n: nat, file: RegFile | IsBefore(f, c, n, b, ip + 1)
      ensures PeakAt(f, live, c, n, file) <= most'(file)
    {
      assert IsBefore(f, c, n, b, ip) || (c == b && n == ip);
    }
  }

  lemma NextBlock(f: Func, live: L.Live, b: nat, most: P.PerFile)
    requires |f.flow.blocks| == |live.blocks| == |live.liveIn| == |live.liveOut| && b < |f.flow.blocks|
    requires IsMost(f, live, b, |f.flow.blocks[b]|, most)
    ensures IsMost(f, live, b + 1, 0, most)
  {
    hide PeakAt;
    assert forall c: nat, n: nat :: IsBefore(f, c, n, b, |f.flow.blocks[b]|) <==> IsBefore(f, c, n, b + 1, 0);
  }

  /** One block: what is live at its end, and the greatest peak so far. */
  method WalkBlock(f: Func, live: L.Live, b: nat, start: set<Reg>, most0: P.PerFile) returns (end: set<Reg>, most: P.PerFile)
    requires f.Valid() && IsLive(f, live) && b < |f.flow.blocks| && start == LiveAt(f, live, b, 0) && IsMost(f, live, b, 0, most0)
    ensures end == LiveAt(f, live, b, |f.flow.blocks[b]|) && IsMost(f, live, b, |f.flow.blocks[b]|, most)
  {
    hide LiveAt, IsMost, Func.Shape, Func.Valid, L.IsExact;
    end, most := start, most0;
    for ip := 0 to |f.flow.blocks[b]|
      invariant end == LiveAt(f, live, b, ip) && IsMost(f, live, b, ip, most)
    {
      StepIs(f, live, b, ip);
      var peak;
      end, peak := P.InsertInstrTopDown(f.Shape(f.flow.blocks[b][ip]), end, LiveAt(f, live, b, ip + 1));
      var before, here := most, peak;
      most := (file: RegFile) => P.MaxInt(before(file), here(file));
      OneMorePeak(f, live, b, ip, before, most);
    }
  }

  /** The greatest peak of every file, over all instructions of all blocks. */
  method CalcMaxLive(f: Func, live: L.Live) returns (most: P.PerFile)
    requires f.Valid() && IsLive(f, live)
    ensures IsMost(f, live, |f.flow.blocks|, 0, most)
  {
    hide LiveAt, IsMost, Func.Valid, L.IsExact;
    most := (file: RegFile) => 0;
    NothingYet(f, live, most);
    var outs: seq<set<Reg>> := [];
    for b := 0 to |f.flow.blocks|
      invariant |outs| == b && (forall p :: 0 <= p < b ==> outs[p] == LiveAt(f, live, p, |f.flow.blocks[p]|)) && IsMost(f, live, b, 0, most)
    {
      var start := BlockStart(f, live, b, outs);
      var end;
      end, most := WalkBlock(f, live, b, start, most);
      NextBlock(f, live, b, most);
      outs := outs + [end];
    }
  }

  lemma NothingYet(f: Func, live: L.Live, most: P.PerFile)
    requires |f.flow.blocks| == |live.blocks| == |live.liveIn| == |live.liveOut| && forall file :: most(file) == 0
    ensures IsMost(f, live, 0, 0, most)
  {
  }

  /** A register file with that many registers has one for every live value, before and behind every instruction. */
  lemma EnoughEverywhere(f: Func, live: L.Live, most: P.PerFile, b: nat, ip: nat, file: RegFile)
    requires f.Valid() && IsLive(f, live) && IsMost(f, live, |f.flow.blocks|, 0, most)
    requires b < |f.flow.blocks| && ip < |f.flow.blocks[b]|
    ensures P.Count(LiveAt(f, live, b, ip), file) <= most(file) && P.Count(LiveAt(f, live, b, ip + 1), file) <= most(file)
  {
    hide LiveAt, Func.Valid, L.IsExact, Func.Shape;
    var instr, after := f.Shape(f.flow.blocks[b][ip]), LiveAt(f, live, b, ip + 1);
    StepIs(f, live, b, ip);
    assert IsBefore(f, b, ip, |f.flow.blocks|, 0);
    assert PeakAt(f, live, b, ip, file) <= most(file);
    FewerCount(after, P.Peak1(instr, after), file);
    FewerCount(LiveAt(f, live, b, ip), P.Peak2(instr, after), file);
  }

  lemma FewerCount(a: set<Reg>, b: set<Reg>, file: RegFile)
    requires a <= b
    ensures P.Count(a, file) <= P.Count(b, file)
  {
    assert b == a + (b - a);
    P.CountUnion(a, b - a, file);
  }
}
