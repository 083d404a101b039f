/** Scheduling for register pressure, from the end of a block
    (crates/deko-nak/src/opt_instr_sched_prepass.rs). */
module PrepassSched {
  import opened Machine
  import opened ReorderedRuns
  import opened PostpassGraph
  import opened PostpassSched
  import opened PrepassGraph
  import P = Pressure

  // ----- Registers after spilling -----

  /** What does not fit into one file goes to another. */
  function SpillOne(p: P.PerFile, src: RegFile, dest: RegFile, maxRegs: P.PerFile): P.PerFile {
    if p(src) > maxRegs(src) then P.Add(p, dest, p(src) - maxRegs(src)) else p
  }

  function CalcUsedRegs(p: P.PerFile, maxRegs: P.PerFile): P.PerFile {
    var p1 := SpillOne(p, Bar, GPR, maxRegs);
    var p2 := SpillOne(p1, Pred, GPR, maxRegs);
    var p3 := SpillOne(p2, UPred, UGPR, maxRegs);
    var p4 := SpillOne(p3, UGPR, GPR, maxRegs);
    SpillOne(p4, GPR, Mem, maxRegs)
  }

  function UsedGprs(p: P.PerFile, maxRegs: P.PerFile): int {
    CalcUsedRegs(p, maxRegs)(GPR)
  }

  ghost predicate AtMost(p: P.PerFile, q: P.PerFile) {
    forall f :: p(f) <= q(f)
  }

  lemma SpillMonotone(p: P.PerFile, q: P.PerFile, src: RegFile, dest: RegFile, maxRegs: P.PerFile)
    requires AtMost(p, q)
    ensures AtMost(SpillOne(p, src, dest, maxRegs), SpillOne(q, src, dest, maxRegs))
  {
  }

  /** More live values never need fewer registers. */
  lemma UsedMonotone(p: P.PerFile, q: P.PerFile, maxRegs: P.PerFile)
    requires AtMost(p, q)
    ensures UsedGprs(p, maxRegs) <= UsedGprs(q, maxRegs)
  {
    hide AtMost, SpillOne;
    SpillMonotone(p, q, Bar, GPR, maxRegs);
    var p1, q1 := SpillOne(p, Bar, GPR, maxRegs), SpillOne(q, Bar, GPR, maxRegs);
    SpillMonotone(p1, q1, Pred, GPR, maxRegs);
    var p2, q2 := SpillOne(p1, Pred, GPR, maxRegs), SpillOne(q1, Pred, GPR, maxRegs);
    SpillMonotone(p2, q2, UPred, UGPR, maxRegs);
    var p3, q3 := SpillOne(p2, UPred, UGPR, maxRegs), SpillOne(q2, UPred, UGPR, maxRegs);
    SpillMonotone(p3, q3, UGPR, GPR, maxRegs);
    var p4, q4 := SpillOne(p3, UGPR, GPR, maxRegs), SpillOne(q3, UGPR, GPR, maxRegs);
    SpillMonotone(p4, q4, GPR, Mem, maxRegs);
    AtFile(SpillOne(p4, GPR, Mem, maxRegs), SpillOne(q4, GPR, Mem, maxRegs), GPR);
  }

  lemma AtFile(p: P.PerFile, q: P.PerFile, f: RegFile)
    requires AtMost(p, q)
    ensures p(f) <= q(f)
  {
  }

  lemma UsedSame(p: P.PerFile, q: P.PerFile, maxRegs: P.PerFile)
    requires forall f :: p(f) == q(f)
    ensures UsedGprs(p, maxRegs) == UsedGprs(q, maxRegs)
  {
    UsedMonotone(p, q, maxRegs);
    UsedMonotone(q, p, maxRegs);
  }

  // ----- The pressure of a schedule -----

  function Counts(s: set<P.Ssa>): P.PerFile {
    (f: RegFile) => P.Count(s, f)
  }

  /** Both high points of an instruction stay below the threshold. */
  ghost predicate FitsAt(shape: P.Instr, live: set<P.Ssa>, maxRegs: P.PerFile, quit: int) {
    UsedGprs(Counts(P.Peak1(shape, live)), maxRegs) <= quit && UsedGprs(Counts(P.Peak2(shape, live)), maxRegs) <= quit
  }

  /** The instructions `rev`, from the last to the first, do so one by one. */
  ghost predicate Fits(shapes: seq<P.Instr>, rev: seq<nat>, liveOut: set<P.Ssa>, maxRegs: P.PerFile, quit: int)
    requires forall i :: 0 <= i < |rev| ==> rev[i] < |shapes|
  {
    forall k :: 0 <= k < |rev| ==> FitsAt(shapes[rev[k]], P.Walk(shapes, rev[..k], liveOut), maxRegs, quit)
  }

  lemma FitsMore(shapes: seq<P.Instr>, rev: seq<nat>, liveOut: set<P.Ssa>, maxRegs: P.PerFile, quit: int, x: nat)
    requires (forall i :: 0 <= i < |rev| ==> rev[i] < |shapes|) && x < |shapes| && Fits(shapes, rev, liveOut, maxRegs, quit)
    requires FitsAt(shapes[x], P.Walk(shapes, rev, liveOut), maxRegs, quit)
    ensures Fits(shapes, rev + [x], liveOut, maxRegs, quit)
  {
    hide FitsAt;
    var longer := rev + [x];
    forall k | 0 <= k < |longer|
      ensures FitsAt(shapes[longer[k]], P.Walk(shapes, longer[..k], liveOut), maxRegs, quit)
    {
      assert longer[..k] == rev[..k];
      assert rev[..|rev|] == rev;
    }
  }

  // ----- Which instruction defines and uses what -----

  ghost predicate Describes(instrs: seq<Instr>, shapes: seq<P.Instr>) {
    |shapes| == |instrs| && forall i :: 0 <= i < |instrs| ==> shapes[i].Valid() && SameValues(instrs[i], shapes[i])
  }

  ghost predicate SameValues(instr: Instr, shape: P.Instr) {
    forall x :: (instr.Reads(x) <==> x in shape.Uses()) && (instr.Writes(x) <==> x in shape.Defs())
  }

  lemma ShapesInSsaForm(instrs: seq<Instr>, shapes: seq<P.Instr>)
    requires Describes(instrs, shapes) && SsaBlock(instrs)
    ensures P.BlockOk(shapes)
  {
    hide Instr.Reads, Instr.Writes, P.Instr.Uses, P.Instr.Defs, P.Instr.Valid;
    forall i, j, x | 0 <= i < |shapes| && 0 <= j < |shapes| && x in shapes[j].Defs()
      ensures x in shapes[i].Defs() ==> i == j
      ensures x in shapes[i].Uses() ==> j < i
    {
      assert SameValues(instrs[i], shapes[i]) && SameValues(instrs[j], shapes[j]);
      assert instrs[j].Writes(x);
    }
  }

  /** When an instruction is ready, everything that uses its results has been scheduled. */
  lemma ReadyHasNoUsers(instrs: seq<Instr>, shapes: seq<P.Instr>, g: seq<seq<Edge>>, s: Sched, x: nat)
    requires Describes(instrs, shapes) && SsaBlock(instrs) && SsaGraphOk(instrs, g) && OpenCounted(g, s) && ListsOk(g, s)
    requires (x in s.ready || x in s.future) && P.UsersDone(shapes, Done(s.order))
    ensures x < |shapes| == |g| && x !in s.order && P.UsersDone(shapes, Done(s.order) + {x})
  {
    hide SsaGraphOk, Instr.Reads, Instr.Writes, P.Instr.Uses, P.Instr.Defs, P.Instr.Valid, PostpassSched.Pending, SsaBlock;
    SsaSize(instrs, g);
    NonePending(g[x], Done(s.order));
    forall i, y | 0 <= i < |shapes| && y in shapes[i].Uses() && y in shapes[x].Defs()
      ensures i in Done(s.order)
    {
      assert SameValues(instrs[i], shapes[i]) && SameValues(instrs[x], shapes[x]);
      UsesComeLater(instrs, i, x, y);
      DefPointsToUse(instrs, g, x, i, y);
      var k :| 0 <= k < |g[x]| && g[x][k].head == i;
    }
  }

  lemma UsesComeLater(instrs: seq<Instr>, i: nat, x: nat, y: Reg)
    requires SsaBlock(instrs) && i < |instrs| && x < |instrs| && instrs[i].Reads(y) && instrs[x].Writes(y)
    ensures x < i
  {
  }

  // ----- One instruction -----

  /** The values that stay live across an instruction, or become live with it. */
  method MakeLive(shape: P.Instr, live0: set<P.Ssa>, net: P.NetLive, ghost shapes: seq<P.Instr>, ghost needed: set<P.Ssa>) returns (live: set<P.Ssa>)
    requires P.NetOk(shapes, net.counts, net.ssaToInstr, net.ssaToInstr.Keys, needed) && shape.Uses() - net.ssaToInstr.Keys <= live0
    modifies net
    ensures P.NetOk(shapes, net.counts, net.ssaToInstr, net.ssaToInstr.Keys, needed)
    ensures net.ssaToInstr.Keys == old(net.ssaToInstr).Keys - shape.Uses() && live == live0 + shape.Uses() * old(net.ssaToInstr).Keys
  {
    hide P.NetOk;
    live := live0;
    ghost var keys := net.ssaToInstr.Keys;
    for k := 0 to |shape.uses|
      invariant P.NetOk(shapes, net.counts, net.ssaToInstr, net.ssaToInstr.Keys, needed)
      invariant net.ssaToInstr.Keys == keys - P.Elements(shape.uses[..k]) && live == live0 + P.Elements(shape.uses[..k]) * keys
    {
      var ssa := shape.uses[k];
      assert shape.uses[..k + 1] == shape.uses[..k] + [ssa];
      assert ssa in shape.Uses();
      var removed := net.Remove(ssa, shapes, needed);
      if removed {
        live := live + {ssa};
      } else {
        assert ssa in live;
      }
    }
    assert shape.uses[..|shape.uses|] == shape.uses;
    assert P.Elements(shape.uses) == shape.Uses();
  }

  ghost predicate PressureOk(shapes: seq<P.Instr>, order: seq<nat>, liveOut: set<P.Ssa>, live: set<P.Ssa>, net: P.NetLive)
    requires forall i :: 0 <= i < |order| ==> order[i] < |shapes|
    reads net
  {
    && live == P.Walk(shapes, order, liveOut) && P.UsersFirst(shapes, order)
    && net.ssaToInstr.Keys == P.Pending(shapes, liveOut, Done(order))
    && P.NetOk(shapes, net.counts, net.ssaToInstr, net.ssaToInstr.Keys, P.Needed(shapes, liveOut))
  }

  /** Values live now, plus the change that an instruction predicts. */
  function NewUsed(live: set<P.Ssa>, change: P.PerFile): P.PerFile {
    (f: RegFile) => P.Count(live, f) + change(f)
  }

  /** The predictions for the next instruction are what is measured when it has been scheduled. */
  lemma Predictions(shapes: seq<P.Instr>, order: seq<nat>, liveOut: set<P.Ssa>, live: set<P.Ssa>, net: P.NetLive, x: nat, maxRegs: P.PerFile)
    requires (forall i :: 0 <= i < |order| ==> order[i] < |shapes|) && (forall i, j :: 0 <= i < j < |order| ==> order[i] != order[j])
    requires P.BlockOk(shapes) && PressureOk(shapes, order, liveOut, live, net)
    requires x < |shapes| && x !in order && P.UsersDone(shapes, Done(order) + {x})
    ensures x < |net.counts|
    ensures UsedGprs(NewUsed(live, net.counts[x].net), maxRegs) == UsedGprs(Counts(P.Before(shapes[x], live)), maxRegs)
    ensures UsedGprs(NewUsed(live, net.counts[x].peak1), maxRegs) == UsedGprs(Counts(P.Peak1(shapes[x], live)), maxRegs)
    ensures UsedGprs(NewUsed(live, net.counts[x].peak2), maxRegs) == UsedGprs(Counts(P.Peak2(shapes[x], live)), maxRegs)
  {
    hide P.BlockOk, P.UsersDone, P.Count, P.NetIs, P.AreUsers, P.Before, P.Peak1, P.Peak2, UsedGprs;
    DoneLive(shapes, order, liveOut);
    forall f: RegFile
      ensures NewUsed(live, net.counts[x].net)(f) == Counts(P.Before(shapes[x], live))(f)
      ensures NewUsed(live, net.counts[x].peak1)(f) == Counts(P.Peak1(shapes[x], live))(f)
      ensures NewUsed(live, net.counts[x].peak2)(f) == Counts(P.Peak2(shapes[x], live))(f)
    {
      P.NetIsExact(shapes, liveOut, Done(order), live, x, net.counts[x], f);
    }
    UsedSame(NewUsed(live, net.counts[x].net), Counts(P.Before(shapes[x], live)), maxRegs);
    UsedSame(NewUsed(live, net.counts[x].peak1), Counts(P.Peak1(shapes[x], live)), maxRegs);
    UsedSame(NewUsed(live, net.counts[x].peak2), Counts(P.Peak2(shapes[x], live)), maxRegs);
  }

  lemma DoneLive(shapes: seq<P.Instr>, order: seq<nat>, liveOut: set<P.Ssa>)
    requires (forall i :: 0 <= i < |order| ==> order[i] < |shapes|) && (forall i, j :: 0 <= i < j < |order| ==> order[i] != order[j])
    requires P.BlockOk(shapes) && P.UsersFirst(shapes, order)
    ensures P.Walk(shapes, order, liveOut) == (liveOut + P.AllUses(shapes, Done(order))) - P.AllDefs(shapes, Done(order))
    ensures P.UsersDone(shapes, Done(order)) && Done(order) <= P.AllIds(|shapes|)
  {
    hide P.BlockOk, P.UsersDone;
    P.LiveBefore(shapes, order, liveOut);
    assert P.Ids(order) == Done(order);
    assert order[..|order|] == order;
  }

  /** What scheduling an instruction does to the live values. */
  lemma StillPressureOk(shapes: seq<P.Instr>, order: seq<nat>, liveOut: set<P.Ssa>, live: set<P.Ssa>, keys: set<P.Ssa>, x: nat)
    requires (forall i :: 0 <= i < |order| ==> order[i] < |shapes|) && (forall i, j :: 0 <= i < j < |order| ==> order[i] != order[j])
    requires P.BlockOk(shapes) && live == P.Walk(shapes, order, liveOut) && P.UsersFirst(shapes, order) && keys == P.Pending(shapes, liveOut, Done(order))
    requires x < |shapes| && x !in order && P.UsersDone(shapes, Done(order) + {x})
    ensures shapes[x].Uses() - keys <= live - shapes[x].Defs()
    ensures (live - shapes[x].Defs()) + shapes[x].Uses() * keys == P.Walk(shapes, order + [x], liveOut)
    ensures P.UsersFirst(shapes, order + [x]) && keys - shapes[x].Uses() == P.Pending(shapes, liveOut, Done(order + [x]))
  {
    hide P.BlockOk, P.UsersDone, P.Pending, P.Needed, P.Instr.Uses, P.Instr.Defs, P.AllDefs, P.AllUses;
    DoneLive(shapes, order, liveOut);
    P.WhatBecomesLive(shapes, liveOut, Done(order), live, x);
    forall y | y in shapes[x].Uses()
      ensures y in keys || (y in live && y !in shapes[x].Defs())
    {
      assert y in shapes[x].Uses() * keys <==> y in shapes[x].Uses() - live;
    }
    var longer := order + [x];
    assert longer[..|longer| - 1] == order;
    FewerPending(shapes, liveOut, order, x);
    assert Done(longer) == Done(order) + {x} && P.Ids(longer) == Done(longer);
    forall n: nat | n <= |longer|
      ensures P.UsersDone(shapes, P.Ids(longer[..n]))
    {
      if n <= |order| {
        assert longer[..n] == order[..n];
      } else {
        assert longer[..n] == longer;
      }
    }
  }

  lemma FewerPending(shapes: seq<P.Instr>, liveOut: set<P.Ssa>, order: seq<nat>, x: nat)
    requires x < |shapes|
    ensures P.Pending(shapes, liveOut, Done(order + [x])) == P.Pending(shapes, liveOut, Done(order)) - shapes[x].Uses()
  {
    hide P.Instr.Uses;
    assert Done(order + [x]) == Done(order) + {x};
    assert P.AllUses(shapes, Done(order) + {x}) == P.AllUses(shapes, Done(order)) + shapes[x].Uses();
  }

  // ----- The schedule -----

  method Zeroes(n: nat) returns (z: seq<nat>)
    ensures |z| == n && forall i :: 0 <= i < n ==> z[i] == 0
  {
    z := [];
    for i := 0 to n
      invariant |z| == i && forall j :: 0 <= j < i ==> z[j] == 0
    {
      z := z + [0];
    }
  }

  /** An instruction that could be ready only later is taken all the same: time passes until then. */
  lemma TakeEarly(g: seq<seq<Edge>>, exec: seq<nat>, s: Sched, at: map<nat, nat>, x: nat)
    requires SchedOk(g, exec, s, at) && Sizes(g, s) && x in s.future && x < |s.readyCycle| && x < |exec| && Due(s.readyCycle, exec, x) > s.current
    ensures var s' := s.(ready := s.ready + {x}, future := s.future - {x}, current := Due(s.readyCycle, exec, x)); SchedOk(g, exec, s', at) && Sizes(g, s')
  {
    hide Backward, PostpassSched.Pending;
    SameCounts(g, s, s.(ready := s.ready + {x}, future := s.future - {x}, current := Due(s.readyCycle, exec, x)));
  }

  /** All that holds while a block is scheduled. */
  ghost predicate StateOk(instrs: seq<Instr>, shapes: seq<P.Instr>, g: seq<seq<Edge>>, s: Sched, at: map<nat, nat>, exec: seq<nat>,
                          liveOut: set<P.Ssa>, live: set<P.Ssa>, net: P.NetLive, maxRegs: P.PerFile, quit: int)
    reads net
  {
    && SchedOk(g, exec, s, at) && Sizes(g, s) && |shapes| == |g| && (forall i :: 0 <= i < |s.order| ==> s.order[i] < |shapes|)
    && PressureOk(shapes, s.order, liveOut, live, net) && Fits(shapes, s.order, liveOut, maxRegs, quit)
  }

  lemma SameOrder(instrs: seq<Instr>, shapes: seq<P.Instr>, g: seq<seq<Edge>>, s: Sched, s': Sched, at: map<nat, nat>, exec: seq<nat>,
                  liveOut: set<P.Ssa>, live: set<P.Ssa>, net: P.NetLive, maxRegs: P.PerFile, quit: int)
    requires StateOk(instrs, shapes, g, s, at, exec, liveOut, live, net, maxRegs, quit) && SchedOk(g, exec, s', at) && Sizes(g, s') && s'.order == s.order
    ensures StateOk(instrs, shapes, g, s', at, exec, liveOut, live, net, maxRegs, quit)
  {
    hide SchedOk, PressureOk, Fits;
  }

  lemma FutureFits(g: seq<seq<Edge>>, s: Sched, s': Sched)
    requires Sizes(g, s) && s' == s.(ready := s'.ready, future := s'.future, current := s'.current) && s'.future <= s.future
    ensures Sizes(g, s')
  {
  }

  /** The instructions `rev` have been scheduled, `x` could be the next one before them, and would need too
      many registers. */
  ghost predicate Exceeds(shapes: seq<P.Instr>, rev: seq<nat>, x: nat, liveOut: set<P.Ssa>, maxRegs: P.PerFile, quit: int) {
    && (forall i :: 0 <= i < |rev| ==> rev[i] < |shapes|) && x < |shapes| && x !in rev && P.UsersFirst(shapes, rev + [x])
    && Fits(shapes, rev, liveOut, maxRegs, quit) && !FitsAt(shapes[x], P.Walk(shapes, rev, liveOut), maxRegs, quit)
  }

  /** One more instruction is scheduled, unless it would need too many registers. */
  method ScheduleNext(instrs: seq<Instr>, shapes: seq<P.Instr>, g: seq<seq<Edge>>, r: seq<seq<Edge>>, exec: seq<nat>, s: Sched, x: nat,
                      liveOut: set<P.Ssa>, live: set<P.Ssa>, net: P.NetLive, maxRegs: P.PerFile, quit: int, ghost at: map<nat, nat>)
    returns (ok: bool, s': Sched, live': set<P.Ssa>)
    requires Describes(instrs, shapes) && SsaBlock(instrs) && SsaGraphOk(instrs, g) && IsReverse(g, r) && x in s.ready
    requires StateOk(instrs, shapes, g, s, at, exec, liveOut, live, net, maxRegs, quit)
    modifies net
    ensures ok ==> StateOk(instrs, shapes, g, s', at[x := s.current], exec, liveOut, live', net, maxRegs, quit) && s'.order == s.order + [x]
    ensures !ok ==> Exceeds(shapes, s.order, x, liveOut, maxRegs, quit)
  {
    hide SchedOk, Sizes, Fits, IsReverse, SsaBlock, SsaGraphOk, Describes, P.UsersFirst, P.NetOk, P.Pending, P.Needed, UsedGprs, P.Instr.Uses, P.Instr.Defs;
    ghost var keys, needed := net.ssaToInstr.Keys, P.Needed(shapes, liveOut);
    Predicted(instrs, shapes, g, exec, s, at, liveOut, live, net, maxRegs, x);
    if UsedGprs(NewUsed(live, net.counts[x].peak1), maxRegs) > quit || UsedGprs(NewUsed(live, net.counts[x].peak2), maxRegs) > quit {
      return false, s, live;
    }
    ghost var predicted := UsedGprs(NewUsed(live, net.counts[x].net), maxRegs);
    FitsMore(shapes, s.order, liveOut, maxRegs, quit, x);
    live' := MakeLive(shapes[x], live - shapes[x].Defs(), net, shapes, needed);
    WalkStep(shapes, s.order, liveOut, live, x);
    assert UsedGprs(Counts(live'), maxRegs) == predicted;
    s' := Advance(g, r, exec, s, x, at);
    ok := true;
  }

  /** The bookkeeping of the schedule for one more instruction; it takes one cycle. */
  method Advance(g: seq<seq<Edge>>, r: seq<seq<Edge>>, exec: seq<nat>, s: Sched, x: nat, ghost at: map<nat, nat>) returns (s': Sched)
    requires SchedOk(g, exec, s, at) && Sizes(g, s) && IsReverse(g, r) && x in s.ready
    ensures SchedOk(g, exec, s', at[x := s.current]) && Sizes(g, s') && s'.order == s.order + [x]
  {
    hide SchedOk, IsReverse, Closing;
    ReadyKnown(g, r, exec, s, at, x);
    s' := CloseEdges(g, exec, s, x, r[x]);
    ScheduleOne(g, r, exec, s, s', x, at);
    Progress(g, exec, s, s', x, r[x], at, at[x := s.current]);
    ClosedOrder(g, exec, s, s', x, r[x]);
    LaterCycle(g, exec, s', at[x := s.current], s'.current + 1);
    s' := s'.(current := s'.current + 1);
  }

  /** What is known before an instruction is scheduled: the predictions are exact, and what it makes live. */
  lemma Predicted(instrs: seq<Instr>, shapes: seq<P.Instr>, g: seq<seq<Edge>>, exec: seq<nat>, s: Sched, at: map<nat, nat>,
                  liveOut: set<P.Ssa>, live: set<P.Ssa>, net: P.NetLive, maxRegs: P.PerFile, x: nat)
    requires Describes(instrs, shapes) && SsaBlock(instrs) && SsaGraphOk(instrs, g) && x in s.ready
    requires SchedOk(g, exec, s, at) && (forall i :: 0 <= i < |s.order| ==> s.order[i] < |shapes|) && PressureOk(shapes, s.order, liveOut, live, net)
    ensures x < |shapes| && x < |net.counts| && x !in s.order
    ensures UsedGprs(NewUsed(live, net.counts[x].net), maxRegs) == UsedGprs(Counts(P.Before(shapes[x], live)), maxRegs)
    ensures UsedGprs(NewUsed(live, net.counts[x].peak1), maxRegs) == UsedGprs(Counts(P.Peak1(shapes[x], live)), maxRegs)
    ensures UsedGprs(NewUsed(live, net.counts[x].peak2), maxRegs) == UsedGprs(Counts(P.Peak2(shapes[x], live)), maxRegs)
    ensures shapes[x].Uses() - net.ssaToInstr.Keys <= live - shapes[x].Defs()
    ensures (live - shapes[x].Defs()) + shapes[x].Uses() * net.ssaToInstr.Keys == P.Walk(shapes, s.order + [x], liveOut)
    ensures P.UsersFirst(shapes, s.order + [x]) && net.ssaToInstr.Keys - shapes[x].Uses() == P.Pending(shapes, liveOut, Done(s.order + [x]))
  {
    hide SchedOk, SsaBlock, SsaGraphOk, Describes, P.BlockOk, P.UsersDone, P.NetOk, P.Pending, P.Needed, UsedGprs, P.UsersFirst,
      P.Instr.Uses, P.Instr.Defs, P.Before, P.Peak1, P.Peak2;
    ListsKnown(g, exec, s, at);
    ShapesInSsaForm(instrs, shapes);
    DoneLive(shapes, s.order, liveOut);
    ReadyHasNoUsers(instrs, shapes, g, s, x);
    Predictions(shapes, s.order, liveOut, live, net, x, maxRegs);
    StillPressureOk(shapes, s.order, liveOut, live, net.ssaToInstr.Keys, x);
  }

  lemma WalkStep(shapes: seq<P.Instr>, order: seq<nat>, liveOut: set<P.Ssa>, live: set<P.Ssa>, x: nat)
    requires (forall i :: 0 <= i < |order| ==> order[i] < |shapes|) && x < |shapes| && live == P.Walk(shapes, order, liveOut)
    ensures P.Walk(shapes, order + [x], liveOut) == P.Before(shapes[x], live)
  {
    assert (order + [x])[..|order|] == order;
  }

  lemma ListsKnown(g: seq<seq<Edge>>, exec: seq<nat>, s: Sched, at: map<nat, nat>)
    requires SchedOk(g, exec, s, at)
    ensures OpenCounted(g, s) && ListsOk(g, s) && forall i, j :: 0 <= i < j < |s.order| ==> s.order[i] != s.order[j]
  {
  }

  lemma ClosedOrder(g: seq<seq<Edge>>, exec: seq<nat>, s: Sched, s': Sched, x: nat, edges: seq<Edge>)
    requires Closing(g, exec, s, s', x, edges, |edges|)
    ensures s'.order == s.order + [x]
  {
  }

  /** The instructions from the last to the first, with the number of values live before them; or nothing
      when some instruction would have needed too many registers. */
  method GenerateOrder(instrs: seq<Instr>, shapes: seq<P.Instr>, g: seq<seq<Edge>>, r: seq<seq<Edge>>, numUses: seq<nat>, init: set<nat>,
                       liveOut: set<P.Ssa>, maxRegs: P.PerFile, quit: int)
    returns (result: Option<(seq<nat>, P.PerFile)>)
    requires Describes(instrs, shapes) && SsaBlock(instrs) && SsaGraphOk(instrs, g) && IsReverse(g, r) && |numUses| == |g|
    requires (forall i :: 0 <= i < |g| ==> numUses[i] == |g[i]|) && forall i :: i in init <==> 0 <= i < |g| && g[i] == []
    ensures result.Some? ==>
              var (order, liveIn) := result.value;
              && IsPermutation(order, |instrs|) && |shapes| == |instrs| == |g| && Backward(g, order)
              && Fits(shapes, order, liveOut, maxRegs, quit)
              && forall f :: liveIn(f) == P.Count(P.Walk(shapes, order, liveOut), f)
    ensures result.None? ==> exists rev, x :: Exceeds(shapes, rev, x, liveOut, maxRegs, quit)
  {
    hide SchedOk, IsReverse, SsaBlock, SsaGraphOk, Describes, PressureOk, Fits, Backward, Exceeds;
    SsaSize(instrs, g);
    ShapeCount(instrs, shapes);
    ShapesInSsaForm(instrs, shapes);
    var exec := Zeroes(|g|);
    var ready := Zeroes(|g|);
    var s := Sched([], {}, init, numUses, ready, 0);
    ghost var at: map<nat, nat> := map[];
    var net := new P.NetLive(shapes, liveOut);
    var live := liveOut;
    StartOk(g, exec, s);
    StartPressure(shapes, liveOut, live, net, maxRegs, quit);
    while true
      invariant fresh(net) && StateOk(instrs, shapes, g, s, at, exec, liveOut, live, net, maxRegs, quit)
      decreases |g| - |s.order|, s.future, if SomeDue(s, exec) then 0 else 1
    {
      ghost var before := s;
      s := MoveReady(g, exec, s, at);
      FutureFits(g, before, s);
      SameOrder(instrs, shapes, g, before, s, at, exec, liveOut, live, net, maxRegs, quit);
      if s.ready == {} {
        if s.future == {} {
          break;
        }
        KnownFuture(g, exec, s, at);
        var i := Earliest(s.future, s.readyCycle, exec);
        NoneDue(before, s, exec, |g|);
        LaterCycle(g, exec, s, at, Due(s.readyCycle, exec, i));
        s := s.(current := Due(s.readyCycle, exec, i));
      } else {
        // Which of the candidates is taken is a matter of scores.
        var x :| x in s.ready || x in s.future;
        if x !in s.ready {
          KnownFuture(g, exec, s, at);
          TakeEarly(g, exec, s, at, x);
          s := s.(ready := s.ready + {x}, future := s.future - {x}, current := Due(s.readyCycle, exec, x));
        }
        ghost var taken := s;
        var ok;
        ok, s, live := ScheduleNext(instrs, shapes, g, r, exec, s, x, liveOut, live, net, maxRegs, quit, at);
        if !ok {
          assert Exceeds(shapes, taken.order, x, liveOut, maxRegs, quit);
          return None;
        }
        at := at[x := taken.current];
      }
    }
    AllScheduled(g, exec, s, at);
    EndLive(shapes, s.order, liveOut, live, net);
    var atStart := live;
    return Some((s.order, (f: RegFile) => P.Count(atStart, f)));
  }

  lemma EndLive(shapes: seq<P.Instr>, order: seq<nat>, liveOut: set<P.Ssa>, live: set<P.Ssa>, net: P.NetLive)
    requires (forall i :: 0 <= i < |order| ==> order[i] < |shapes|) && PressureOk(shapes, order, liveOut, live, net)
    ensures live == P.Walk(shapes, order, liveOut)
  {
  }

  lemma ShapeCount(instrs: seq<Instr>, shapes: seq<P.Instr>)
    requires Describes(instrs, shapes)
    ensures |shapes| == |instrs|
  {
  }

  lemma StartPressure(shapes: seq<P.Instr>, liveOut: set<P.Ssa>, live: set<P.Ssa>, net: P.NetLive, maxRegs: P.PerFile, quit: int)
    requires live == liveOut && P.NetOk(shapes, net.counts, net.ssaToInstr, net.ssaToInstr.Keys, P.Needed(shapes, liveOut))
    requires net.ssaToInstr.Keys == P.Pending(shapes, liveOut, {})
    ensures PressureOk(shapes, [], liveOut, live, net) && Fits(shapes, [], liveOut, maxRegs, quit)
  {
    hide P.NetOk, P.Pending, P.Needed;
    assert Done([]) == {};
  }

  // ----- The block -----

  /** A new order of the block: what conflicts stays in order, no instruction needs more registers than the
      threshold, and what is live before the block does not change. */
  method SchedBuffer(sm: Sm, isVirtual: nat -> bool, instrs: seq<Instr>, shapes: seq<P.Instr>, liveOut: set<P.Ssa>, liveInCount: P.PerFile,
                     maxRegs: P.PerFile, quit: int)
    returns (order: Option<seq<nat>>, ghost g: seq<seq<Edge>>)
    requires Describes(instrs, shapes) && SsaBlock(instrs)
    requires forall f :: liveInCount(f) == P.Count((liveOut + P.AllUses(shapes, P.AllIds(|shapes|))) - P.AllDefs(shapes, P.AllIds(|shapes|)), f)
    ensures SsaGraphOk(instrs, g)
    ensures order.Some? ==> IsPermutation(order.value, |instrs|) && Respects(g, order.value) && |shapes| == |instrs|
    ensures order.Some? ==> Fits(shapes, Reversed(order.value), liveOut, maxRegs, quit)
    ensures order.None? ==> exists rev, x :: Exceeds(shapes, rev, x, liveOut, maxRegs, quit)
  {
    hide IsReverse, SsaBlock, SsaGraphOk, Describes, Fits, Backward, Respects, InGraph;
    var edges := PrepassGraph.GenerateDepGraph(sm, isVirtual, instrs);
    g := edges;
    SsaSize(instrs, edges);
    var _, numUses, init := CalcStatistics(edges);
    var r := Reverse(edges);
    var result := GenerateOrder(instrs, shapes, edges, r, numUses, init, liveOut, maxRegs, quit);
    if result.None? {
      return None, g;
    }
    var (rev, liveIn) := result.value;
    LiveInAgrees(instrs, shapes, edges, rev, liveOut);
    assert forall f :: liveIn(f) == liveInCount(f);
    ReversedRespects(edges, rev);
    ReversedTwice(rev);
    order := Some(Reversed(rev));
  }

  lemma ReversedTwice(order: seq<nat>)
    ensures Reversed(Reversed(order)) == order
  {
  }

  /** What is live before a block does not depend on the order of its instructions. */
  lemma LiveInAgrees(instrs: seq<Instr>, shapes: seq<P.Instr>, g: seq<seq<Edge>>, rev: seq<nat>, liveOut: set<P.Ssa>)
    requires Describes(instrs, shapes) && SsaBlock(instrs) && SsaGraphOk(instrs, g) && |g| == |instrs| && IsPermutation(rev, |g|) && Backward(g, rev)
    ensures |shapes| == |instrs|
    ensures P.Walk(shapes, rev, liveOut) == (liveOut + P.AllUses(shapes, P.AllIds(|shapes|))) - P.AllDefs(shapes, P.AllIds(|shapes|))
  {
    hide SsaBlock, SsaGraphOk, Describes, P.UsersDone, P.BlockOk, Backward;
    ShapeCount(instrs, shapes);
    ShapesInSsaForm(instrs, shapes);
    forall n: nat | n <= |rev|
      ensures P.UsersDone(shapes, P.Ids(rev[..n]))
    {
      PrefixUsersDone(instrs, shapes, g, rev, n);
    }
    P.LiveBefore(shapes, rev, liveOut);
    forall i: nat
      ensures i in P.Ids(rev) <==> i in P.AllIds(|shapes|)
    {
      if i < |instrs| {
        Contains(rev, |instrs|, i);
      }
    }
    assert P.Ids(rev) == P.AllIds(|shapes|);
  }

  lemma PrefixUsersDone(instrs: seq<Instr>, shapes: seq<P.Instr>, g: seq<seq<Edge>>, rev: seq<nat>, n: nat)
    requires Describes(instrs, shapes) && SsaBlock(instrs) && SsaGraphOk(instrs, g) && |g| == |instrs| && IsPermutation(rev, |g|) && Backward(g, rev)
    requires n <= |rev|
    ensures P.UsersDone(shapes, P.Ids(rev[..n]))
  {
    hide SsaGraphOk, Instr.Reads, Instr.Writes, P.Instr.Uses, P.Instr.Defs, P.Instr.Valid, SsaBlock;
    forall i, j, x | 0 <= i < |shapes| && j in P.Ids(rev[..n]) && j < |shapes| && x in shapes[i].Uses() && x in shapes[j].Defs()
      ensures i in P.Ids(rev[..n])
    {
      assert SameValues(instrs[i], shapes[i]) && SameValues(instrs[j], shapes[j]);
      UsesComeLater(instrs, i, j, x);
      DefPointsToUse(instrs, g, j, i, x);
      var k :| 0 <= k < |g[j]| && g[j][k].head == i;
      var a :| 0 <= a < n && rev[a] == j;
      assert g[rev[a]][k].head in rev[..a];
    }
  }

  // ----- Two measures -----

  /** The forward walk measures, for each register file, the most that is live at either high point. */
  function Joint(p: P.PerFile, q: P.PerFile): P.PerFile {
    (f: RegFile) => P.MaxInt(p(f), q(f))
  }

  function JointPeak(shape: P.Instr, live: set<P.Ssa>): P.PerFile {
    Joint(Counts(P.Peak1(shape, live)), Counts(P.Peak2(shape, live)))
  }

  function Over(n: int, max: int): int {
    if n > max then n - max else 0
  }

  /** What the other files put into general registers. */
  function Excess(p: P.PerFile, maxRegs: P.PerFile): int {
    Over(p(Bar), maxRegs(Bar)) + Over(p(Pred), maxRegs(Pred)) + Over(p(UGPR) + Over(p(UPred), maxRegs(UPred)), maxRegs(UGPR))
  }

  lemma UsedIsSum(p: P.PerFile, maxRegs: P.PerFile)
    ensures UsedGprs(p, maxRegs) == p(GPR) + Excess(p, maxRegs)
  {
    var p1 := SpillOne(p, Bar, GPR, maxRegs);
    var p2 := SpillOne(p1, Pred, GPR, maxRegs);
    var p3 := SpillOne(p2, UPred, UGPR, maxRegs);
    var p4 := SpillOne(p3, UGPR, GPR, maxRegs);
    assert p2(GPR) == p(GPR) + Over(p(Bar), maxRegs(Bar)) + Over(p(Pred), maxRegs(Pred));
    assert p3(UGPR) == p(UGPR) + Over(p(UPred), maxRegs(UPred)) && p3(GPR) == p2(GPR);
    assert p4(GPR) == p3(GPR) + Over(p3(UGPR), maxRegs(UGPR));
  }

  /** The joint measure never needs fewer registers than either high point, and as many as the higher one
      exactly when one of them has both the most general registers in use and the most to spill. */
  lemma JointNeedsMore(p: P.PerFile, q: P.PerFile, maxRegs: P.PerFile)
    ensures var j := Joint(p, q);
            && P.MaxInt(UsedGprs(p, maxRegs), UsedGprs(q, maxRegs)) <= UsedGprs(j, maxRegs)
            && (UsedGprs(j, maxRegs) == P.MaxInt(UsedGprs(p, maxRegs), UsedGprs(q, maxRegs)) <==>
                  || (p(GPR) >= q(GPR) && Excess(p, maxRegs) == Excess(j, maxRegs))
                  || (q(GPR) >= p(GPR) && Excess(q, maxRegs) == Excess(j, maxRegs)))
  {
    hide UsedGprs, Excess;
    var j := Joint(p, q);
    UsedIsSum(p, maxRegs);
    UsedIsSum(q, maxRegs);
    UsedIsSum(j, maxRegs);
    ExcessGrows(p, j, maxRegs);
    ExcessGrows(q, j, maxRegs);
  }

  lemma ExcessGrows(p: P.PerFile, j: P.PerFile, maxRegs: P.PerFile)
    requires AtMost(p, j)
    ensures Excess(p, maxRegs) <= Excess(j, maxRegs)
  {
    assert p(Bar) <= j(Bar) && p(Pred) <= j(Pred) && p(UPred) <= j(UPred) && p(UGPR) <= j(UGPR);
  }

  /** No file but the general registers is over its limit. */
  ghost predicate WithinLimits(p: P.PerFile, maxRegs: P.PerFile) {
    forall f :: f != GPR ==> p(f) <= maxRegs(f)
  }

  /** Then the forward measure stays within the threshold along with the two high points. */
  lemma ForwardWithinThreshold(shapes: seq<P.Instr>, rev: seq<nat>, liveOut: set<P.Ssa>, maxRegs: P.PerFile, quit: int, k: nat)
    requires (forall i :: 0 <= i < |rev| ==> rev[i] < |shapes|) && Fits(shapes, rev, liveOut, maxRegs, quit) && k < |rev|
    requires WithinLimits(JointPeak(shapes[rev[k]], P.Walk(shapes, rev[..k], liveOut)), maxRegs)
    ensures UsedGprs(JointPeak(shapes[rev[k]], P.Walk(shapes, rev[..k], liveOut)), maxRegs) <= quit
  {
    hide UsedGprs, Counts;
    var shape, live := shapes[rev[k]], P.Walk(shapes, rev[..k], liveOut);
    var p, q := Counts(P.Peak1(shape, live)), Counts(P.Peak2(shape, live));
    assert FitsAt(shape, live, maxRegs, quit);
    assert Excess(Joint(p, q), maxRegs) == 0;
    WithinEach(p, q, maxRegs);
    JointNeedsMore(p, q, maxRegs);
  }

  lemma WithinEach(p: P.PerFile, q: P.PerFile, maxRegs: P.PerFile)
    requires WithinLimits(Joint(p, q), maxRegs)
    ensures Excess(p, maxRegs) == Excess(q, maxRegs) == Excess(Joint(p, q), maxRegs) == 0
  {
    assert Joint(p, q)(Bar) <= maxRegs(Bar) && Joint(p, q)(Pred) <= maxRegs(Pred);
    assert Joint(p, q)(UPred) <= maxRegs(UPred) && Joint(p, q)(UGPR) <= maxRegs(UGPR);
  }

  /** Seven predicates are live across an instruction that compares two registers, which die, into an eighth. */
  const SEVEN_PREDS: P.PerFile := f => if f == Pred then 7 else 255
  const COMPARE: P.Instr := P.Instr([Reg(GPR, 0), Reg(GPR, 1)], [], [Reg(Pred, 7)])

  function Lowest(f: RegFile, n: nat): (s: set<P.Ssa>)
    ensures forall x :: x in s <==> x.file == f && x.idx < n
  {
    if n == 0 then {} else Lowest(f, n - 1) + {Reg(f, n - 1)}
  }

  lemma {:induction false} CountLowest(f: RegFile, n: nat, g: RegFile)
    ensures P.Count(Lowest(f, n), g) == if g == f then n else 0
  {
    if n == 0 {
      P.CountNone(g);
    } else {
      CountLowest(f, n - 1, g);
      P.CountInsert(Lowest(f, n - 1), Reg(f, n - 1), g);
      assert Lowest(f, n) == Lowest(f, n - 1) + {Reg(f, n - 1)};
    }
  }

  lemma CompareSets()
    ensures P.Peak1(COMPARE, Lowest(Pred, 8)) == Lowest(Pred, 8)
    ensures P.Peak2(COMPARE, Lowest(Pred, 8)) == Lowest(Pred, 7) + Lowest(GPR, 2)
  {
    hide Lowest;
    CompareTouches();
    var peak1, peak2 := P.Peak1(COMPARE, Lowest(Pred, 8)), P.Peak2(COMPARE, Lowest(Pred, 8));
    forall x
      ensures x in peak1 <==> x in Lowest(Pred, 8)
      ensures x in peak2 <==> x in Lowest(Pred, 7) + Lowest(GPR, 2)
    {
      assert x in COMPARE.Uses() <==> x.file == GPR && x.idx < 2;
      assert x in COMPARE.Defs() <==> x == Reg(Pred, 7);
    }
  }

  lemma CompareTouches()
    ensures COMPARE.Uses() == {Reg(GPR, 0), Reg(GPR, 1)} && COMPARE.Defs() == {Reg(Pred, 7)} && COMPARE.Vectors() == {}
  {
  }

  lemma ComparePeaks(f: RegFile)
    ensures Counts(P.Peak1(COMPARE, Lowest(Pred, 8)))(f) == if f == Pred then 8 else 0
    ensures Counts(P.Peak2(COMPARE, Lowest(Pred, 8)))(f) == if f == Pred then 7 else if f == GPR then 2 else 0
  {
    hide P.Count;
    CompareSets();
    CountLowest(Pred, 8, f);
    CountLowest(Pred, 7, f);
    CountLowest(GPR, 2, f);
    P.CountUnion(Lowest(Pred, 7), Lowest(GPR, 2), f);
  }

  /** This block fits into two registers at both high points, but the forward measure of it asks for three:
      the predicate to spill at one high point, and the two registers in use at the other. */
  lemma JointPeakCanBeHigher()
    ensures Fits([COMPARE], [0], Lowest(Pred, 8), SEVEN_PREDS, 2)
    ensures UsedGprs(JointPeak(COMPARE, Lowest(Pred, 8)), SEVEN_PREDS) == 3
  {
    hide UsedGprs, P.Peak1, P.Peak2, Lowest;
    var live := Lowest(Pred, 8);
    var p, q := Counts(P.Peak1(COMPARE, live)), Counts(P.Peak2(COMPARE, live));
    ComparePeaks(GPR);
    ComparePeaks(Pred);
    ComparePeaks(Bar);
    ComparePeaks(UGPR);
    ComparePeaks(UPred);
    UsedIsSum(p, SEVEN_PREDS);
    UsedIsSum(q, SEVEN_PREDS);
    UsedIsSum(Joint(p, q), SEVEN_PREDS);
    assert [0][..0] == [] && P.Walk([COMPARE], [], live) == live;
    assert FitsAt(COMPARE, live, SEVEN_PREDS, 2);
  }
}
