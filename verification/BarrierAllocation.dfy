/** Hardware barriers for the dependencies, and what the two passes achieve together
    (crates/deko-nak/src/calc_instr_deps.rs). */
module BarrierAllocation {
  import opened Machine
  import opened Scoreboard

  const NUM_BARS: nat := 6

  /** The scheduling bits of an instruction: the barriers it waits on before it issues, and the barriers
      it signals when its sources have been read and when its results have been written. */
  datatype InstrBars = InstrBars(wait: set<nat>, rdBar: Option<nat>, wrBar: Option<nat>)
  {
    predicate Arms(b: nat) {
      rdBar == Some(b) || wrBar == Some(b)
    }
  }

  class BarAlloc {
    var barDep: seq<Option<nat>>

    ghost predicate Valid()
      reads this
    {
      |barDep| == NUM_BARS
    }

    constructor ()
      ensures Valid() && forall b :: 0 <= b < NUM_BARS ==> barDep[b] == None
    {
      barDep := [None, None, None, None, None, None];
    }

    predicate BarIsFree(bar: nat)
      requires Valid() && bar < NUM_BARS
      reads this
    {
      barDep[bar] == None
    }

    method SetBarDep(bar: nat, dep: nat)
      requires Valid() && bar < NUM_BARS && BarIsFree(bar)
      modifies this
      ensures Valid() && barDep == old(barDep)[bar := Some(dep)]
    {
      barDep := barDep[bar := Some(dep)];
    }

    method FreeBar(bar: nat)
      requires Valid() && bar < NUM_BARS && !BarIsFree(bar)
      modifies this
      ensures Valid() && barDep == old(barDep)[bar := None]
    {
      barDep := barDep[bar := None];
    }

    method TryFindFreeBar() returns (r: Option<nat>)
      requires Valid()
      ensures r.Some? ==> r.value < NUM_BARS && BarIsFree(r.value)
      ensures r.None? ==> forall b :: 0 <= b < NUM_BARS ==> !BarIsFree(b)
    {
      for b := 0 to NUM_BARS
        invariant forall k :: 0 <= k < b ==> !BarIsFree(k)
      {
        if BarIsFree(b) {
          return Some(b);
        }
      }
      return None;
    }

    /** The barrier of the oldest dependency. */
    method OldestBar() returns (bar: nat)
      requires Valid() && forall b :: 0 <= b < NUM_BARS ==> !BarIsFree(b)
      ensures bar < NUM_BARS && forall b :: 0 <= b < NUM_BARS ==> barDep[b].Some? && barDep[bar].Some? && barDep[bar].value <= barDep[b].value
    {
      bar := 0;
      assert !BarIsFree(0);
      for b := 1 to NUM_BARS
        invariant bar < NUM_BARS && forall k :: 0 <= k < b ==> barDep[k].Some? && barDep[bar].Some? && barDep[bar].value <= barDep[k].value
      {
        assert !BarIsFree(b) && !BarIsFree(bar);
        if barDep[b].value < barDep[bar].value {
          bar := b;
        }
      }
    }

    method GetBarForDep(dep: nat) returns (r: Option<nat>)
      requires Valid()
      ensures r.Some? ==> r.value < NUM_BARS && barDep[r.value] == Some(dep)
      ensures r.None? ==> forall b :: 0 <= b < NUM_BARS ==> barDep[b] != Some(dep)
    {
      for b := 0 to NUM_BARS
        invariant forall k :: 0 <= k < b ==> barDep[k] != Some(dep)
      {
        if barDep[b] == Some(dep) {
          return Some(b);
        }
      }
      return None;
    }
  }

  // ----- What holds between the instructions and the barriers -----

  /** What the first pass hands over. */
  datatype Plan = Plan(deps: seq<DepNode>, instrDeps: map<nat, (nat, nat)>)

  ghost predicate PlanOk(instrs: seq<Instr>, plan: Plan) {
    && Numbered(instrs, plan.deps, plan.instrDeps, |instrs|) && WaitsLater(plan.deps, plan.instrDeps, |instrs|)
  }

  /** Instruction `i` signals dependency `d` on barrier `b`. */
  ghost predicate HeldBy(plan: Plan, outs: seq<InstrBars>, i: nat, d: nat, b: nat) {
    && i in plan.instrDeps && i < |outs|
    && ((d == plan.instrDeps[i].0 && outs[i].rdBar == Some(b)) || (d == plan.instrDeps[i].1 && outs[i].wrBar == Some(b)))
  }

  /** Nobody has signalled on `b` since `i`. */
  ghost predicate Untouched(outs: seq<InstrBars>, i: nat, b: nat, n: nat) {
    n <= |outs| && forall m :: i < m < n ==> !outs[m].Arms(b)
  }

  /** Between `i` and the instruction at `k`, which waits on `b`, nobody else signals on `b`. */
  ghost predicate WaitsOn(outs: seq<InstrBars>, i: nat, b: nat, k: nat) {
    i < k < |outs| && b in outs[k].wait && Untouched(outs, i, b, k)
  }

  predicate WaitedAfter(plan: Plan, d: nat, i: nat) {
    d < |plan.deps| && plan.deps[d].firstWait.Some? && plan.deps[d].firstWait.value > i
  }

  ghost predicate FirstWait(plan: Plan, d: nat, lo: nat) {
    d < |plan.deps| && plan.deps[d].firstWait.Some? && plan.deps[d].firstWait.value >= lo
  }

  /** A barrier in use belongs to the instruction that last signalled on it, and the wait is still to come. */
  ghost predicate BarOwned(plan: Plan, outs: seq<InstrBars>, d: nat, b: nat, i: nat, lo: nat) {
    HeldBy(plan, outs, i, d, b) && Untouched(outs, i, b, |outs|) && FirstWait(plan, d, lo)
  }

  ghost predicate Owned(plan: Plan, outs: seq<InstrBars>, barDep: seq<Option<nat>>, b: nat, lo: nat)
    requires b < |barDep| && barDep[b].Some?
  {
    exists i :: BarOwned(plan, outs, barDep[b].value, b, i, lo)
  }

  ghost predicate BarsOwned(plan: Plan, outs: seq<InstrBars>, barDep: seq<Option<nat>>, lo: nat) {
    && |barDep| == NUM_BARS
    && forall b: nat :: b < NUM_BARS && barDep[b].Some? ==> Owned(plan, outs, barDep, b, lo)
  }

  /** Whatever has been signalled is outstanding or has been waited for, in time. */
  ghost predicate Accounted(plan: Plan, outs: seq<InstrBars>, barDep: seq<Option<nat>>, i: nat, d: nat, b: nat) {
    && b < NUM_BARS <= |barDep|
    && (barDep[b] == Some(d) || exists k: nat :: WaitsOn(outs, i, b, k) && WaitedAtOrAfter(plan, d, k))
  }

  ghost predicate WaitedAtOrAfter(plan: Plan, d: nat, k: nat) {
    d < |plan.deps| && plan.deps[d].firstWait.Some? && k <= plan.deps[d].firstWait.value
  }

  ghost predicate AllAccounted(plan: Plan, outs: seq<InstrBars>, barDep: seq<Option<nat>>) {
    forall i, d, b {:trigger HeldBy(plan, outs, i, d, b)} :: HeldBy(plan, outs, i, d, b) ==> Accounted(plan, outs, barDep, i, d, b)
  }

  /** An instruction signals exactly those of its dependencies that somebody waits for, on two barriers. */
  ghost predicate SignalsNeeded(plan: Plan, out: InstrBars, i: nat) {
    && (out.rdBar.Some? <==> i in plan.instrDeps && WaitedAfter(plan, plan.instrDeps[i].0, i))
    && (out.wrBar.Some? <==> i in plan.instrDeps && WaitedAfter(plan, plan.instrDeps[i].1, i))
    && (out.rdBar.Some? ==> out.rdBar != out.wrBar)
  }

  ghost predicate SignalsWhatIsNeeded(plan: Plan, outs: seq<InstrBars>, n: nat) {
    n <= |outs| && forall i :: 0 <= i < n ==> SignalsNeeded(plan, outs[i], i)
  }

  ghost predicate StateOk(instrs: seq<Instr>, plan: Plan, outs: seq<InstrBars>, barDep: seq<Option<nat>>, n: nat, lo: nat) {
    && PlanOk(instrs, plan) && BarsOwned(plan, outs, barDep, lo) && AllAccounted(plan, outs, barDep)
    && SignalsWhatIsNeeded(plan, outs, n)
  }

  // ----- The steps -----

  const NOTHING := InstrBars({}, None, None)

  lemma NextInstr(instrs: seq<Instr>, plan: Plan, outs: seq<InstrBars>, barDep: seq<Option<nat>>)
    requires StateOk(instrs, plan, outs, barDep, |outs|, |outs|)
    ensures StateOk(instrs, plan, outs + [NOTHING], barDep, |outs|, |outs|)
  {
    var outs' := outs + [NOTHING];
    forall b: nat | b < NUM_BARS && barDep[b].Some?
      ensures Owned(plan, outs', barDep, b, |outs|)
    {
      var i :| BarOwned(plan, outs, barDep[b].value, b, i, |outs|);
      assert BarOwned(plan, outs', barDep[b].value, b, i, |outs|);
    }
    forall i: nat, d: nat, b: nat | HeldBy(plan, outs', i, d, b)
      ensures Accounted(plan, outs', barDep, i, d, b)
    {
      assert HeldBy(plan, outs, i, d, b);
      AccountedStays(plan, outs, outs', barDep, barDep, i, d, b);
    }
  }

  /** What was accounted for stays so when the outputs before the last keep their place. */
  lemma AccountedStays(plan: Plan, outs: seq<InstrBars>, outs': seq<InstrBars>, barDep: seq<Option<nat>>, barDep': seq<Option<nat>>, i: nat, d: nat, b: nat)
    requires Accounted(plan, outs, barDep, i, d, b) && |outs| <= |outs'| && |barDep'| == NUM_BARS
    requires forall k :: 0 <= k < |outs| ==> outs[k].wait <= outs'[k].wait && (k + 1 < |outs| || |outs| < |outs'| ==> outs'[k] == outs[k])
    requires barDep[b] == Some(d) ==> barDep'[b] == Some(d)
    ensures Accounted(plan, outs', barDep', i, d, b)
  {
    if barDep[b] != Some(d) {
      var k: nat :| WaitsOn(outs, i, b, k) && WaitedAtOrAfter(plan, d, k);
      assert WaitsOn(outs', i, b, k);
    }
  }

  /** The last instruction waits on barrier `b`, which is then free. */
  lemma WaitStep(instrs: seq<Instr>, plan: Plan, outs: seq<InstrBars>, barDep: seq<Option<nat>>, n: nat, lo: nat, b: nat, i: nat)
    requires outs != [] && StateOk(instrs, plan, outs, barDep, n, lo) && n < |outs| && n == |outs| - 1 && lo >= n
    requires b < NUM_BARS && barDep[b].Some? && BarOwned(plan, outs, barDep[b].value, b, i, lo) && i < n
    ensures StateOk(instrs, plan, outs[n := outs[n].(wait := outs[n].wait + {b})], barDep[b := None], n, lo)
  {
    var outs' := outs[n := outs[n].(wait := outs[n].wait + {b})];
    var barDep' := barDep[b := None];
    forall c: nat | c < NUM_BARS && barDep'[c].Some?
      ensures Owned(plan, outs', barDep', c, lo)
    {
      var j :| BarOwned(plan, outs, barDep[c].value, c, j, lo);
      assert BarOwned(plan, outs', barDep'[c].value, c, j, lo);
    }
    forall j: nat, d: nat, c: nat | HeldBy(plan, outs', j, d, c)
      ensures Accounted(plan, outs', barDep', j, d, c)
    {
      assert HeldBy(plan, outs, j, d, c);
      if c == b && barDep[b] == Some(d) {
        SameOwner(instrs, plan, outs, d, i, j, b, b);
        assert WaitsOn(outs', i, b, n) && WaitedAtOrAfter(plan, d, n);
      } else {
        AccountedStays(plan, outs, outs', barDep, barDep', j, d, c);
      }
    }
  }

  /** A dependency belongs to one instruction. */
  lemma SameOwner(instrs: seq<Instr>, plan: Plan, outs: seq<InstrBars>, d: nat, i: nat, j: nat, b: nat, c: nat)
    requires PlanOk(instrs, plan) && HeldBy(plan, outs, i, d, b) && HeldBy(plan, outs, j, d, c)
    ensures i == j && b == c
  {
  }

  /** The instruction being processed, with one more barrier signalled. */
  function Armed(out: InstrBars, write: bool, b: nat): InstrBars {
    if write then out.(wrBar := Some(b)) else out.(rdBar := Some(b))
  }

  /** The last instruction signals dependency `d` on a free barrier. */
  lemma ArmStep(instrs: seq<Instr>, plan: Plan, outs: seq<InstrBars>, barDep: seq<Option<nat>>, n: nat, write: bool, b: nat)
    requires outs != [] && n == |outs| - 1 && StateOk(instrs, plan, outs, barDep, n, n + 1)
    requires b < NUM_BARS && barDep[b] == None && n in plan.instrDeps
    requires if write then outs[n].wrBar == None else outs[n].rdBar == None
    requires FirstWait(plan, if write then plan.instrDeps[n].1 else plan.instrDeps[n].0, n + 1)
    ensures StateOk(instrs, plan, outs[n := Armed(outs[n], write, b)],
                    barDep[b := Some(if write then plan.instrDeps[n].1 else plan.instrDeps[n].0)], n, n + 1)
  {
    var dep := if write then plan.instrDeps[n].1 else plan.instrDeps[n].0;
    var outs', barDep' := outs[n := Armed(outs[n], write, b)], barDep[b := Some(dep)];
    forall c: nat | c < NUM_BARS && barDep'[c].Some?
      ensures Owned(plan, outs', barDep', c, n + 1)
    {
      if c == b {
        assert BarOwned(plan, outs', dep, b, n, n + 1);
      } else {
        var j :| BarOwned(plan, outs, barDep[c].value, c, j, n + 1);
        OwnedStays(plan, outs, outs', barDep[c].value, c, j, n, write, b);
      }
    }
    forall j: nat, d: nat, c: nat | HeldBy(plan, outs', j, d, c)
      ensures Accounted(plan, outs', barDep', j, d, c)
    {
      ArmAccounts(plan, outs, barDep, outs', barDep', n, write, b, dep, j, d, c);
    }
  }

  lemma OwnedStays(plan: Plan, outs: seq<InstrBars>, outs': seq<InstrBars>, d: nat, c: nat, j: nat, n: nat, write: bool, b: nat)
    requires n < |outs| && outs' == outs[n := Armed(outs[n], write, b)] && b != c && BarOwned(plan, outs, d, c, j, n + 1)
    requires if write then outs[n].wrBar == None else outs[n].rdBar == None
    ensures BarOwned(plan, outs', d, c, j, n + 1)
  {
    forall m | j < m < |outs'|
      ensures !outs'[m].Arms(c)
    {
      assert !outs[m].Arms(c);
    }
  }

  lemma ArmAccounts(plan: Plan, outs: seq<InstrBars>, barDep: seq<Option<nat>>, outs': seq<InstrBars>, barDep': seq<Option<nat>>,
                    n: nat, write: bool, b: nat, dep: nat, j: nat, d: nat, c: nat)
    requires |outs| == n + 1 && |barDep| == NUM_BARS && b < NUM_BARS && barDep[b] == None && AllAccounted(plan, outs, barDep)
    requires outs' == outs[n := Armed(outs[n], write, b)] && barDep' == barDep[b := Some(dep)]
    requires n in plan.instrDeps && dep == (if write then plan.instrDeps[n].1 else plan.instrDeps[n].0)
    requires plan.instrDeps[n].0 != plan.instrDeps[n].1
    requires HeldBy(plan, outs', j, d, c)
    ensures Accounted(plan, outs', barDep', j, d, c)
  {
    if j == n && d == dep && c == b {
    } else {
      assert HeldBy(plan, outs, j, d, c);
      if barDep[c] != Some(d) {
        var k: nat :| WaitsOn(outs, j, c, k) && WaitedAtOrAfter(plan, d, k);
        assert WaitsOn(outs', j, c, k);
      }
    }
  }

  // ----- The second pass -----

  /** The current instruction waits for the listed dependencies that still have a barrier. */
  method WaitForListed(instrs: seq<Instr>, ghost plan: Plan, outs0: seq<InstrBars>, bars: BarAlloc, waits: seq<nat>)
    returns (outs: seq<InstrBars>)
    requires bars.Valid() && outs0 != [] && StateOk(instrs, plan, outs0, bars.barDep, |outs0| - 1, |outs0| - 1) && Fresh(outs0)
    requires forall d :: 0 <= d < |plan.deps| && plan.deps[d].firstWait == Some(|outs0| - 1) ==> d in waits
    modifies bars
    ensures bars.Valid() && |outs| == |outs0| && StateOk(instrs, plan, outs, bars.barDep, |outs| - 1, |outs|) && Fresh(outs)
    ensures outs[..|outs| - 1] == outs0[..|outs| - 1]
  {
    hide StateOk;
    outs := outs0;
    ghost var n: nat := |outs0| - 1;
    assert waits[..0] == [];
    for j := 0 to |waits|
      invariant bars.Valid() && |outs| == |outs0| && StateOk(instrs, plan, outs, bars.barDep, n, n) && Fresh(outs)
      invariant outs[..n] == outs0[..n]
      invariant forall b :: 0 <= b < NUM_BARS && bars.barDep[b].Some? ==> bars.barDep[b].value !in waits[..j]
    {
      assert waits[..j + 1] == waits[..j] + [waits[j]];
      UniqueBar(instrs, plan, outs, bars.barDep, n, n, waits[j]);
      var bar := bars.GetBarForDep(waits[j]);
      if bar.Some? {
        outs := WaitOn(instrs, plan, outs, bars, bar.value, n);
      }
    }
    assert waits[..|waits|] == waits;
    WaitsOver(instrs, plan, outs, bars.barDep, n, waits);
  }

  /** The last instruction has not signalled anything yet. */
  predicate Fresh(outs: seq<InstrBars>) {
    outs != [] && outs[|outs| - 1].rdBar == None && outs[|outs| - 1].wrBar == None
  }

  method WaitOn(instrs: seq<Instr>, ghost plan: Plan, outs: seq<InstrBars>, bars: BarAlloc, b: nat, ghost lo: nat) returns (outs': seq<InstrBars>)
    requires bars.Valid() && outs != [] && lo >= |outs| - 1 && StateOk(instrs, plan, outs, bars.barDep, |outs| - 1, lo)
    requires b < NUM_BARS && bars.barDep[b].Some? && !outs[|outs| - 1].Arms(b)
    modifies bars
    ensures bars.Valid() && bars.barDep == old(bars.barDep)[b := None]
    ensures outs' == outs[|outs| - 1 := outs[|outs| - 1].(wait := outs[|outs| - 1].wait + {b})]
    ensures StateOk(instrs, plan, outs', bars.barDep, |outs| - 1, lo)
  {
    OwnerBefore(instrs, plan, outs, bars.barDep, lo, b);
    ghost var i: nat :| BarOwned(plan, outs, bars.barDep[b].value, b, i, lo) && i < |outs| - 1;
    WaitStep(instrs, plan, outs, bars.barDep, |outs| - 1, lo, b, i);
    bars.FreeBar(b);
    outs' := outs[|outs| - 1 := outs[|outs| - 1].(wait := outs[|outs| - 1].wait + {b})];
  }

  lemma OwnerBefore(instrs: seq<Instr>, plan: Plan, outs: seq<InstrBars>, barDep: seq<Option<nat>>, lo: nat, b: nat)
    requires outs != [] && StateOk(instrs, plan, outs, barDep, |outs| - 1, lo) && b < NUM_BARS && barDep[b].Some? && !outs[|outs| - 1].Arms(b)
    ensures exists i: nat :: BarOwned(plan, outs, barDep[b].value, b, i, lo) && i < |outs| - 1
  {
    var i :| BarOwned(plan, outs, barDep[b].value, b, i, lo);
  }

  lemma UniqueBar(instrs: seq<Instr>, plan: Plan, outs: seq<InstrBars>, barDep: seq<Option<nat>>, n: nat, lo: nat, d: nat)
    requires StateOk(instrs, plan, outs, barDep, n, lo)
    ensures forall b: nat, c: nat :: b < NUM_BARS && c < NUM_BARS && barDep[b] == Some(d) && barDep[c] == Some(d) ==> b == c
  {
    forall b: nat, c: nat | b < NUM_BARS && c < NUM_BARS && barDep[b] == Some(d) && barDep[c] == Some(d)
      ensures b == c
    {
      var i :| BarOwned(plan, outs, d, b, i, lo);
      var j :| BarOwned(plan, outs, d, c, j, lo);
      SameOwner(instrs, plan, outs, d, i, j, b, c);
    }
  }

  /** Once the listed dependencies have been waited for, the remaining waits are still to come. */
  lemma WaitsOver(instrs: seq<Instr>, plan: Plan, outs: seq<InstrBars>, barDep: seq<Option<nat>>, n: nat, waits: seq<nat>)
    requires StateOk(instrs, plan, outs, barDep, n, n)
    requires forall d :: 0 <= d < |plan.deps| && plan.deps[d].firstWait == Some(n) ==> d in waits
    requires forall b :: 0 <= b < NUM_BARS && barDep[b].Some? ==> barDep[b].value !in waits
    ensures StateOk(instrs, plan, outs, barDep, n, n + 1)
  {
    forall b: nat | b < NUM_BARS && barDep[b].Some?
      ensures Owned(plan, outs, barDep, b, n + 1)
    {
      var i :| BarOwned(plan, outs, barDep[b].value, b, i, n);
      assert BarOwned(plan, outs, barDep[b].value, b, i, n + 1);
    }
  }

  /** Waits for the oldest outstanding dependency when no barrier is free. */
  method FindBar(instrs: seq<Instr>, ghost plan: Plan, outs0: seq<InstrBars>, bars: BarAlloc, ghost own: nat) returns (outs: seq<InstrBars>, bar: nat)
    requires bars.Valid() && outs0 != [] && StateOk(instrs, plan, outs0, bars.barDep, |outs0| - 1, |outs0|)
    requires |outs0| - 1 in plan.instrDeps && outs0[|outs0| - 1].wrBar == None
    modifies bars
    ensures bars.Valid() && bar < NUM_BARS && bars.barDep[bar] == None
    ensures SameSignals(outs0, outs) && StateOk(instrs, plan, outs, bars.barDep, |outs| - 1, |outs|)
  {
    hide StateOk;
    var free := bars.TryFindFreeBar();
    if free.Some? {
      return outs0, free.value;
    }
    ghost var n: nat := |outs0| - 1;
    ghost var before := bars.barDep;
    bar := bars.OldestBar();
    OldestIsEarlier(instrs, plan, outs0, before, n, bar);
    outs := WaitOn(instrs, plan, outs0, bars, bar, |outs0|);
  }

  /** The outputs differ at most in what the last instruction waits on. */
  ghost predicate SameSignals(outs0: seq<InstrBars>, outs: seq<InstrBars>) {
    && outs0 != [] && |outs| == |outs0| && outs[..|outs| - 1] == outs0[..|outs| - 1]
    && outs[|outs| - 1].rdBar == outs0[|outs| - 1].rdBar && outs[|outs| - 1].wrBar == outs0[|outs| - 1].wrBar
  }

  /** The barrier of the oldest dependency is not one that the current instruction has just taken. */
  lemma OldestIsEarlier(instrs: seq<Instr>, plan: Plan, outs: seq<InstrBars>, barDep: seq<Option<nat>>, n: nat, bar: nat)
    requires |outs| == n + 1 && StateOk(instrs, plan, outs, barDep, n, n + 1) && n in plan.instrDeps && outs[n].wrBar == None
    requires bar < NUM_BARS && forall b :: 0 <= b < NUM_BARS ==> barDep[b].Some? && barDep[bar].Some? && barDep[bar].value <= barDep[b].value
    ensures barDep[bar].Some? && !outs[n].Arms(bar)
  {
    EarlierDeps(instrs, plan, outs, barDep, n);
    if outs[n].rdBar.Some? {
      var b := outs[n].rdBar.value;
      assert HeldBy(plan, outs, n, plan.instrDeps[n].0, b) && Accounted(plan, outs, barDep, n, plan.instrDeps[n].0, b);
    }
  }

  /** One of the first two barriers belongs to an earlier instruction. */
  lemma EarlierDeps(instrs: seq<Instr>, plan: Plan, outs: seq<InstrBars>, barDep: seq<Option<nat>>, n: nat)
    requires |outs| == n + 1 && StateOk(instrs, plan, outs, barDep, n, n + 1) && n in plan.instrDeps && outs[n].wrBar == None
    requires forall b :: 0 <= b < NUM_BARS ==> barDep[b].Some?
    ensures barDep[0].value < plan.instrDeps[n].0 || barDep[1].value < plan.instrDeps[n].0
  {
    var i :| BarOwned(plan, outs, barDep[0].value, 0, i, n + 1);
    var j :| BarOwned(plan, outs, barDep[1].value, 1, j, n + 1);
  }

  /** Signals one dependency of the last instruction on a barrier of its own. */
  method Arm(instrs: seq<Instr>, plan: Plan, outs0: seq<InstrBars>, bars: BarAlloc, write: bool) returns (outs: seq<InstrBars>)
    requires bars.Valid() && outs0 != [] && StateOk(instrs, plan, outs0, bars.barDep, |outs0| - 1, |outs0|)
    requires |outs0| - 1 in plan.instrDeps && outs0[|outs0| - 1].wrBar == None && (!write ==> outs0[|outs0| - 1].rdBar == None)
    modifies bars
    ensures bars.Valid() && |outs| == |outs0| && StateOk(instrs, plan, outs, bars.barDep, |outs| - 1, |outs|)
    ensures outs[..|outs| - 1] == outs0[..|outs| - 1]
    ensures write ==> outs[|outs| - 1].rdBar == outs0[|outs| - 1].rdBar
    ensures write && outs[|outs| - 1].wrBar.Some? ==> outs[|outs| - 1].rdBar != outs[|outs| - 1].wrBar
    ensures var out := outs[|outs| - 1];
            if write then out.wrBar.Some? <==> WaitedAfter(plan, plan.instrDeps[|outs| - 1].1, |outs| - 1)
            else out.wrBar == None && (out.rdBar.Some? <==> WaitedAfter(plan, plan.instrDeps[|outs| - 1].0, |outs| - 1))
  {
    hide StateOk, BarsOwned, AllAccounted, SignalsWhatIsNeeded, PlanOk;
    var n: nat := |outs0| - 1;
    var dep := if write then plan.instrDeps[n].1 else plan.instrDeps[n].0;
    outs := outs0;
    if WaitedAfter(plan, dep, n) {
      var bar;
      outs, bar := FindBar(instrs, plan, outs0, bars, dep);
      OwnBarInUse(instrs, plan, outs, bars.barDep, n);
      ArmStep(instrs, plan, outs, bars.barDep, n, write, bar);
      bars.SetBarDep(bar, dep);
      outs := outs[n := Armed(outs[n], write, bar)];
    }
  }

  lemma OwnBarInUse(instrs: seq<Instr>, plan: Plan, outs: seq<InstrBars>, barDep: seq<Option<nat>>, n: nat)
    requires |outs| == n + 1 && StateOk(instrs, plan, outs, barDep, n, n + 1) && n in plan.instrDeps
    ensures |barDep| == NUM_BARS && (outs[n].rdBar.Some? ==> outs[n].rdBar.value < NUM_BARS && barDep[outs[n].rdBar.value].Some?)
  {
    if outs[n].rdBar.Some? {
      assert HeldBy(plan, outs, n, plan.instrDeps[n].0, outs[n].rdBar.value);
    }
  }

  lemma NextSignals(instrs: seq<Instr>, plan: Plan, outs: seq<InstrBars>, barDep: seq<Option<nat>>, n: nat)
    requires |outs| == n + 1 && StateOk(instrs, plan, outs, barDep, n, n + 1) && SignalsNeeded(plan, outs[n], n)
    ensures StateOk(instrs, plan, outs, barDep, n + 1, n + 1)
  {
    hide SignalsNeeded;
  }

  /** The second pass over one instruction. */
  method VisitInstr(instrs: seq<Instr>, plan: Plan, outs0: seq<InstrBars>, bars: BarAlloc, waits: seq<nat>) returns (outs: seq<InstrBars>)
    requires bars.Valid() && |outs0| < |instrs| && StateOk(instrs, plan, outs0, bars.barDep, |outs0|, |outs0|)
    requires forall d :: 0 <= d < |plan.deps| && plan.deps[d].firstWait == Some(|outs0|) ==> d in waits
    modifies bars
    ensures bars.Valid() && |outs| == |outs0| + 1 && StateOk(instrs, plan, outs, bars.barDep, |outs|, |outs|) && outs0 <= outs
  {
    hide StateOk;
    var n := |outs0|;
    NextInstr(instrs, plan, outs0, bars.barDep);
    outs := WaitForListed(instrs, plan, outs0 + [NOTHING], bars, waits);
    ghost var scoreboarded := KnownDeps(instrs, plan, outs, bars.barDep, n);
    if instrs[n].scoreboarded {
      outs := Arm(instrs, plan, outs, bars, false);
      outs := Arm(instrs, plan, outs, bars, true);
    }
    NextSignals(instrs, plan, outs, bars.barDep, n);
  }

  lemma KnownDeps(instrs: seq<Instr>, plan: Plan, outs: seq<InstrBars>, barDep: seq<Option<nat>>, n: nat) returns (known: bool)
    requires n < |instrs| && StateOk(instrs, plan, outs, barDep, n, n + 1)
    ensures known == instrs[n].scoreboarded && (n in plan.instrDeps <==> known)
  {
    known := instrs[n].scoreboarded;
  }

  /** The second pass. */
  method AssignBars(instrs: seq<Instr>, g: DepGraph, ghost uses: Uses) returns (outs: seq<InstrBars>, ghost plan: Plan)
    requires GraphAt(instrs, g, uses, |instrs|)
    ensures plan == Plan(g.deps, g.instrDeps) && |outs| == |instrs| && AllDone(instrs, plan, outs)
  {
    hide StateOk, PassOk, NodesOk, ActiveOk;
    var bars := new BarAlloc();
    outs := [];
    var thePlan := Plan(g.deps, g.instrDeps);
    plan := thePlan;
    StartOk(instrs, plan, g, uses, bars.barDep);
    for n := 0 to |instrs|
      invariant bars.Valid() && fresh(bars) && |outs| == n && StateOk(instrs, thePlan, outs, bars.barDep, n, n)
    {
      var waits := if n in g.instrWaits then g.instrWaits[n] else [];
      outs := VisitInstr(instrs, thePlan, outs, bars, waits);
    }
    EndOk(instrs, plan, outs, bars.barDep);
  }

  lemma StartOk(instrs: seq<Instr>, plan: Plan, g: DepGraph, uses: Uses, barDep: seq<Option<nat>>)
    requires GraphAt(instrs, g, uses, |instrs|) && plan == Plan(g.deps, g.instrDeps)
    requires |barDep| == NUM_BARS && forall b :: 0 <= b < NUM_BARS ==> barDep[b] == None
    ensures StateOk(instrs, plan, [], barDep, 0, 0)
  {
  }

  /** Every signal comes in time: a barrier is signalled by one instruction, and whoever first needs the
      signal, or somebody before, waits on the barrier while it still belongs to that instruction. */
  ghost predicate AllDone(instrs: seq<Instr>, plan: Plan, outs: seq<InstrBars>) {
    && PlanOk(instrs, plan) && SignalsWhatIsNeeded(plan, outs, |instrs|)
    && forall i, d, b {:trigger HeldBy(plan, outs, i, d, b)} :: HeldBy(plan, outs, i, d, b) ==> InTime(plan, outs, i, d, b)
  }

  ghost predicate InTime(plan: Plan, outs: seq<InstrBars>, i: nat, d: nat, b: nat) {
    b < NUM_BARS && exists k: nat :: WaitsOn(outs, i, b, k) && WaitedAtOrAfter(plan, d, k)
  }

  lemma EndOk(instrs: seq<Instr>, plan: Plan, outs: seq<InstrBars>, barDep: seq<Option<nat>>)
    requires StateOk(instrs, plan, outs, barDep, |instrs|, |instrs|)
    ensures AllDone(instrs, plan, outs)
  {
    hide PlanOk, SignalsWhatIsNeeded;
    NothingPending(instrs, plan, outs, barDep);
    forall i: nat, d: nat, b: nat | HeldBy(plan, outs, i, d, b)
      ensures InTime(plan, outs, i, d, b)
    {
      assert Accounted(plan, outs, barDep, i, d, b);
    }
  }

  lemma NothingPending(instrs: seq<Instr>, plan: Plan, outs: seq<InstrBars>, barDep: seq<Option<nat>>)
    requires StateOk(instrs, plan, outs, barDep, |instrs|, |instrs|)
    ensures |barDep| == NUM_BARS && forall b :: 0 <= b < NUM_BARS ==> barDep[b] == None
  {
  }

  // ----- What the barriers guarantee -----

  /** Somebody after `i` and not after `j` waits on barrier `b` while it belongs to `i`. */
  ghost predicate WaitedBetween(outs: seq<InstrBars>, i: nat, b: nat, j: nat) {
    exists k: nat :: WaitsOn(outs, i, b, k) && k <= j
  }

  /** The results of `i` are there when `j` starts. */
  ghost predicate WritesDone(outs: seq<InstrBars>, i: nat, j: nat) {
    i < |outs| && outs[i].wrBar.Some? && WaitedBetween(outs, i, outs[i].wrBar.value, j)
  }

  /** The sources of `i` have been read when `j` starts. */
  ghost predicate ReadsDone(outs: seq<InstrBars>, i: nat, j: nat) {
    WritesDone(outs, i, j) || (i < |outs| && outs[i].rdBar.Some? && WaitedBetween(outs, i, outs[i].rdBar.value, j))
  }

  /** An instruction that touches a register waits for whoever writes it, and one that writes a register
      waits for whoever reads it; a branch waits for all. */
  ghost predicate HazardFree(instrs: seq<Instr>, outs: seq<InstrBars>) {
    forall i, j {:trigger instrs[i], instrs[j]} :: 0 <= i < j < |instrs| && instrs[i].scoreboarded ==> Separated(instrs[i], instrs[j], outs, i, j)
  }

  ghost predicate Separated(one: Instr, other: Instr, outs: seq<InstrBars>, i: nat, j: nat) {
    && (forall r :: one.Writes(r) && other.Touches(r) ==> WritesDone(outs, i, j))
    && (forall r :: r in one.srcs && other.Writes(r) ==> ReadsDone(outs, i, j))
    && (other.isBranch && one.dsts != [] ==> WritesDone(outs, i, j))
    && (other.isBranch && one.srcs != [] ==> ReadsDone(outs, i, j))
  }

  /** A barrier that has been signalled is signalled again only after a wait, only by the instructions
      that need one, and there are six of them. */
  ghost predicate BarriersKept(instrs: seq<Instr>, outs: seq<InstrBars>) {
    forall i, b: nat {:trigger outs[i].Arms(b)} :: 0 <= i < |outs| && outs[i].Arms(b) ==>
      && b < NUM_BARS && i < |instrs| && instrs[i].scoreboarded && outs[i].rdBar != outs[i].wrBar
      && (exists k: nat :: WaitsOn(outs, i, b, k))
      && forall m :: i < m < |outs| && outs[m].Arms(b) ==> WaitedBetween(outs, i, b, m)
  }

  lemma DoneInTime(plan: Plan, outs: seq<InstrBars>, i: nat, d: nat, b: nat, j: nat)
    requires InTime(plan, outs, i, d, b) && WaitedBy(plan.deps, d, j)
    ensures WaitedBetween(outs, i, b, j)
  {
    var k: nat :| WaitsOn(outs, i, b, k) && WaitedAtOrAfter(plan, d, k);
    assert WaitsOn(outs, i, b, k) && k <= j;
  }

  /** A write that is waited for at `j` has a barrier, and that is waited on by then. */
  lemma WriteDone(instrs: seq<Instr>, plan: Plan, outs: seq<InstrBars>, i: nat, j: nat)
    requires AllDone(instrs, plan, outs) && i in plan.instrDeps && WaitedBy(plan.deps, plan.instrDeps[i].1, j)
    ensures WritesDone(outs, i, j)
  {
    assert SignalsNeeded(plan, outs[i], i);
    var d, b := plan.instrDeps[i].1, outs[i].wrBar.value;
    assert HeldBy(plan, outs, i, d, b);
    DoneInTime(plan, outs, i, d, b, j);
  }

  lemma ReadDone(instrs: seq<Instr>, plan: Plan, outs: seq<InstrBars>, i: nat, j: nat)
    requires AllDone(instrs, plan, outs) && NodesOk(plan.deps) && i in plan.instrDeps && SettledBy(plan.deps, plan.instrDeps[i].0, j)
    ensures ReadsDone(outs, i, j)
  {
    var d := plan.instrDeps[i].0;
    if WaitedBy(plan.deps, d, j) {
      assert SignalsNeeded(plan, outs[i], i);
      assert HeldBy(plan, outs, i, d, outs[i].rdBar.value);
      DoneInTime(plan, outs, i, d, outs[i].rdBar.value, j);
    } else {
      WriteDone(instrs, plan, outs, i, j);
    }
  }

  lemma ArePairsSeparated(instrs: seq<Instr>, plan: Plan, active: set<nat>, uses: Uses, outs: seq<InstrBars>, i: nat, j: nat)
    requires PassOk(instrs, plan.deps, active, plan.instrDeps, uses, |instrs|) && AllDone(instrs, plan, outs)
    requires i < j < |instrs| && instrs[i].scoreboarded
    ensures Separated(instrs[i], instrs[j], outs, i, j)
  {
    hide AllDone, ActiveOk, WaitedBy, SettledBy, WritesDone, ReadsDone, AllSignalled, WaitsLater;
    assert i in plan.instrDeps;
    var rd, wr := plan.instrDeps[i].0, plan.instrDeps[i].1;
    if WaitedBy(plan.deps, wr, j) {
      WriteDone(instrs, plan, outs, i, j);
    }
    if SettledBy(plan.deps, rd, j) {
      ReadDone(instrs, plan, outs, i, j);
    }
    forall r | instrs[i].Writes(r) && instrs[j].Touches(r)
      ensures WritesDone(outs, i, j)
    {
      assert WriteTracked(instrs, plan.deps, wr, Use(uses, r), i, r, |instrs|);
    }
    forall r | r in instrs[i].srcs && instrs[j].Writes(r)
      ensures ReadsDone(outs, i, j)
    {
      if instrs[i].Writes(r) {
        assert WriteTracked(instrs, plan.deps, wr, Use(uses, r), i, r, |instrs|);
        WritesCoverReads(outs, i, j);
      } else {
        assert ReadTracked(instrs, plan.deps, rd, Use(uses, r), i, r, |instrs|);
      }
    }
  }

  lemma WritesCoverReads(outs: seq<InstrBars>, i: nat, j: nat)
    ensures WritesDone(outs, i, j) ==> ReadsDone(outs, i, j)
  {
  }

  lemma AreBarriersKept(instrs: seq<Instr>, plan: Plan, outs: seq<InstrBars>)
    requires AllDone(instrs, plan, outs) && |outs| == |instrs|
    ensures BarriersKept(instrs, outs)
  {
    forall i, b: nat | 0 <= i < |outs| && outs[i].Arms(b)
      ensures b < NUM_BARS && instrs[i].scoreboarded && outs[i].rdBar != outs[i].wrBar && exists k: nat :: WaitsOn(outs, i, b, k)
      ensures forall m :: i < m < |outs| && outs[m].Arms(b) ==> WaitedBetween(outs, i, b, m)
    {
      assert SignalsNeeded(plan, outs[i], i);
      var d := if outs[i].rdBar == Some(b) then plan.instrDeps[i].0 else plan.instrDeps[i].1;
      assert HeldBy(plan, outs, i, d, b);
      var k: nat :| WaitsOn(outs, i, b, k) && WaitedAtOrAfter(plan, d, k);
    }
  }

  /** Both passes: dependencies are found and barriers assigned. */
  method AssignBarriers(instrs: seq<Instr>) returns (outs: seq<InstrBars>)
    requires ProgramOk(instrs)
    ensures |outs| == |instrs| && HazardFree(instrs, outs) && BarriersKept(instrs, outs)
  {
    hide PassOk, AllDone, BarriersKept, Separated;
    var g := CollectDeps(instrs);
    ghost var uses :| GraphAt(instrs, g, uses, |instrs|);
    ghost var plan;
    outs, plan := AssignBars(instrs, g, uses);
    AreBarriersKept(instrs, plan, outs);
    forall i, j | 0 <= i < j < |instrs| && instrs[i].scoreboarded
      ensures Separated(instrs[i], instrs[j], outs, i, j)
    {
      ArePairsSeparated(instrs, plan, g.active, uses, outs, i, j);
    }
  }

  // ----- Executions -----

  /** The instructions in the order of one execution: straight on, except after a branch. */
  ghost predicate IsTrace(instrs: seq<Instr>, t: seq<nat>) {
    && (forall a :: 0 <= a < |t| ==> t[a] < |instrs|)
    && forall a :: 0 <= a < |t| - 1 && !instrs[t[a]].isBranch ==> StraightOn(t, a)
  }

  ghost predicate StraightOn(t: seq<nat>, a: nat)
    requires a < |t| - 1
  {
    t[a + 1] == t[a] + 1
  }

  /** Until the first branch an execution follows the layout. */
  lemma {:induction false} Straight(instrs: seq<Instr>, t: seq<nat>, a: nat, c: nat)
    requires IsTrace(instrs, t) && a <= c < |t| && forall m :: a <= m < c ==> !instrs[t[m]].isBranch
    ensures forall m :: a <= m <= c ==> t[m] == t[a] + (m - a)
    decreases c
  {
    if a < c {
      Straight(instrs, t, a, c - 1);
      assert StraightOn(t, c - 1);
    }
  }

  /** Between position `a` and position `c` of an execution somebody waits on barrier `b`, and until then
      nobody else signals it. */
  ghost predicate WaitedInTrace(outs: seq<InstrBars>, t: seq<nat>, a: nat, b: nat, c: nat) {
    exists m :: a < m <= c < |t| && t[m] < |outs| && b in outs[t[m]].wait && forall l :: a < l < m ==> t[l] < |outs| && !outs[t[l]].Arms(b)
  }

  lemma WaitedOnTheWay(instrs: seq<Instr>, outs: seq<InstrBars>, t: seq<nat>, a: nat, b: nat, c: nat, e: nat)
    requires IsTrace(instrs, t) && |outs| == |instrs| && a < c <= e < |t|
    requires forall m :: a <= m < c ==> !instrs[t[m]].isBranch
    requires WaitedBetween(outs, t[a], b, t[c])
    ensures WaitedInTrace(outs, t, a, b, e)
  {
    Straight(instrs, t, a, c);
    var k: nat :| WaitsOn(outs, t[a], b, k) && k <= t[c];
    var m := a + (k - t[a]);
    assert t[m] == k;
    forall l | a < l < m
      ensures t[l] < |outs| && !outs[t[l]].Arms(b)
    {
      assert t[l] == t[a] + (l - a);
    }
  }

  /** On every execution, whichever way the branches go: the results of a scoreboarded instruction have
      been waited for when a register of them is touched, and its sources when one is overwritten. */
  lemma EveryExecutionWaits(instrs: seq<Instr>, outs: seq<InstrBars>, t: seq<nat>, a: nat, c: nat, r: Reg)
    requires ProgramOk(instrs) && |outs| == |instrs| && HazardFree(instrs, outs) && IsTrace(instrs, t)
    requires a < c < |t| && instrs[t[a]].scoreboarded
    ensures instrs[t[a]].Writes(r) && instrs[t[c]].Touches(r) ==>
              outs[t[a]].wrBar.Some? && WaitedInTrace(outs, t, a, outs[t[a]].wrBar.value, c)
    ensures r in instrs[t[a]].srcs && instrs[t[c]].Writes(r) ==>
              || (outs[t[a]].wrBar.Some? && WaitedInTrace(outs, t, a, outs[t[a]].wrBar.value, c))
              || (outs[t[a]].rdBar.Some? && WaitedInTrace(outs, t, a, outs[t[a]].rdBar.value, c))
  {
    hide WaitedInTrace, WaitedBetween;
    var i := t[a];
    var m := FirstBranch(instrs, t, a, c);
    Straight(instrs, t, a, m);
    var j := t[m];
    assert Separated(instrs[i], instrs[j], outs, i, j);
    if outs[i].wrBar.Some? && WaitedBetween(outs, i, outs[i].wrBar.value, j) {
      WaitedOnTheWay(instrs, outs, t, a, outs[i].wrBar.value, m, c);
    }
    if outs[i].rdBar.Some? && WaitedBetween(outs, i, outs[i].rdBar.value, j) {
      WaitedOnTheWay(instrs, outs, t, a, outs[i].rdBar.value, m, c);
    }
  }

  /** The first branch after `a`, or `c` when there is none before it. */
  lemma FirstBranch(instrs: seq<Instr>, t: seq<nat>, a: nat, c: nat) returns (m: nat)
    requires IsTrace(instrs, t) && ProgramOk(instrs) && a < c < |t| && instrs[t[a]].scoreboarded
    ensures a < m <= c && (m < c ==> instrs[t[m]].isBranch) && forall l :: a <= l < m ==> !instrs[t[l]].isBranch
  {
    m := a + 1;
    while m < c && !instrs[t[m]].isBranch
      invariant a < m <= c && forall l :: a <= l < m ==> !instrs[t[l]].isBranch
    {
      m := m + 1;
    }
  }
}
