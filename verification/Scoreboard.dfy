/** Which accesses have to be waited for (crates/deko-nak/src/calc_instr_deps.rs).

    Instructions are numbered in layout order, across blocks.  A jump leaves a block only through a
    branch, and a branch waits for everything that is outstanding. */
module Scoreboard {
  import opened Machine

  /** An instruction: the registers of its guard, its sources and its destinations, component by
      component, without barrier registers, which the hardware tracks itself. */
  datatype Instr = Instr(isBranch: bool, scoreboarded: bool, preds: seq<Reg>, srcs: seq<Reg>, dsts: seq<Reg>)
  {
    ghost predicate Valid() {
      && (isBranch ==> !scoreboarded)
      && forall i, j :: 0 <= i < j < |dsts| ==> dsts[i] != dsts[j]
    }

    predicate Writes(r: Reg) {
      r in dsts
    }

    predicate Touches(r: Reg) {
      r in preds || r in srcs || r in dsts
    }
  }

  // ----- The last use of a register -----

  datatype RegUse = NoUse | Write(dep: nat) | Reads(deps: seq<nat>)
  {
    function Deps(): seq<nat> {
      match this
      case NoUse => []
      case Write(d) => [d]
      case Reads(ds) => ds
    }

    /** The new use, and what was taken out. */
    function Clear(): (RegUse, RegUse) {
      (NoUse, this)
    }

    function ClearWrite(): (RegUse, RegUse) {
      if Write? then (NoUse, this) else (this, NoUse)
    }

    function AddRead(d: nat): (RegUse, RegUse) {
      match this
      case NoUse => (Reads([d]), NoUse)
      case Write(_) => (Reads([d]), this)
      case Reads(ds) => (Reads(ds + [d]), NoUse)
    }

    function SetWrite(d: nat): (RegUse, RegUse) {
      (Write(d), this)
    }
  }

  type Uses = map<Reg, RegUse>

  function Use(uses: Uses, r: Reg): RegUse {
    if r in uses then uses[r] else NoUse
  }

  ghost predicate Covered(waits: seq<nat>, deps: seq<nat>) {
    forall d :: d in deps ==> d in waits
  }

  /** All dependencies in `waits` come from the uses or from `waits0`. */
  ghost predicate FromUses(uses: Uses, waits0: seq<nat>, waits: seq<nat>) {
    forall d :: d in waits ==> d in waits0 || exists r :: d in Use(uses, r).Deps()
  }

  /** Reads that wait for a pending write: of the first `n` registers, those with a write are cleared. */
  ghost predicate WritesCleared(u0: Uses, u: Uses, waits: seq<nat>, regs: seq<Reg>) {
    forall r ::
      if r in regs && Use(u0, r).Write? then Use(u, r) == NoUse && Use(u0, r).dep in waits else Use(u, r) == Use(u0, r)
  }

  /** Reads without scoreboard, and guards: take out pending writes and wait for them. */
  method ClearWrites(regs: seq<Reg>, u0: Uses, waits0: seq<nat>) returns (u: Uses, waits: seq<nat>)
    ensures WritesCleared(u0, u, waits, regs) && waits0 <= waits && FromUses(u0, waits0, waits)
  {
    u, waits := u0, waits0;
    assert regs[..0] == [];
    for n := 0 to |regs|
      invariant WritesCleared(u0, u, waits, regs[..n]) && waits0 <= waits && FromUses(u0, waits0, waits)
    {
      assert regs[..n + 1] == regs[..n] + [regs[n]];
      var (next, taken) := Use(u, regs[n]).ClearWrite();
      u := u[regs[n] := next];
      waits := waits + taken.Deps();
    }
    assert regs[..|regs|] == regs;
  }

  ghost predicate AllCleared(u0: Uses, u: Uses, waits: seq<nat>, regs: seq<Reg>) {
    forall r :: if r in regs then Use(u, r) == NoUse && Covered(waits, Use(u0, r).Deps()) else Use(u, r) == Use(u0, r)
  }

  /** Writes without scoreboard: take out all uses and wait for them. */
  method ClearAll(regs: seq<Reg>, u0: Uses, waits0: seq<nat>) returns (u: Uses, waits: seq<nat>)
    ensures AllCleared(u0, u, waits, regs) && waits0 <= waits && FromUses(u0, waits0, waits)
  {
    u, waits := u0, waits0;
    assert regs[..0] == [];
    for n := 0 to |regs|
      invariant AllCleared(u0, u, waits, regs[..n]) && waits0 <= waits && FromUses(u0, waits0, waits)
    {
      assert regs[..n + 1] == regs[..n] + [regs[n]];
      var (next, taken) := Use(u, regs[n]).Clear();
      u := u[regs[n] := next];
      waits := waits + taken.Deps();
    }
    assert regs[..|regs|] == regs;
  }

  /** A register that has been read: its earlier reads stay, a pending write is waited for. */
  ghost predicate ReadAdded(before: RegUse, after: RegUse, waits: seq<nat>, rd: nat) {
    && after.Reads? && rd in after.deps
    && (before.Reads? ==> forall d :: d in before.deps ==> d in after.deps)
    && (before.Write? ==> before.dep in waits)
    && (forall d :: d in after.deps ==> d == rd || (before.Reads? && d in before.deps))
  }

  ghost predicate ReadsAdded(u0: Uses, u: Uses, waits: seq<nat>, regs: seq<Reg>, rd: nat) {
    forall r :: if r in regs then ReadAdded(Use(u0, r), Use(u, r), waits, rd) else Use(u, r) == Use(u0, r)
  }

  lemma ReadAgain(before: RegUse, after: RegUse, waits: seq<nat>, rd: nat, more: seq<nat>)
    requires before == after || ReadAdded(before, after, waits, rd)
    requires more == waits + after.AddRead(rd).1.Deps()
    ensures ReadAdded(before, after.AddRead(rd).0, more, rd)
  {
  }

  /** Reads with scoreboard. */
  method AddReads(regs: seq<Reg>, rd: nat, u0: Uses, waits0: seq<nat>) returns (u: Uses, waits: seq<nat>)
    ensures ReadsAdded(u0, u, waits, regs, rd) && waits0 <= waits && FromUses(u0, waits0, waits)
  {
    u, waits := u0, waits0;
    assert regs[..0] == [];
    for n := 0 to |regs|
      invariant ReadsAdded(u0, u, waits, regs[..n], rd) && waits0 <= waits && FromUses(u0, waits0, waits)
    {
      assert regs[..n + 1] == regs[..n] + [regs[n]];
      var (next, taken) := Use(u, regs[n]).AddRead(rd);
      ReadAgain(Use(u0, regs[n]), Use(u, regs[n]), waits, rd, waits + taken.Deps());
      u := u[regs[n] := next];
      waits := waits + taken.Deps();
    }
    assert regs[..|regs|] == regs;
  }

  ghost predicate WritesSet(u0: Uses, u: Uses, waits: seq<nat>, regs: seq<Reg>, rd: nat, wr: nat) {
    forall r ::
      if r in regs then Use(u, r) == Write(wr) && forall d :: d in Use(u0, r).Deps() && d != rd ==> d in waits
      else Use(u, r) == Use(u0, r)
  }

  /** All of `deps` but `rd`. */
  function Others(deps: seq<nat>, rd: nat): (s: seq<nat>)
    ensures forall d :: d in s <==> d in deps && d != rd
  {
    if deps == [] then [] else (if deps[0] != rd then [deps[0]] else []) + Others(deps[1..], rd)
  }

  /** Writes with scoreboard: wait for all earlier uses except the instruction's own reads. */
  method SetWrites(regs: seq<Reg>, rd: nat, wr: nat, u0: Uses, waits0: seq<nat>) returns (u: Uses, waits: seq<nat>)
    requires forall i, j :: 0 <= i < j < |regs| ==> regs[i] != regs[j]
    ensures WritesSet(u0, u, waits, regs, rd, wr) && waits0 <= waits
    ensures forall d :: d in waits ==> d in waits0 || (d != rd && exists r :: d in Use(u0, r).Deps())
  {
    u, waits := u0, waits0;
    assert regs[..0] == [];
    for n := 0 to |regs|
      invariant WritesSet(u0, u, waits, regs[..n], rd, wr) && waits0 <= waits
      invariant forall d :: d in waits ==> d in waits0 || (d != rd && exists r :: d in Use(u0, r).Deps())
    {
      assert regs[..n + 1] == regs[..n] + [regs[n]] && regs[n] !in regs[..n];
      var (next, taken) := Use(u, regs[n]).SetWrite(wr);
      u := u[regs[n] := next];
      waits := waits + Others(taken.Deps(), rd);
    }
    assert regs[..|regs|] == regs;
  }

  // ----- One instruction -----

  /** What an instruction does to the last use of one register. */
  ghost predicate EffectOn(instr: Instr, r: Reg, before: RegUse, after: RegUse, waits: seq<nat>, rd: nat, wr: nat) {
    && (instr.Touches(r) && before.Write? ==> before.dep in waits)
    && (instr.Writes(r) && before.Reads? ==> forall d :: d in before.deps ==> d in waits)
    && (!instr.Touches(r) ==> after == before)
    && (!instr.Writes(r) && before.Reads? ==> after.Reads? && forall d :: d in before.deps ==> d in after.deps)
    && (instr.scoreboarded && instr.Writes(r) ==> after == Write(wr))
    && (instr.scoreboarded && r in instr.srcs && !instr.Writes(r) ==> after.Reads? && rd in after.deps)
    && (forall d :: d in after.Deps() ==>
          d in before.Deps() || (instr.scoreboarded && ((d == rd && r in instr.srcs) || (d == wr && r in instr.dsts))))
  }

  ghost predicate Effect(instr: Instr, u0: Uses, u: Uses, waits: seq<nat>, rd: nat, wr: nat) {
    && (forall r :: EffectOn(instr, r, Use(u0, r), Use(u, r), waits, rd, wr))
    && (forall d :: d in waits ==> IsUse(u0, d))
  }

  ghost predicate IsUse(u: Uses, d: nat) {
    exists r :: d in Use(u, r).Deps()
  }

  /** The uses after an instruction, and what it has to wait for. */
  method VisitInstr(instr: Instr, u0: Uses, rd: nat, wr: nat) returns (u: Uses, waits: seq<nat>)
    requires instr.Valid() && !IsUse(u0, rd) && !IsUse(u0, wr)
    ensures Effect(instr, u0, u, waits, rd, wr)
  {
    var u1, w1 := ClearWrites(instr.preds, u0, []);
    if instr.scoreboarded {
      var u2, w2 := AddReads(instr.srcs, rd, u1, w1);
      u, waits := SetWrites(instr.dsts, rd, wr, u2, w2);
      ScoreboardedEffect(instr, u0, u1, u2, u, w1, w2, waits, rd, wr);
    } else {
      var u2, w2 := ClearWrites(instr.srcs, u1, w1);
      u, waits := ClearAll(instr.dsts, u2, w2);
      FixedEffect(instr, u0, u1, u2, u, w1, w2, waits, rd, wr);
    }
  }

  lemma ScoreboardedEffect(instr: Instr, u0: Uses, u1: Uses, u2: Uses, u: Uses, w1: seq<nat>, w2: seq<nat>, waits: seq<nat>, rd: nat, wr: nat)
    requires instr.scoreboarded && !IsUse(u0, rd) && !IsUse(u0, wr)
    requires WritesCleared(u0, u1, w1, instr.preds) && FromUses(u0, [], w1)
    requires ReadsAdded(u1, u2, w2, instr.srcs, rd) && w1 <= w2 && FromUses(u1, w1, w2)
    requires WritesSet(u2, u, waits, instr.dsts, rd, wr) && w2 <= waits
    requires forall d :: d in waits ==> d in w2 || (d != rd && exists r :: d in Use(u2, r).Deps())
    ensures Effect(instr, u0, u, waits, rd, wr)
  {
    PrefixElements(w1, w2);
    PrefixElements(w2, waits);
    forall r
      ensures EffectOn(instr, r, Use(u0, r), Use(u, r), waits, rd, wr)
    {
      NotYetUsed(u0, r, rd);
    }
    forall d | d in waits
      ensures IsUse(u0, d)
    {
      if d !in w2 {
        var r :| d in Use(u2, r).Deps();
        assert d in Use(u0, r).Deps();
      } else if d !in w1 {
        var r :| d in Use(u1, r).Deps();
        assert d in Use(u0, r).Deps();
      }
    }
  }

  lemma NotYetUsed(u: Uses, r: Reg, d: nat)
    requires !IsUse(u, d)
    ensures d !in Use(u, r).Deps()
  {
  }

  lemma PrefixElements(a: seq<nat>, b: seq<nat>)
    requires a <= b
    ensures forall d :: d in a ==> d in b
  {
    forall d | d in a
      ensures d in b
    {
      var i :| 0 <= i < |a| && a[i] == d;
      assert b[i] == d;
    }
  }

  lemma FixedEffect(instr: Instr, u0: Uses, u1: Uses, u2: Uses, u: Uses, w1: seq<nat>, w2: seq<nat>, waits: seq<nat>, rd: nat, wr: nat)
    requires !instr.scoreboarded
    requires WritesCleared(u0, u1, w1, instr.preds) && FromUses(u0, [], w1)
    requires WritesCleared(u1, u2, w2, instr.srcs) && w1 <= w2 && FromUses(u1, w1, w2)
    requires AllCleared(u2, u, waits, instr.dsts) && w2 <= waits && FromUses(u2, w2, waits)
    ensures Effect(instr, u0, u, waits, rd, wr)
  {
    PrefixElements(w1, w2);
    PrefixElements(w2, waits);
    forall d | d in waits
      ensures IsUse(u0, d)
    {
      if d !in w2 {
        var r :| d in Use(u2, r).Deps();
        assert d in Use(u0, r).Deps();
      } else if d !in w1 {
        var r :| d in Use(u1, r).Deps();
        assert d in Use(u0, r).Deps();
      }
    }
  }

  // ----- The graph of dependencies -----

  datatype DepNode = DepNode(readDep: Option<nat>, firstWait: Option<nat>)

  /** The write dependency of an instruction follows its read dependency. */
  ghost predicate NodesOk(deps: seq<DepNode>) {
    forall d :: 0 <= d < |deps| && deps[d].readDep.Some? ==> d > 0 && deps[d].readDep == Some(d - 1) && deps[d - 1].readDep.None?
  }

  ghost predicate WaitedBy(deps: seq<DepNode>, d: nat, p: nat) {
    d < |deps| && deps[d].firstWait.Some? && deps[d].firstWait.value <= p
  }

  /** Something waits for `d`, or for the write that covers it. */
  ghost predicate SettledBy(deps: seq<DepNode>, d: nat, p: nat) {
    WaitedBy(deps, d, p) || (WaitedBy(deps, d + 1, p) && deps[d + 1].readDep == Some(d))
  }

  /** Every signalled dependency is outstanding or settled. */
  ghost predicate Signalled(deps: seq<DepNode>, active: set<nat>, d: nat, p: nat) {
    d < |deps| && (d in active || SettledBy(deps, d, p))
  }

  /** The reads that are covered by the writes in `waits`. */
  ghost predicate CoveredRead(deps: seq<DepNode>, waits: seq<nat>, d: nat) {
    exists w :: w in waits && w < |deps| && deps[w].readDep == Some(d)
  }

  /** The outcome of waiting for `waits` at `p`: outstanding ones among them that no write covers are
      waited for there, and neither they nor the covered reads are outstanding any more. */
  ghost predicate WaitsAdded(deps: seq<DepNode>, active: set<nat>, deps': seq<DepNode>, active': set<nat>, waits: seq<nat>, p: nat) {
    && |deps'| == |deps|
    && (forall d :: 0 <= d < |deps| ==> deps'[d].readDep == deps[d].readDep)
    && (forall d :: 0 <= d < |deps| ==>
          deps'[d].firstWait == if d in waits && d in active && deps[d].firstWait.None? && !CoveredRead(deps, waits, d) then Some(p) else deps[d].firstWait)
    && (forall d :: d in active' <==> d in active && d !in waits && !CoveredRead(deps, waits, d))
  }

  ghost predicate ActiveOk(deps: seq<DepNode>, active: set<nat>) {
    forall d :: d in active ==> d < |deps| && deps[d].firstWait.None?
  }

  lemma AddedSettles(deps: seq<DepNode>, active: set<nat>, deps': seq<DepNode>, active': set<nat>, waits: seq<nat>, p: nat, d: nat)
    requires NodesOk(deps) && ActiveOk(deps, active) && WaitsAdded(deps, active, deps', active', waits, p)
    requires forall w :: w in waits ==> Signalled(deps, active, w, p)
    requires Signalled(deps, active, d, p)
    ensures Signalled(deps', active', d, p)
    ensures d in waits ==> SettledBy(deps', d, p)
  {
    hide NodesOk, CoveredRead;
    if d in active {
      if CoveredRead(deps, waits, d) {
        var w := CoveringWrite(deps, waits, d);
        CoveringIsWaited(deps, active, deps', active', waits, p, w);
      }
    } else if WaitedBy(deps, d, p) {
      assert WaitedBy(deps', d, p);
    } else {
      assert WaitedBy(deps', d + 1, p);
    }
  }

  lemma CoveringWrite(deps: seq<DepNode>, waits: seq<nat>, d: nat) returns (w: nat)
    requires NodesOk(deps) && CoveredRead(deps, waits, d)
    ensures w in waits && w == d + 1 && w < |deps| && deps[w].readDep == Some(d)
  {
    w :| w in waits && w < |deps| && deps[w].readDep == Some(d);
  }

  lemma CoveringIsWaited(deps: seq<DepNode>, active: set<nat>, deps': seq<DepNode>, active': set<nat>, waits: seq<nat>, p: nat, w: nat)
    requires NodesOk(deps) && ActiveOk(deps, active) && WaitsAdded(deps, active, deps', active', waits, p)
    requires w in waits && Signalled(deps, active, w, p) && deps[w].readDep.Some?
    ensures WaitedBy(deps', w, p) && w > 0 && deps'[w].readDep == Some(w - 1)
  {
    // A write is nobody's covered read.
    assert !CoveredRead(deps, waits, w);
  }

  /** Inserts into an ascending sequence. */
  function Insert(d: nat, s: seq<nat>): (r: seq<nat>)
    ensures forall x :: x in r <==> x == d || x in s
  {
    if s == [] then [d] else if d <= s[0] then [d] + s else [s[0]] + Insert(d, s[1..])
  }

  function Sorted(s: seq<nat>): (r: seq<nat>)
    ensures forall x :: x in r <==> x in s
  {
    if s == [] then [] else Insert(s[0], Sorted(s[1..]))
  }

  class DepGraph {
    var deps: seq<DepNode>
    var instrDeps: map<nat, (nat, nat)>
    var instrWaits: map<nat, seq<nat>>
    var active: set<nat>

    ghost predicate Valid()
      reads this
    {
      NodesOk(deps) && ActiveOk(deps, active) && WaitsRecorded(deps, instrWaits)
    }

    constructor ()
      ensures Valid() && deps == [] && instrDeps == map[] && instrWaits == map[] && active == {}
    {
      deps := [];
      instrDeps := map[];
      instrWaits := map[];
      active := {};
    }

    /** The read and the write dependency of the instruction at `p`. */
    method AddInstr(p: nat) returns (rd: nat, wr: nat)
      requires Valid()
      modifies this`deps, this`instrDeps
      ensures Valid() && rd == |old(deps)| && wr == rd + 1 && instrDeps == old(instrDeps)[p := (rd, wr)]
      ensures deps == old(deps) + [DepNode(None, None), DepNode(Some(rd), None)]
    {
      rd := |deps|;
      wr := rd + 1;
      NodesGrow(deps, instrWaits);
      deps := deps + [DepNode(None, None), DepNode(Some(rd), None)];
      instrDeps := instrDeps[p := (rd, wr)];
    }

    method AddSignal(dep: nat)
      requires Valid() && dep < |deps| && deps[dep].firstWait.None?
      modifies this`active
      ensures Valid() && active == old(active) + {dep}
    {
      active := active + {dep};
    }

    /** Records what the instruction at `p` waits for: of the requested dependencies those that are still
        outstanding, and not a read whose write is among them. */
    method AddWaits(p: nat, waits: seq<nat>)
      requires Valid() && p !in instrWaits && forall w :: w in waits ==> w < |deps|
      requires forall d :: 0 <= d < |deps| ==> deps[d].firstWait != Some(p)
      modifies this`deps, this`active, this`instrWaits
      ensures Valid() && WaitsAdded(old(deps), old(active), deps, active, waits, p) && instrWaits.Keys == old(instrWaits.Keys) + {p}
    {
      DropCovered(waits);
      ghost var active1 := active;
      var kept := KeepOutstanding(p, waits);
      KeptAre(old(deps), old(active), active1, deps, active, waits, kept, p, instrWaits);
      instrWaits := instrWaits[p := Sorted(kept)];
    }

    /** A wait on a write waits on the read as well. */
    method DropCovered(waits: seq<nat>)
      requires forall w :: w in waits ==> w < |deps|
      modifies this`active
      ensures forall d :: d in active <==> d in old(active) && !CoveredRead(deps, waits, d)
    {
      assert waits[..0] == [];
      for n := 0 to |waits|
        invariant forall d :: d in active <==> d in old(active) && !CoveredRead(deps, waits[..n], d)
      {
        assert waits[n] in waits;
        var rd := deps[waits[n]].readDep;
        if rd.Some? {
          active := active - {rd.value};
        }
        forall d: nat
          ensures CoveredRead(deps, waits[..n + 1], d) <==> CoveredRead(deps, waits[..n], d) || rd == Some(d)
        {
          CoveredStep(deps, waits, n, d);
        }
      }
      assert waits[..|waits|] == waits;
    }

    method KeepOutstanding(p: nat, waits: seq<nat>) returns (kept: seq<nat>)
      requires forall w :: w in waits ==> w < |deps|
      requires forall d :: 0 <= d < |deps| ==> deps[d].firstWait != Some(p)
      modifies this`deps, this`active
      ensures Kept(old(deps), old(active), deps, active, waits, kept, p)
    {
      kept := [];
      assert waits[..0] == [];
      for n := 0 to |waits|
        invariant Kept(old(deps), old(active), deps, active, waits[..n], kept, p)
      {
        assert waits[..n + 1] == waits[..n] + [waits[n]] && waits[n] in waits;
        var d := waits[n];
        if deps[d].firstWait.None? && d in active {
          deps := deps[d := deps[d].(firstWait := Some(p))];
          active := active - {d};
          kept := kept + [d];
        }
      }
      assert waits[..|waits|] == waits;
    }
  }

  ghost predicate Kept(deps: seq<DepNode>, active: set<nat>, deps': seq<DepNode>, active': set<nat>, waits: seq<nat>, kept: seq<nat>, p: nat) {
    && |deps'| == |deps|
    && (forall d :: 0 <= d < |deps| ==>
          && deps'[d].readDep == deps[d].readDep
          && deps'[d].firstWait == if d in waits && d in active && deps[d].firstWait.None? then Some(p) else deps[d].firstWait)
    && (forall d :: d in active' <==> d in active && !(d in waits && d < |deps| && deps[d].firstWait.None?))
    && (forall d :: d in kept <==> d in waits && d in active && d < |deps| && deps[d].firstWait.None?)
  }

  /** An instruction's list of waits holds exactly what is first waited for there. */
  ghost predicate WaitsRecorded(deps: seq<DepNode>, instrWaits: map<nat, seq<nat>>) {
    && (forall d :: 0 <= d < |deps| && deps[d].firstWait.Some? ==> deps[d].firstWait.value in instrWaits && d in instrWaits[deps[d].firstWait.value])
    && (forall p, d {:trigger d in instrWaits[p]} :: p in instrWaits && d in instrWaits[p] ==> d < |deps| && deps[d].firstWait == Some(p))
  }

  lemma NodesGrow(deps: seq<DepNode>, instrWaits: map<nat, seq<nat>>)
    requires NodesOk(deps) && WaitsRecorded(deps, instrWaits)
    ensures NodesOk(deps + [DepNode(None, None), DepNode(Some(|deps|), None)])
    ensures WaitsRecorded(deps + [DepNode(None, None), DepNode(Some(|deps|), None)], instrWaits)
  {
  }

  lemma CoveredStep(deps: seq<DepNode>, waits: seq<nat>, n: nat, d: nat)
    requires n < |waits| && waits[n] < |deps|
    ensures CoveredRead(deps, waits[..n + 1], d) <==> CoveredRead(deps, waits[..n], d) || deps[waits[n]].readDep == Some(d)
  {
    assert waits[..n + 1] == waits[..n] + [waits[n]];
    if CoveredRead(deps, waits[..n], d) {
      var w :| w in waits[..n] && w < |deps| && deps[w].readDep == Some(d);
      assert w in waits[..n + 1];
    }
    if deps[waits[n]].readDep == Some(d) {
      assert waits[n] in waits[..n + 1];
    }
  }

  lemma KeptAre(deps: seq<DepNode>, active: set<nat>, active1: set<nat>, deps': seq<DepNode>, active': set<nat>, waits: seq<nat>, kept: seq<nat>,
                p: nat, instrWaits: map<nat, seq<nat>>)
    requires NodesOk(deps) && ActiveOk(deps, active) && WaitsRecorded(deps, instrWaits) && p !in instrWaits
    requires forall d :: d in active1 <==> d in active && !CoveredRead(deps, waits, d)
    requires Kept(deps, active1, deps', active', waits, kept, p)
    requires forall d :: 0 <= d < |deps| ==> deps[d].firstWait != Some(p)
    ensures WaitsAdded(deps, active, deps', active', waits, p)
    ensures NodesOk(deps') && ActiveOk(deps', active') && WaitsRecorded(deps', instrWaits[p := Sorted(kept)])
  {
    hide CoveredRead;
    KeptRecorded(deps, active1, deps', active', waits, kept, p, instrWaits);
  }

  lemma KeptRecorded(deps: seq<DepNode>, active: set<nat>, deps': seq<DepNode>, active': set<nat>, waits: seq<nat>, kept: seq<nat>,
                     p: nat, instrWaits: map<nat, seq<nat>>)
    requires WaitsRecorded(deps, instrWaits) && p !in instrWaits && Kept(deps, active, deps', active', waits, kept, p)
    requires forall d :: 0 <= d < |deps| ==> deps[d].firstWait != Some(p)
    ensures WaitsRecorded(deps', instrWaits[p := Sorted(kept)])
  {
    var iw := instrWaits[p := Sorted(kept)];
    forall q, d | q in iw && d in iw[q]
      ensures d < |deps'| && deps'[d].firstWait == Some(q)
    {
      if q != p {
        assert d in instrWaits[q];
      }
    }
  }

  // ----- All instructions -----

  ghost predicate ProgramOk(instrs: seq<Instr>) {
    forall i :: 0 <= i < |instrs| ==> instrs[i].Valid()
  }

  /** Every scoreboarded instruction before `p` has its two dependencies, numbered in program order. */
  ghost predicate Numbered(instrs: seq<Instr>, deps: seq<DepNode>, instrDeps: map<nat, (nat, nat)>, p: nat) {
    && p <= |instrs|
    && (forall i :: i in instrDeps <==> 0 <= i < p && instrs[i].scoreboarded)
    && (forall i :: i in instrDeps ==>
          var (rd, wr) := instrDeps[i];
          wr == rd + 1 && wr < |deps| && deps[rd].readDep == None && deps[wr].readDep == Some(rd))
    && (forall i, j :: i in instrDeps && j in instrDeps && i < j ==> instrDeps[i].1 < instrDeps[j].0)
  }

  /** Waits come after the instruction that is waited for, and before `p`. */
  ghost predicate WaitsLater(deps: seq<DepNode>, instrDeps: map<nat, (nat, nat)>, p: nat) {
    && (forall d :: 0 <= d < |deps| && deps[d].firstWait.Some? ==> deps[d].firstWait.value < p)
    && (forall i :: i in instrDeps ==> LaterThan(deps, instrDeps[i].0, i) && LaterThan(deps, instrDeps[i].1, i))
  }

  ghost predicate LaterThan(deps: seq<DepNode>, d: nat, i: nat) {
    d < |deps| && (deps[d].firstWait.Some? ==> deps[d].firstWait.value > i)
  }

  /** What the tracker knows about the write of register `r` at `i`: whoever touches `r` later waits, and
      until then the tracker remembers the write. */
  ghost predicate WriteTracked(instrs: seq<Instr>, deps: seq<DepNode>, wr: nat, use: RegUse, i: nat, r: Reg, p: nat)
    requires p <= |instrs|
  {
    && (forall j :: i < j < p && instrs[j].Touches(r) ==> WaitedBy(deps, wr, j))
    && ((forall j :: i < j < p ==> !instrs[j].Touches(r)) ==> use == Write(wr))
  }

  ghost predicate ReadTracked(instrs: seq<Instr>, deps: seq<DepNode>, rd: nat, use: RegUse, i: nat, r: Reg, p: nat)
    requires p <= |instrs|
  {
    && (forall j :: i < j < p && instrs[j].Writes(r) ==> SettledBy(deps, rd, j))
    && ((forall j :: i < j < p ==> !instrs[j].Writes(r)) ==> use.Reads? && rd in use.deps)
  }

  ghost predicate AllTracked(instrs: seq<Instr>, deps: seq<DepNode>, instrDeps: map<nat, (nat, nat)>, uses: Uses, p: nat)
    requires Numbered(instrs, deps, instrDeps, p)
  {
    && (forall i, r {:trigger instrs[i].Writes(r)} :: i in instrDeps && instrs[i].Writes(r) ==>
          WriteTracked(instrs, deps, instrDeps[i].1, Use(uses, r), i, r, p))
    && (forall i, r {:trigger r in instrs[i].srcs} :: i in instrDeps && r in instrs[i].srcs && !instrs[i].Writes(r) ==>
          ReadTracked(instrs, deps, instrDeps[i].0, Use(uses, r), i, r, p))
  }

  /** Dependencies that occur anywhere have been signalled. */
  ghost predicate AllSignalled(instrs: seq<Instr>, deps: seq<DepNode>, active: set<nat>, instrDeps: map<nat, (nat, nat)>, uses: Uses, p: nat)
    requires Numbered(instrs, deps, instrDeps, p)
  {
    && (forall d :: IsUse(uses, d) ==> Signalled(deps, active, d, p))
    && (forall i :: i in instrDeps && instrs[i].srcs != [] ==> Signalled(deps, active, instrDeps[i].0, p))
    && (forall i :: i in instrDeps && instrs[i].dsts != [] ==> Signalled(deps, active, instrDeps[i].1, p))
  }

  /** At a branch everything is waited for. */
  ghost predicate BranchesWait(instrs: seq<Instr>, deps: seq<DepNode>, instrDeps: map<nat, (nat, nat)>, p: nat)
    requires Numbered(instrs, deps, instrDeps, p)
  {
    forall i, j :: i in instrDeps && i < j < p && instrs[j].isBranch ==> BranchWaits(instrs[i], deps, instrDeps[i].0, instrDeps[i].1, j)
  }

  ghost predicate BranchWaits(instr: Instr, deps: seq<DepNode>, rd: nat, wr: nat, j: nat) {
    (instr.srcs != [] ==> SettledBy(deps, rd, j)) && (instr.dsts != [] ==> WaitedBy(deps, wr, j))
  }

  // ----- One step keeps what is tracked -----

  lemma SettledStays(deps: seq<DepNode>, active: set<nat>, deps': seq<DepNode>, active': set<nat>, waits: seq<nat>, p: nat, d: nat, q: nat)
    requires WaitsAdded(deps, active, deps', active', waits, p)
    ensures WaitedBy(deps, d, q) ==> WaitedBy(deps', d, q)
    ensures SettledBy(deps, d, q) ==> SettledBy(deps', d, q)
  {
  }

  lemma WriteStep(instrs: seq<Instr>, deps: seq<DepNode>, active: set<nat>, deps': seq<DepNode>, active': set<nat>, waits: seq<nat>,
                  wr: nat, before: RegUse, after: RegUse, i: nat, r: Reg, p: nat, rdP: nat, wrP: nat)
    requires p < |instrs| && i < p && WriteTracked(instrs, deps, wr, before, i, r, p)
    requires WaitsAdded(deps, active, deps', active', waits, p) && EffectOn(instrs[p], r, before, after, waits, rdP, wrP)
    requires wr in waits ==> WaitedBy(deps', wr, p)
    ensures WriteTracked(instrs, deps', wr, after, i, r, p + 1)
  {
    forall j | i < j < p + 1 && instrs[j].Touches(r)
      ensures WaitedBy(deps', wr, j)
    {
      if j < p {
        SettledStays(deps, active, deps', active', waits, p, wr, j);
      } else if exists k :: i < k < p && instrs[k].Touches(r) {
        var k :| i < k < p && instrs[k].Touches(r);
        SettledStays(deps, active, deps', active', waits, p, wr, k);
      }
    }
  }

  lemma ReadStep(instrs: seq<Instr>, deps: seq<DepNode>, active: set<nat>, deps': seq<DepNode>, active': set<nat>, waits: seq<nat>,
                 rd: nat, before: RegUse, after: RegUse, i: nat, r: Reg, p: nat, rdP: nat, wrP: nat)
    requires p < |instrs| && i < p && ReadTracked(instrs, deps, rd, before, i, r, p)
    requires WaitsAdded(deps, active, deps', active', waits, p) && EffectOn(instrs[p], r, before, after, waits, rdP, wrP)
    requires rd in waits ==> SettledBy(deps', rd, p)
    ensures ReadTracked(instrs, deps', rd, after, i, r, p + 1)
  {
    forall j | i < j < p + 1 && instrs[j].Writes(r)
      ensures SettledBy(deps', rd, j)
    {
      if j < p {
        SettledStays(deps, active, deps', active', waits, p, rd, j);
      } else if exists k :: i < k < p && instrs[k].Writes(r) {
        var k :| i < k < p && instrs[k].Writes(r);
        SettledStays(deps, active, deps', active', waits, p, rd, k);
      }
    }
  }

  // ----- The pass as a whole -----

  /** Everything that holds before the instruction at `p` is visited. */
  ghost predicate PassOk(instrs: seq<Instr>, deps: seq<DepNode>, active: set<nat>, instrDeps: map<nat, (nat, nat)>, uses: Uses, p: nat) {
    && ProgramOk(instrs) && NodesOk(deps) && ActiveOk(deps, active)
    && Numbered(instrs, deps, instrDeps, p) && WaitsLater(deps, instrDeps, p)
    && AllTracked(instrs, deps, instrDeps, uses, p) && AllSignalled(instrs, deps, active, instrDeps, uses, p)
    && BranchesWait(instrs, deps, instrDeps, p)
  }

  /** A write dependency is settled only by a wait on itself. */
  lemma WriteSettled(deps: seq<DepNode>, wr: nat, p: nat)
    requires NodesOk(deps) && SettledBy(deps, wr, p) && wr < |deps| && deps[wr].readDep.Some?
    ensures WaitedBy(deps, wr, p)
  {
  }

  lemma SignalledLater(deps: seq<DepNode>, active: set<nat>, d: nat, p: nat, q: nat)
    requires Signalled(deps, active, d, p) && p <= q
    ensures Signalled(deps, active, d, q)
  {
  }

  /** The new dependencies of a scoreboarded instruction are added and signalled. */
  ghost predicate Issued(instr: Instr, deps: seq<DepNode>, active: set<nat>, instrDeps: map<nat, (nat, nat)>,
                         deps1: seq<DepNode>, active1: set<nat>, instrDeps1: map<nat, (nat, nat)>, p: nat)
  {
    if instr.scoreboarded then
      var rd := |deps|;
      && deps1 == deps + [DepNode(None, None), DepNode(Some(rd), None)] && instrDeps1 == instrDeps[p := (rd, rd + 1)]
      && active1 == active + (if instr.srcs != [] then {rd} else {}) + (if instr.dsts != [] then {rd + 1} else {})
    else
      deps1 == deps && active1 == active && instrDeps1 == instrDeps
  }

  lemma IssueKeeps(deps: seq<DepNode>, deps1: seq<DepNode>, d: nat, q: nat)
    requires |deps| <= |deps1| && deps1[..|deps|] == deps
    ensures WaitedBy(deps, d, q) ==> WaitedBy(deps1, d, q)
    ensures SettledBy(deps, d, q) ==> SettledBy(deps1, d, q)
  {
    assert forall k :: 0 <= k < |deps| ==> deps1[k] == deps1[..|deps|][k];
  }

  lemma IssuePrefix(instr: Instr, deps: seq<DepNode>, active: set<nat>, instrDeps: map<nat, (nat, nat)>,
                    deps1: seq<DepNode>, active1: set<nat>, instrDeps1: map<nat, (nat, nat)>, p: nat)
    requires Issued(instr, deps, active, instrDeps, deps1, active1, instrDeps1, p)
    ensures |deps| <= |deps1| && deps1[..|deps|] == deps
  {
  }

  lemma IssueNumbers(instrs: seq<Instr>, deps: seq<DepNode>, active: set<nat>, instrDeps: map<nat, (nat, nat)>,
                     deps1: seq<DepNode>, active1: set<nat>, instrDeps1: map<nat, (nat, nat)>, p: nat)
    requires p < |instrs| && Numbered(instrs, deps, instrDeps, p) && WaitsLater(deps, instrDeps, p)
    requires NodesOk(deps) && ActiveOk(deps, active)
    requires Issued(instrs[p], deps, active, instrDeps, deps1, active1, instrDeps1, p)
    ensures Numbered(instrs, deps1, instrDeps1, p + 1) && NodesOk(deps1) && ActiveOk(deps1, active1)
    ensures forall i :: i in instrDeps ==> i in instrDeps1 && instrDeps1[i] == instrDeps[i]
    ensures forall i :: i in instrDeps1 ==> LaterThan(deps1, instrDeps1[i].0, i) && LaterThan(deps1, instrDeps1[i].1, i)
    ensures forall d :: 0 <= d < |deps1| && deps1[d].firstWait.Some? ==> deps1[d].firstWait.value < p
  {
    hide Numbered, NodesOk, ActiveOk;
    IssueIsNumbered(instrs, deps, active, instrDeps, deps1, active1, instrDeps1, p);
    IssueKeepsNodes(instrs[p], deps, active, instrDeps, deps1, active1, instrDeps1, p);
    KnownBefore(instrs, deps, instrDeps, p);
  }

  lemma IssueKeepsNodes(instr: Instr, deps: seq<DepNode>, active: set<nat>, instrDeps: map<nat, (nat, nat)>,
                        deps1: seq<DepNode>, active1: set<nat>, instrDeps1: map<nat, (nat, nat)>, p: nat)
    requires NodesOk(deps) && ActiveOk(deps, active) && Issued(instr, deps, active, instrDeps, deps1, active1, instrDeps1, p)
    ensures NodesOk(deps1) && ActiveOk(deps1, active1)
  {
  }

  lemma KnownBefore(instrs: seq<Instr>, deps: seq<DepNode>, instrDeps: map<nat, (nat, nat)>, p: nat)
    requires Numbered(instrs, deps, instrDeps, p)
    ensures p !in instrDeps
  {
  }

  lemma IssueIsNumbered(instrs: seq<Instr>, deps: seq<DepNode>, active: set<nat>, instrDeps: map<nat, (nat, nat)>,
                        deps1: seq<DepNode>, active1: set<nat>, instrDeps1: map<nat, (nat, nat)>, p: nat)
    requires p < |instrs| && Numbered(instrs, deps, instrDeps, p)
    requires Issued(instrs[p], deps, active, instrDeps, deps1, active1, instrDeps1, p)
    ensures Numbered(instrs, deps1, instrDeps1, p + 1)
  {
    forall i | i in instrDeps1
      ensures var (rd, wr) := instrDeps1[i]; wr == rd + 1 && wr < |deps1| && deps1[rd].readDep == None && deps1[wr].readDep == Some(rd)
    {
      if i in instrDeps && i != p {
        assert instrDeps1[i] == instrDeps[i];
      }
    }
  }

  lemma WaitsStayLater(instrs: seq<Instr>, deps1: seq<DepNode>, active1: set<nat>, instrDeps1: map<nat, (nat, nat)>, waits: seq<nat>,
                       deps': seq<DepNode>, active': set<nat>, p: nat)
    requires p < |instrs| && Numbered(instrs, deps1, instrDeps1, p + 1) && WaitsAdded(deps1, active1, deps', active', waits, p)
    requires forall i :: i in instrDeps1 ==> LaterThan(deps1, instrDeps1[i].0, i) && LaterThan(deps1, instrDeps1[i].1, i)
    requires forall d :: 0 <= d < |deps1| && deps1[d].firstWait.Some? ==> deps1[d].firstWait.value < p
    requires p in instrDeps1 ==> instrDeps1[p].0 !in waits && instrDeps1[p].1 !in waits
    ensures Numbered(instrs, deps', instrDeps1, p + 1) && WaitsLater(deps', instrDeps1, p + 1)
  {
    hide CoveredRead;
    forall i | i in instrDeps1
      ensures LaterThan(deps', instrDeps1[i].0, i) && LaterThan(deps', instrDeps1[i].1, i)
    {
      assert i <= p;
    }
  }

  lemma WaitsKeepNodes(deps1: seq<DepNode>, active1: set<nat>, waits: seq<nat>, deps': seq<DepNode>, active': set<nat>, p: nat)
    requires NodesOk(deps1) && ActiveOk(deps1, active1) && WaitsAdded(deps1, active1, deps', active', waits, p)
    ensures NodesOk(deps') && ActiveOk(deps', active')
  {
    hide CoveredRead;
  }

  /** After the instruction at `p`: what is signalled, tracked and waited for at branches. */
  lemma StepSignals(instrs: seq<Instr>, deps: seq<DepNode>, active: set<nat>, instrDeps: map<nat, (nat, nat)>, uses: Uses,
                    deps1: seq<DepNode>, active1: set<nat>, instrDeps1: map<nat, (nat, nat)>, waits: seq<nat>,
                    deps': seq<DepNode>, active': set<nat>, uses': Uses, p: nat)
    requires p < |instrs| && PassOk(instrs, deps, active, instrDeps, uses, p)
    requires Issued(instrs[p], deps, active, instrDeps, deps1, active1, instrDeps1, p)
    requires WaitsAdded(deps1, active1, deps', active', waits, p)
    requires forall w :: w in waits ==> Signalled(deps1, active1, w, p)
    requires Numbered(instrs, deps1, instrDeps1, p + 1) && NodesOk(deps1) && ActiveOk(deps1, active1)
    requires Numbered(instrs, deps', instrDeps1, p + 1)
    requires forall d :: IsUse(uses', d) ==> IsUse(uses, d) || NewSignal(instrs[p], |deps|, d)
    ensures AllSignalled(instrs, deps', active', instrDeps1, uses', p + 1)
  {
    hide AllTracked, BranchesWait, WaitsAdded, IsUse, WaitsLater, CoveredRead;
    forall d | IsUse(uses', d)
      ensures Signalled(deps', active', d, p + 1)
    {
      SignalPersists(instrs[p], deps, active, instrDeps, deps1, active1, instrDeps1, waits, deps', active', p, d);
    }
    forall i | i in instrDeps1
      ensures instrs[i].srcs != [] ==> Signalled(deps', active', instrDeps1[i].0, p + 1)
      ensures instrs[i].dsts != [] ==> Signalled(deps', active', instrDeps1[i].1, p + 1)
    {
      if instrs[i].srcs != [] {
        SignalPersists(instrs[p], deps, active, instrDeps, deps1, active1, instrDeps1, waits, deps', active', p, instrDeps1[i].0);
      }
      if instrs[i].dsts != [] {
        SignalPersists(instrs[p], deps, active, instrDeps, deps1, active1, instrDeps1, waits, deps', active', p, instrDeps1[i].1);
      }
    }
  }

  /** The dependencies that an instruction brings in, when the next free number is `n`. */
  ghost predicate NewSignal(instr: Instr, n: nat, d: nat) {
    instr.scoreboarded && ((d == n && instr.srcs != []) || (d == n + 1 && instr.dsts != []))
  }

  lemma SignalPersists(instr: Instr, deps: seq<DepNode>, active: set<nat>, instrDeps: map<nat, (nat, nat)>,
                       deps1: seq<DepNode>, active1: set<nat>, instrDeps1: map<nat, (nat, nat)>, waits: seq<nat>,
                       deps': seq<DepNode>, active': set<nat>, p: nat, d: nat)
    requires Issued(instr, deps, active, instrDeps, deps1, active1, instrDeps1, p)
    requires NodesOk(deps1) && ActiveOk(deps1, active1) && WaitsAdded(deps1, active1, deps', active', waits, p)
    requires forall w :: w in waits ==> Signalled(deps1, active1, w, p)
    requires Signalled(deps, active, d, p) || NewSignal(instr, |deps|, d)
    ensures Signalled(deps', active', d, p + 1)
    ensures d in waits ==> SettledBy(deps', d, p)
  {
    hide WaitsAdded, NodesOk;
    IssuePrefix(instr, deps, active, instrDeps, deps1, active1, instrDeps1, p);
    IssueKeeps(deps, deps1, d, p);
    AddedSettles(deps1, active1, deps', active', waits, p, d);
    SignalledLater(deps', active', d, p, p + 1);
  }

  /** How the tracked facts about one earlier instruction survive the instruction at `p`. */
  lemma OldTracked(instrs: seq<Instr>, deps: seq<DepNode>, active: set<nat>, instrDeps: map<nat, (nat, nat)>, uses: Uses,
                   deps1: seq<DepNode>, active1: set<nat>, instrDeps1: map<nat, (nat, nat)>, waits: seq<nat>,
                   deps': seq<DepNode>, active': set<nat>, uses': Uses, p: nat, rdP: nat, wrP: nat, i: nat, r: Reg)
    requires p < |instrs| && PassOk(instrs, deps, active, instrDeps, uses, p)
    requires Issued(instrs[p], deps, active, instrDeps, deps1, active1, instrDeps1, p)
    requires WaitsAdded(deps1, active1, deps', active', waits, p) && NodesOk(deps1) && ActiveOk(deps1, active1) && NodesOk(deps')
    requires forall w :: w in waits ==> Signalled(deps1, active1, w, p)
    requires Effect(instrs[p], uses, uses', waits, rdP, wrP) && i in instrDeps && i < p
    requires instrDeps[i].1 < |deps'| && deps'[instrDeps[i].1].readDep.Some?
    ensures instrs[i].Writes(r) ==> WriteTracked(instrs, deps', instrDeps[i].1, Use(uses', r), i, r, p + 1)
    ensures r in instrs[i].srcs && !instrs[i].Writes(r) ==> ReadTracked(instrs, deps', instrDeps[i].0, Use(uses', r), i, r, p + 1)
  {
    hide WaitsAdded, NodesOk, AllSignalled, BranchesWait, WaitsLater, EffectOn, WriteTracked, ReadTracked, ActiveOk, ProgramOk, Numbered;
    var rd, wr := instrDeps[i].0, instrDeps[i].1;
    assert EffectOn(instrs[p], r, Use(uses, r), Use(uses', r), waits, rdP, wrP);
    IssuePrefix(instrs[p], deps, active, instrDeps, deps1, active1, instrDeps1, p);
    if instrs[i].Writes(r) {
      TrackedInIssue(instrs, deps, deps1, rd, wr, Use(uses, r), i, r, p);
      if wr in waits {
        AddedSettles(deps1, active1, deps', active', waits, p, wr);
        WriteSettled(deps', wr, p);
      }
      WriteStep(instrs, deps1, active1, deps', active', waits, wr, Use(uses, r), Use(uses', r), i, r, p, rdP, wrP);
    }
    if r in instrs[i].srcs && !instrs[i].Writes(r) {
      TrackedInIssue(instrs, deps, deps1, rd, wr, Use(uses, r), i, r, p);
      if rd in waits {
        AddedSettles(deps1, active1, deps', active', waits, p, rd);
      }
      ReadStep(instrs, deps1, active1, deps', active', waits, rd, Use(uses, r), Use(uses', r), i, r, p, rdP, wrP);
    }
  }

  lemma TrackedInIssue(instrs: seq<Instr>, deps: seq<DepNode>, deps1: seq<DepNode>, rd: nat, wr: nat, use: RegUse, i: nat, r: Reg, p: nat)
    requires p <= |instrs| && |deps| <= |deps1| && deps1[..|deps|] == deps
    ensures WriteTracked(instrs, deps, wr, use, i, r, p) ==> WriteTracked(instrs, deps1, wr, use, i, r, p)
    ensures ReadTracked(instrs, deps, rd, use, i, r, p) ==> ReadTracked(instrs, deps1, rd, use, i, r, p)
  {
    forall j: nat
      ensures WaitedBy(deps, wr, j) ==> WaitedBy(deps1, wr, j)
      ensures SettledBy(deps, rd, j) ==> SettledBy(deps1, rd, j)
    {
      IssueKeeps(deps, deps1, wr, j);
      IssueKeeps(deps, deps1, rd, j);
    }
  }

  lemma StepTracks(instrs: seq<Instr>, deps: seq<DepNode>, active: set<nat>, instrDeps: map<nat, (nat, nat)>, uses: Uses,
                   deps1: seq<DepNode>, active1: set<nat>, instrDeps1: map<nat, (nat, nat)>, waits: seq<nat>,
                   deps': seq<DepNode>, active': set<nat>, uses': Uses, p: nat, rdP: nat, wrP: nat)
    requires p < |instrs| && PassOk(instrs, deps, active, instrDeps, uses, p)
    requires Issued(instrs[p], deps, active, instrDeps, deps1, active1, instrDeps1, p)
    requires WaitsAdded(deps1, active1, deps', active', waits, p) && NodesOk(deps1) && ActiveOk(deps1, active1) && NodesOk(deps')
    requires forall w :: w in waits ==> Signalled(deps1, active1, w, p)
    requires Effect(instrs[p], uses, uses', waits, rdP, wrP) && rdP == |deps| && wrP == rdP + 1
    requires Numbered(instrs, deps', instrDeps1, p + 1)
    ensures AllTracked(instrs, deps', instrDeps1, uses', p + 1)
  {
    hide WaitsAdded, NodesOk, AllSignalled, BranchesWait, WaitsLater, WriteTracked, ReadTracked, AllTracked, ActiveOk, ProgramOk, CoveredRead;
    forall i, r | i in instrDeps1
      ensures instrs[i].Writes(r) ==> WriteTracked(instrs, deps', instrDeps1[i].1, Use(uses', r), i, r, p + 1)
      ensures r in instrs[i].srcs && !instrs[i].Writes(r) ==> ReadTracked(instrs, deps', instrDeps1[i].0, Use(uses', r), i, r, p + 1)
    {
      if i < p {
        assert i in instrDeps && instrDeps1[i] == instrDeps[i];
        OldTracked(instrs, deps, active, instrDeps, uses, deps1, active1, instrDeps1, waits, deps', active', uses', p, rdP, wrP, i, r);
      } else {
        NewTracked(instrs, deps', uses, uses', waits, p, rdP, wrP, r);
      }
    }
    TrackedForAll(instrs, deps', instrDeps1, uses', p + 1);
  }

  lemma TrackedForAll(instrs: seq<Instr>, deps: seq<DepNode>, instrDeps: map<nat, (nat, nat)>, uses: Uses, p: nat)
    requires Numbered(instrs, deps, instrDeps, p)
    requires forall i, r {:trigger instrs[i].Writes(r)} {:trigger r in instrs[i].srcs} :: i in instrDeps ==>
               && (instrs[i].Writes(r) ==> WriteTracked(instrs, deps, instrDeps[i].1, Use(uses, r), i, r, p))
               && (r in instrs[i].srcs && !instrs[i].Writes(r) ==> ReadTracked(instrs, deps, instrDeps[i].0, Use(uses, r), i, r, p))
    ensures AllTracked(instrs, deps, instrDeps, uses, p)
  {
    hide WriteTracked, ReadTracked;
  }

  lemma NewTracked(instrs: seq<Instr>, deps: seq<DepNode>, uses: Uses, uses': Uses, waits: seq<nat>, p: nat, rd: nat, wr: nat, r: Reg)
    requires p < |instrs| && instrs[p].scoreboarded && Effect(instrs[p], uses, uses', waits, rd, wr)
    ensures instrs[p].Writes(r) ==> WriteTracked(instrs, deps, wr, Use(uses', r), p, r, p + 1)
    ensures r in instrs[p].srcs && !instrs[p].Writes(r) ==> ReadTracked(instrs, deps, rd, Use(uses', r), p, r, p + 1)
  {
    assert EffectOn(instrs[p], r, Use(uses, r), Use(uses', r), waits, rd, wr);
  }

  lemma StepBranches(instrs: seq<Instr>, deps: seq<DepNode>, active: set<nat>, instrDeps: map<nat, (nat, nat)>, uses: Uses,
                     deps1: seq<DepNode>, active1: set<nat>, instrDeps1: map<nat, (nat, nat)>, waits: seq<nat>,
                     deps': seq<DepNode>, active': set<nat>, p: nat)
    requires p < |instrs| && PassOk(instrs, deps, active, instrDeps, uses, p) && !instrs[p].isBranch
    requires Issued(instrs[p], deps, active, instrDeps, deps1, active1, instrDeps1, p)
    requires WaitsAdded(deps1, active1, deps', active', waits, p) && Numbered(instrs, deps', instrDeps1, p + 1)
    ensures BranchesWait(instrs, deps', instrDeps1, p + 1)
  {
    hide WaitsAdded, NodesOk, AllSignalled, AllTracked, ActiveOk, ProgramOk, BranchWaits;
    IssuePrefix(instrs[p], deps, active, instrDeps, deps1, active1, instrDeps1, p);
    forall i, j | i in instrDeps1 && i < j < p + 1 && instrs[j].isBranch
      ensures BranchWaits(instrs[i], deps', instrDeps1[i].0, instrDeps1[i].1, j)
    {
      assert i in instrDeps && instrDeps1[i] == instrDeps[i];
      BranchWaitsStay(instrs[i], deps, deps1, active1, waits, deps', active', p, instrDeps[i].0, instrDeps[i].1, j);
    }
  }

  lemma BranchWaitsStay(instr: Instr, deps: seq<DepNode>, deps1: seq<DepNode>, active1: set<nat>, waits: seq<nat>,
                        deps': seq<DepNode>, active': set<nat>, p: nat, rd: nat, wr: nat, j: nat)
    requires |deps| <= |deps1| && deps1[..|deps|] == deps && WaitsAdded(deps1, active1, deps', active', waits, p)
    requires BranchWaits(instr, deps, rd, wr, j)
    ensures BranchWaits(instr, deps', rd, wr, j)
  {
    hide WaitsAdded;
    IssueKeeps(deps, deps1, rd, j);
    IssueKeeps(deps, deps1, wr, j);
    SettledStays(deps1, active1, deps', active', waits, p, rd, j);
    SettledStays(deps1, active1, deps', active', waits, p, wr, j);
  }

  // ----- Branches -----

  /** Everything outstanding is waited for: all signalled dependencies are settled. */
  lemma BarrierSettles(deps: seq<DepNode>, active: set<nat>, waits: seq<nat>, deps': seq<DepNode>, active': set<nat>, p: nat, d: nat)
    requires NodesOk(deps) && ActiveOk(deps, active) && WaitsAdded(deps, active, deps', active', waits, p)
    requires (forall w :: w in active <==> w in waits) && Signalled(deps, active, d, p)
    ensures SettledBy(deps', d, p)
  {
    hide NodesOk, CoveredRead;
    assert forall w :: w in waits ==> Signalled(deps, active, w, p);
    AddedSettles(deps, active, deps', active', waits, p, d);
  }

  lemma BranchStep(instrs: seq<Instr>, deps: seq<DepNode>, active: set<nat>, instrDeps: map<nat, (nat, nat)>, uses: Uses, waits: seq<nat>,
                   deps': seq<DepNode>, active': set<nat>, p: nat)
    requires p < |instrs| && PassOk(instrs, deps, active, instrDeps, uses, p) && instrs[p].isBranch
    requires WaitsAdded(deps, active, deps', active', waits, p) && forall w :: w in active <==> w in waits
    requires Numbered(instrs, deps', instrDeps, p + 1) && NodesOk(deps')
    ensures AllTracked(instrs, deps', instrDeps, uses, p + 1) && AllSignalled(instrs, deps', active', instrDeps, uses, p + 1)
    ensures BranchesWait(instrs, deps', instrDeps, p + 1)
  {
    hide WaitsAdded, NodesOk, ActiveOk, ProgramOk, WriteTracked, ReadTracked, AllTracked, AllSignalled, BranchesWait, Signalled, IsUse;
    forall i, r | i in instrDeps
      ensures instrs[i].Writes(r) ==> WriteTracked(instrs, deps', instrDeps[i].1, Use(uses, r), i, r, p + 1)
      ensures r in instrs[i].srcs && !instrs[i].Writes(r) ==> ReadTracked(instrs, deps', instrDeps[i].0, Use(uses, r), i, r, p + 1)
    {
      BranchTracks(instrs, deps, active, instrDeps, uses, waits, deps', active', p, i, r);
    }
    TrackedForAll(instrs, deps', instrDeps, uses, p + 1);
    BranchSignals(instrs, deps, active, instrDeps, uses, waits, deps', active', p);
    BranchIsWaited(instrs, deps, active, instrDeps, uses, waits, deps', active', p);
  }

  lemma BranchSignals(instrs: seq<Instr>, deps: seq<DepNode>, active: set<nat>, instrDeps: map<nat, (nat, nat)>, uses: Uses, waits: seq<nat>,
                      deps': seq<DepNode>, active': set<nat>, p: nat)
    requires p < |instrs| && PassOk(instrs, deps, active, instrDeps, uses, p) && instrs[p].isBranch
    requires WaitsAdded(deps, active, deps', active', waits, p) && forall w :: w in active <==> w in waits
    requires Numbered(instrs, deps', instrDeps, p + 1)
    ensures AllSignalled(instrs, deps', active', instrDeps, uses, p + 1)
  {
    hide WaitsAdded, NodesOk, ActiveOk, ProgramOk, AllTracked, BranchesWait, IsUse;
    forall d | Signalled(deps, active, d, p)
      ensures Signalled(deps', active', d, p + 1)
    {
      BarrierSettles(deps, active, waits, deps', active', p, d);
    }
  }

  lemma BranchIsWaited(instrs: seq<Instr>, deps: seq<DepNode>, active: set<nat>, instrDeps: map<nat, (nat, nat)>, uses: Uses, waits: seq<nat>,
                       deps': seq<DepNode>, active': set<nat>, p: nat)
    requires p < |instrs| && PassOk(instrs, deps, active, instrDeps, uses, p) && instrs[p].isBranch
    requires WaitsAdded(deps, active, deps', active', waits, p) && forall w :: w in active <==> w in waits
    requires Numbered(instrs, deps', instrDeps, p + 1) && NodesOk(deps')
    ensures BranchesWait(instrs, deps', instrDeps, p + 1)
  {
    hide WaitsAdded, NodesOk, ActiveOk, ProgramOk, AllTracked, IsUse, Signalled, SettledBy, WaitedBy;
    forall i, j | i in instrDeps && i < j < p + 1 && instrs[j].isBranch
      ensures BranchWaits(instrs[i], deps', instrDeps[i].0, instrDeps[i].1, j)
    {
      if j < p {
        SettledStays(deps, active, deps', active', waits, p, instrDeps[i].0, j);
        SettledStays(deps, active, deps', active', waits, p, instrDeps[i].1, j);
      } else {
        if instrs[i].srcs != [] {
          BarrierSettles(deps, active, waits, deps', active', p, instrDeps[i].0);
        }
        if instrs[i].dsts != [] {
          BarrierSettles(deps, active, waits, deps', active', p, instrDeps[i].1);
          WriteSettled(deps', instrDeps[i].1, p);
        }
      }
    }
  }

  lemma BranchTracks(instrs: seq<Instr>, deps: seq<DepNode>, active: set<nat>, instrDeps: map<nat, (nat, nat)>, uses: Uses, waits: seq<nat>,
                     deps': seq<DepNode>, active': set<nat>, p: nat, i: nat, r: Reg)
    requires p < |instrs| && PassOk(instrs, deps, active, instrDeps, uses, p) && instrs[p].isBranch && i in instrDeps
    requires WaitsAdded(deps, active, deps', active', waits, p) && forall w :: w in active <==> w in waits
    requires Numbered(instrs, deps', instrDeps, p + 1) && NodesOk(deps')
    ensures instrs[i].Writes(r) ==> WriteTracked(instrs, deps', instrDeps[i].1, Use(uses, r), i, r, p + 1)
    ensures r in instrs[i].srcs && !instrs[i].Writes(r) ==> ReadTracked(instrs, deps', instrDeps[i].0, Use(uses, r), i, r, p + 1)
  {
    hide WaitsAdded, NodesOk, ActiveOk, ProgramOk, BranchesWait, IsUse, Signalled, SettledBy, WaitedBy;
    var rd, wr := instrDeps[i].0, instrDeps[i].1;
    forall j: nat
      ensures WaitedBy(deps, wr, j) ==> WaitedBy(deps', wr, j)
      ensures SettledBy(deps, rd, j) ==> SettledBy(deps', rd, j)
    {
      SettledStays(deps, active, deps', active', waits, p, wr, j);
      SettledStays(deps, active, deps', active', waits, p, rd, j);
    }
    if instrs[i].Writes(r) {
      assert WriteTracked(instrs, deps, wr, Use(uses, r), i, r, p);
      BarrierSettles(deps, active, waits, deps', active', p, wr);
      WriteSettled(deps', wr, p);
    }
    if r in instrs[i].srcs && !instrs[i].Writes(r) {
      assert ReadTracked(instrs, deps, rd, Use(uses, r), i, r, p);
      BarrierSettles(deps, active, waits, deps', active', p, rd);
    }
  }

  // ----- The first pass -----

  method ElementsOf(s: set<nat>) returns (r: seq<nat>)
    ensures forall x :: x in r <==> x in s
  {
    r := [];
    var rest := s;
    while rest != {}
      invariant rest <= s && forall x :: x in r <==> x in s - rest
      decreases rest
    {
      var x :| x in rest;
      r := r + [x];
      rest := rest - {x};
    }
  }

  ghost predicate GraphAt(instrs: seq<Instr>, g: DepGraph, uses: Uses, p: nat)
    reads g
  {
    && g.Valid() && PassOk(instrs, g.deps, g.active, g.instrDeps, uses, p)
    && forall q :: q in g.instrWaits <==> 0 <= q < p
  }

  lemma NoWaitAt(instrs: seq<Instr>, g: DepGraph, uses: Uses, p: nat)
    requires GraphAt(instrs, g, uses, p)
    ensures p !in g.instrWaits && forall d :: 0 <= d < |g.deps| ==> g.deps[d].firstWait != Some(p)
  {
  }

  lemma NewDepsUnused(instrs: seq<Instr>, deps: seq<DepNode>, active: set<nat>, instrDeps: map<nat, (nat, nat)>, uses: Uses, p: nat)
    requires PassOk(instrs, deps, active, instrDeps, uses, p)
    ensures !IsUse(uses, |deps|) && !IsUse(uses, |deps| + 1)
    ensures forall d :: IsUse(uses, d) ==> Signalled(deps, active, d, p)
  {
    hide IsUse;
  }

  /** A branch waits for everything that is outstanding. */
  method VisitBranch(instrs: seq<Instr>, g: DepGraph, ghost uses: Uses, p: nat)
    requires p < |instrs| && instrs[p].isBranch && GraphAt(instrs, g, uses, p)
    modifies g
    ensures GraphAt(instrs, g, uses, p + 1)
  {
    hide PassOk, NodesOk, ActiveOk, WaitsRecorded, WaitsAdded;
    NoWaitAt(instrs, g, uses, p);
    ghost var deps, active, instrDeps := g.deps, g.active, g.instrDeps;
    var waits := ElementsOf(g.active);
    ActiveKnown(deps, active);
    g.AddWaits(p, waits);
    BranchPassOk(instrs, deps, active, instrDeps, uses, waits, g.deps, g.active, p);
  }

  lemma ActiveKnown(deps: seq<DepNode>, active: set<nat>)
    requires ActiveOk(deps, active)
    ensures forall d :: d in active ==> d < |deps|
  {
  }

  lemma BranchPassOk(instrs: seq<Instr>, deps: seq<DepNode>, active: set<nat>, instrDeps: map<nat, (nat, nat)>, uses: Uses, waits: seq<nat>,
                     deps': seq<DepNode>, active': set<nat>, p: nat)
    requires p < |instrs| && PassOk(instrs, deps, active, instrDeps, uses, p) && instrs[p].isBranch
    requires WaitsAdded(deps, active, deps', active', waits, p) && forall w :: w in active <==> w in waits
    ensures PassOk(instrs, deps', active', instrDeps, uses, p + 1)
  {
    hide WaitsAdded, NodesOk, ActiveOk, AllTracked, AllSignalled, BranchesWait, IsUse, CoveredRead;
    var one := instrs[p];
    assert one.Valid() && !one.scoreboarded;
    assert Issued(one, deps, active, instrDeps, deps, active, instrDeps, p);
    IssueNumbers(instrs, deps, active, instrDeps, deps, active, instrDeps, p);
    assert p !in instrDeps;
    WaitsStayLater(instrs, deps, active, instrDeps, waits, deps', active', p);
    WaitsKeepNodes(deps, active, waits, deps', active', p);
    BranchStep(instrs, deps, active, instrDeps, uses, waits, deps', active', p);
  }

  /** Any other instruction waits for what it touches. */
  method VisitOther(instrs: seq<Instr>, g: DepGraph, uses: Uses, p: nat) returns (uses': Uses)
    requires p < |instrs| && !instrs[p].isBranch && GraphAt(instrs, g, uses, p)
    modifies g
    ensures GraphAt(instrs, g, uses', p + 1)
  {
    hide PassOk, NodesOk, ActiveOk, WaitsRecorded, WaitsAdded, IsUse, Effect;
    NoWaitAt(instrs, g, uses, p);
    ghost var deps, active, instrDeps := g.deps, g.active, g.instrDeps;
    NewDepsUnused(instrs, deps, active, instrDeps, uses, p);
    ValidAt(instrs, deps, active, instrDeps, uses, p);
    var rd, wr := Issue(instrs[p], g, p);
    ghost var deps1, active1 := g.deps, g.active;
    var waits;
    uses', waits := VisitInstr(instrs[p], uses, rd, wr);
    WaitsAreSignalled(instrs, deps, active, instrDeps, uses, deps1, active1, g.instrDeps, waits, uses', p);
    g.AddWaits(p, waits);
    OtherPassOk(instrs, deps, active, instrDeps, uses, deps1, active1, g.instrDeps, waits, g.deps, g.active, uses', p);
  }

  lemma ValidAt(instrs: seq<Instr>, deps: seq<DepNode>, active: set<nat>, instrDeps: map<nat, (nat, nat)>, uses: Uses, p: nat)
    requires p < |instrs| && PassOk(instrs, deps, active, instrDeps, uses, p)
    ensures instrs[p].Valid()
  {
  }

  /** Creates and signals the dependencies of a scoreboarded instruction. */
  method Issue(instr: Instr, g: DepGraph, p: nat) returns (rd: nat, wr: nat)
    requires g.Valid()
    modifies g`deps, g`instrDeps, g`active
    ensures g.Valid() && rd == |old(g.deps)| && wr == rd + 1
    ensures Issued(instr, old(g.deps), old(g.active), old(g.instrDeps), g.deps, g.active, g.instrDeps, p)
  {
    hide NodesOk, ActiveOk, WaitsRecorded;
    rd, wr := |g.deps|, |g.deps| + 1;
    if instr.scoreboarded {
      rd, wr := g.AddInstr(p);
      if instr.srcs != [] {
        g.AddSignal(rd);
      }
      if instr.dsts != [] {
        g.AddSignal(wr);
      }
    }
  }

  lemma WaitsAreSignalled(instrs: seq<Instr>, deps: seq<DepNode>, active: set<nat>, instrDeps: map<nat, (nat, nat)>, uses: Uses,
                          deps1: seq<DepNode>, active1: set<nat>, instrDeps1: map<nat, (nat, nat)>, waits: seq<nat>, uses': Uses, p: nat)
    requires p < |instrs| && PassOk(instrs, deps, active, instrDeps, uses, p)
    requires Issued(instrs[p], deps, active, instrDeps, deps1, active1, instrDeps1, p)
    requires Effect(instrs[p], uses, uses', waits, |deps|, |deps| + 1)
    ensures forall w :: w in waits ==> Signalled(deps1, active1, w, p) && w < |deps| && w < |deps1|
    ensures forall d :: 0 <= d < |deps1| ==> deps1[d].firstWait != Some(p)
  {
    hide IsUse, EffectOn;
    IssuePrefix(instrs[p], deps, active, instrDeps, deps1, active1, instrDeps1, p);
    forall w | w in waits
      ensures Signalled(deps1, active1, w, p) && w < |deps|
    {
      assert IsUse(uses, w);
      IssueKeeps(deps, deps1, w, p);
    }
  }

  lemma OtherPassOk(instrs: seq<Instr>, deps: seq<DepNode>, active: set<nat>, instrDeps: map<nat, (nat, nat)>, uses: Uses,
                    deps1: seq<DepNode>, active1: set<nat>, instrDeps1: map<nat, (nat, nat)>, waits: seq<nat>,
                    deps': seq<DepNode>, active': set<nat>, uses': Uses, p: nat)
    requires p < |instrs| && PassOk(instrs, deps, active, instrDeps, uses, p) && !instrs[p].isBranch
    requires Issued(instrs[p], deps, active, instrDeps, deps1, active1, instrDeps1, p)
    requires Effect(instrs[p], uses, uses', waits, |deps|, |deps| + 1)
    requires WaitsAdded(deps1, active1, deps', active', waits, p)
    ensures PassOk(instrs, deps', active', instrDeps1, uses', p + 1)
  {
    hide WaitsAdded, NodesOk, ActiveOk, AllTracked, AllSignalled, BranchesWait, IsUse, CoveredRead, Effect, Issued, Signalled;
    WaitsAreSignalled(instrs, deps, active, instrDeps, uses, deps1, active1, instrDeps1, waits, uses', p);
    IssueNumbers(instrs, deps, active, instrDeps, deps1, active1, instrDeps1, p);
    OwnDeps(instrs[p], deps, active, instrDeps, deps1, active1, instrDeps1, p, instrs);
    WaitsStayLater(instrs, deps1, active1, instrDeps1, waits, deps', active', p);
    WaitsKeepNodes(deps1, active1, waits, deps', active', p);
    UsesGrow(instrs[p], uses, uses', waits, |deps|);
    StepSignals(instrs, deps, active, instrDeps, uses, deps1, active1, instrDeps1, waits, deps', active', uses', p);
    StepTracks(instrs, deps, active, instrDeps, uses, deps1, active1, instrDeps1, waits, deps', active', uses', p, |deps|, |deps| + 1);
    StepBranches(instrs, deps, active, instrDeps, uses, deps1, active1, instrDeps1, waits, deps', active', p);
  }

  lemma OwnDeps(instr: Instr, deps: seq<DepNode>, active: set<nat>, instrDeps: map<nat, (nat, nat)>,
                deps1: seq<DepNode>, active1: set<nat>, instrDeps1: map<nat, (nat, nat)>, p: nat, instrs: seq<Instr>)
    requires Issued(instr, deps, active, instrDeps, deps1, active1, instrDeps1, p) && Numbered(instrs, deps, instrDeps, p)
    ensures p in instrDeps1 ==> instrDeps1[p].0 >= |deps| && instrDeps1[p].1 >= |deps|
  {
  }

  lemma UsesGrow(instr: Instr, uses: Uses, uses': Uses, waits: seq<nat>, n: nat)
    requires Effect(instr, uses, uses', waits, n, n + 1)
    ensures forall d :: IsUse(uses', d) ==> IsUse(uses, d) || NewSignal(instr, n, d)
  {
    forall d | IsUse(uses', d)
      ensures IsUse(uses, d) || NewSignal(instr, n, d)
    {
      var r :| d in Use(uses', r).Deps();
      assert EffectOn(instr, r, Use(uses, r), Use(uses', r), waits, n, n + 1);
    }
  }

  /** The first pass: finds for every dependency the first instruction that has to wait for it. */
  method CollectDeps(instrs: seq<Instr>) returns (g: DepGraph)
    requires ProgramOk(instrs)
    ensures fresh(g) && exists uses :: GraphAt(instrs, g, uses, |instrs|)
  {
    hide PassOk;
    g := new DepGraph();
    var uses: Uses := map[];
    EmptyPassOk(instrs);
    for p := 0 to |instrs|
      invariant fresh(g) && GraphAt(instrs, g, uses, p)
    {
      if instrs[p].isBranch {
        VisitBranch(instrs, g, uses, p);
      } else {
        uses := VisitOther(instrs, g, uses, p);
      }
    }
  }

  lemma EmptyPassOk(instrs: seq<Instr>)
    requires ProgramOk(instrs)
    ensures PassOk(instrs, [], {}, map[], map[], 0)
  {
  }
}
