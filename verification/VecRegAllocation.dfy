/** Makes room for vector operands by moving values around in one parallel copy
    (crates/deko-nak/src/assign_regs.rs). */
module VecRegAllocation {
  import opened Machine
  import opened RegAllocation

  /** What the allocator knows at one moment: where values are, which registers may not be disturbed,
      the copies so far, and the values that were pushed out and still wait in their old registers. */
  datatype View = View(regs: map<Ssa, nat>, pinned: set<nat>, copies: seq<Copy>, evicted: map<Ssa, nat>)

  function RegCopy(file: RegFile, dst: nat, src: nat): Copy {
    Copy(Reg(file, dst), FromReg(Reg(file, src)))
  }

  /** Performing `copies` all at once puts the value that `start` has for `v` into register `loc`. */
  ghost predicate ArrivesAt(file: RegFile, start: map<Ssa, nat>, copies: seq<Copy>, v: Ssa, loc: nat) {
    && v in start
    && ((start[v] == loc && !IsDst(copies, Reg(file, loc))) || RegCopy(file, loc, start[v]) in copies)
  }

  /** Every copy reads the old register of a value and writes a pinned register; no register is written twice. */
  ghost predicate CopiesOk(file: RegFile, numRegs: nat, start: map<Ssa, nat>, w: View) {
    && DistinctDsts(w.copies)
    && forall i :: 0 <= i < |w.copies| ==> CopyOk(file, numRegs, start, w.pinned, w.copies[i])
  }

  ghost predicate CopyOk(file: RegFile, numRegs: nat, start: map<Ssa, nat>, pinned: set<nat>, c: Copy) {
    && c.dst.file == file && c.dst.idx < numRegs && c.dst.idx in pinned
    && exists v :: v in start && c.src == FromReg(Reg(file, start[v]))
  }

  /** A value in an unpinned register has not been moved. */
  ghost predicate Unmoved(start: map<Ssa, nat>, w: View) {
    forall v :: v in w.regs && w.regs[v] !in w.pinned ==> v in start && w.regs[v] == start[v]
  }

  ghost predicate Placed(file: RegFile, start: map<Ssa, nat>, w: View) {
    forall v :: v in w.regs && v in start ==> ArrivesAt(file, start, w.copies, v, w.regs[v])
  }

  ghost predicate EvictedOk(start: map<Ssa, nat>, w: View) {
    forall v :: v in w.evicted ==> v !in w.regs && v in start && w.evicted[v] == start[v]
  }

  ghost predicate Ok(file: RegFile, numRegs: nat, start: map<Ssa, nat>, w: View) {
    && IsAssignment(file, numRegs, w.regs) && IsAssignment(file, numRegs, start)
    && CopiesOk(file, numRegs, start, w) && Unmoved(start, w) && Placed(file, start, w) && EvictedOk(start, w)
  }

  /** Later work leaves pinned registers alone: their values stay and no copy writes them. */
  ghost predicate Grows(w: View, w': View) {
    && w.pinned <= w'.pinned && w.copies <= w'.copies
    && (forall i :: |w.copies| <= i < |w'.copies| ==> w'.copies[i].dst.idx !in w.pinned)
    && (forall v :: v in w.regs && w.regs[v] in w.pinned ==> v in w'.regs && w'.regs[v] == w.regs[v])
  }

  lemma GrowsSelf(w: View)
    ensures Grows(w, w)
  {
  }

  lemma GrowsTrans(a: View, b: View, c: View)
    requires Grows(a, b) && Grows(b, c)
    ensures Grows(a, c)
  {
    forall i | |a.copies| <= i < |c.copies|
      ensures c.copies[i].dst.idx !in a.pinned
    {
      if i < |b.copies| {
        assert b.copies[i] == c.copies[i];
      }
    }
  }

  function Values(w: View): set<Ssa> {
    w.regs.Keys + w.evicted.Keys
  }

  // ----- The steps -----

  /** Pushes `v` out of its register. */
  function Evict(w: View, v: Ssa): View
    requires v in w.regs
  {
    w.(regs := w.regs - {v}, evicted := w.evicted[v := w.regs[v]])
  }

  /** Copies the evicted `v` to register `reg`. */
  function Move(file: RegFile, w: View, v: Ssa, reg: nat): View
    requires v in w.evicted
  {
    View(w.regs[v := reg], w.pinned + {reg}, w.copies + [RegCopy(file, reg, w.evicted[v])], w.evicted - {v})
  }

  function Pin(w: View, reg: nat): View {
    w.(pinned := w.pinned + {reg})
  }

  /** Gives the new value `v` register `reg`. */
  function Assign(w: View, v: Ssa, reg: nat): View {
    w.(regs := w.regs[v := reg], pinned := w.pinned + {reg})
  }

  function Free(w: View, v: Ssa): View {
    w.(regs := w.regs - {v})
  }

  lemma EvictOk(file: RegFile, numRegs: nat, start: map<Ssa, nat>, w: View, v: Ssa)
    requires Ok(file, numRegs, start, w) && v in w.regs && w.regs[v] !in w.pinned
    ensures Ok(file, numRegs, start, Evict(w, v)) && Grows(w, Evict(w, v)) && Values(Evict(w, v)) == Values(w)
  {
    assert CopiesOk(file, numRegs, start, Evict(w, v));
    assert v in start && w.regs[v] == start[v];
  }

  lemma PushCopy(copies: seq<Copy>, c: Copy)
    ensures forall r :: IsDst(copies + [c], r) <==> IsDst(copies, r) || c.dst == r
    ensures forall d :: d in copies + [c] <==> d in copies || d == c
  {
    forall r
      ensures IsDst(copies + [c], r) <==> IsDst(copies, r) || c.dst == r
    {
      if IsDst(copies, r) {
        var i :| 0 <= i < |copies| && copies[i].dst == r;
        assert (copies + [c])[i].dst == r;
      }
      assert (copies + [c])[|copies|] == c;
    }
  }

  lemma MoveKeepsCopies(file: RegFile, numRegs: nat, start: map<Ssa, nat>, w: View, v: Ssa, reg: nat)
    requires CopiesOk(file, numRegs, start, w) && v in w.evicted && v in start && w.evicted[v] == start[v] && reg !in w.pinned && reg < numRegs
    ensures CopiesOk(file, numRegs, start, Move(file, w, v, reg)) && Grows(w.(regs := map[]), Move(file, w, v, reg))
  {
    var w' := Move(file, w, v, reg);
    forall i | 0 <= i < |w'.copies|
      ensures CopyOk(file, numRegs, start, w'.pinned, w'.copies[i])
      ensures i < |w.copies| ==> w'.copies[i].dst != w'.copies[|w.copies|].dst
    {
      if i < |w.copies| {
        assert w'.copies[i] == w.copies[i];
        assert CopyOk(file, numRegs, start, w.pinned, w.copies[i]);
      }
    }
  }

  lemma MoveKeepsPlaces(file: RegFile, start: map<Ssa, nat>, w: View, v: Ssa, reg: nat)
    requires Placed(file, start, w) && v in w.evicted && v in start && w.evicted[v] == start[v]
    requires forall u :: u in w.regs ==> w.regs[u] != reg
    ensures Placed(file, start, Move(file, w, v, reg))
  {
    var w' := Move(file, w, v, reg);
    PushCopy(w.copies, RegCopy(file, reg, w.evicted[v]));
    forall u | u in w'.regs && u in start
      ensures ArrivesAt(file, start, w'.copies, u, w'.regs[u])
    {
      if u != v {
        assert ArrivesAt(file, start, w.copies, u, w.regs[u]);
      }
    }
  }

  lemma MoveOk(file: RegFile, numRegs: nat, start: map<Ssa, nat>, w: View, v: Ssa, reg: nat)
    requires Ok(file, numRegs, start, w) && v in w.evicted && reg < numRegs && reg !in w.pinned
    requires forall u :: u in w.regs ==> w.regs[u] != reg
    ensures Ok(file, numRegs, start, Move(file, w, v, reg)) && Grows(w, Move(file, w, v, reg))
    ensures Values(Move(file, w, v, reg)) == Values(w)
  {
    MoveKeepsCopies(file, numRegs, start, w, v, reg);
    MoveKeepsPlaces(file, start, w, v, reg);
  }

  lemma PinOk(file: RegFile, numRegs: nat, start: map<Ssa, nat>, w: View, reg: nat)
    requires Ok(file, numRegs, start, w)
    ensures Ok(file, numRegs, start, Pin(w, reg)) && Grows(w, Pin(w, reg))
  {
    assert CopiesOk(file, numRegs, start, Pin(w, reg)) by {
      forall i | 0 <= i < |w.copies|
        ensures CopyOk(file, numRegs, start, Pin(w, reg).pinned, w.copies[i])
      {
        assert CopyOk(file, numRegs, start, w.pinned, w.copies[i]);
      }
    }
  }

  lemma AssignOk(file: RegFile, numRegs: nat, start: map<Ssa, nat>, w: View, v: Ssa, reg: nat)
    requires Ok(file, numRegs, start, w) && v !in start && v !in w.regs && v.file == file && reg < numRegs
    requires forall u :: u in w.regs ==> w.regs[u] != reg
    ensures Ok(file, numRegs, start, Assign(w, v, reg)) && Grows(w, Assign(w, v, reg))
  {
    PinOk(file, numRegs, start, w, reg);
    assert CopiesOk(file, numRegs, start, Assign(w, v, reg)) by {
      assert CopiesOk(file, numRegs, start, Pin(w, reg));
    }
  }

  lemma FreeOk(file: RegFile, numRegs: nat, start: map<Ssa, nat>, w: View, v: Ssa)
    requires Ok(file, numRegs, start, w) && v in w.regs
    ensures Ok(file, numRegs, start, Free(w, v)) && Values(Free(w, v)) + {v} == Values(w)
  {
    assert CopiesOk(file, numRegs, start, Free(w, v));
  }

  /** A value that arrives in a pinned register is not disturbed any more. */
  lemma ArrivalStays(file: RegFile, start: map<Ssa, nat>, w: View, w': View, v: Ssa, loc: nat)
    requires ArrivesAt(file, start, w.copies, v, loc) && loc in w.pinned
    requires w.copies <= w'.copies && forall i :: |w.copies| <= i < |w'.copies| ==> w'.copies[i].dst.idx !in w.pinned
    ensures ArrivesAt(file, start, w'.copies, v, loc)
  {
    if IsDst(w'.copies, Reg(file, loc)) {
      var i :| 0 <= i < |w'.copies| && w'.copies[i].dst == Reg(file, loc);
      assert i < |w.copies| && w.copies[i] == w'.copies[i];
      assert IsDst(w.copies, Reg(file, loc));
    }
    if RegCopy(file, loc, start[v]) in w.copies {
      var i :| 0 <= i < |w.copies| && w.copies[i] == RegCopy(file, loc, start[v]);
      assert w'.copies[i] == w.copies[i];
    }
  }

  /** The first `n` components of `vec` sit in consecutive registers from `reg` and are pinned there. */
  ghost predicate HeldUpTo(w: View, vec: seq<Ssa>, reg: nat, n: nat)
    requires n <= |vec|
  {
    forall c: nat {:trigger Comp(reg, c)} {:trigger vec[c]} :: c < n ==>
      vec[c] in w.regs && w.regs[vec[c]] == Comp(reg, c) && Comp(reg, c) in w.pinned
  }

  ghost predicate Held(w: View, vec: seq<Ssa>, reg: nat) {
    HeldUpTo(w, vec, reg, |vec|)
  }

  lemma HeldStays(w: View, w': View, vec: seq<Ssa>, reg: nat, n: nat)
    requires n <= |vec| && HeldUpTo(w, vec, reg, n) && Grows(w, w')
    ensures HeldUpTo(w', vec, reg, n)
  {
    forall c: nat | c < n
      ensures vec[c] in w'.regs && w'.regs[vec[c]] == Comp(reg, c) && Comp(reg, c) in w'.pinned
    {
      assert w.regs[vec[c]] == Comp(reg, c) && Comp(reg, c) in w.pinned;
    }
  }

  lemma HeldOneMore(w: View, vec: seq<Ssa>, reg: nat, n: nat)
    requires n < |vec| && HeldUpTo(w, vec, reg, n)
    requires vec[n] in w.regs && w.regs[vec[n]] == Comp(reg, n) && Comp(reg, n) in w.pinned
    ensures HeldUpTo(w, vec, reg, n + 1)
  {
  }

  lemma HeldWhenPinned(w: View, vec: seq<Ssa>, reg: nat)
    requires InVector(w.regs, vec, reg) && forall r :: reg <= r < reg + |vec| ==> r in w.pinned
    ensures Held(w, vec, reg)
  {
  }

  lemma UnsetInSubset(small: set<nat>, large: set<nat>, reg: nat, comps: nat)
    requires small <= large && RangeUnset(large, reg, comps)
    ensures RangeUnset(small, reg, comps)
  {
  }

  /** The largest multiple of `align` not above `reg`. */
  function AlignDown(reg: nat, align: nat): (r: nat)
    requires align > 0
    ensures r <= reg && r % align == 0
    ensures forall q :: r < q <= reg ==> q % align != 0
  {
    if reg % align == 0 then reg else AlignDown(reg - 1, align)
  }

  class VecRegAllocator {
    const ra: RegAllocator
    var pcopy: seq<Copy>
    var pinned: set<nat>
    var evicted: map<Ssa, nat>
    /** Where the values were before the first move. */
    ghost const start: map<Ssa, nat>

    ghost function Now(): View
      reads this, ra
    {
      View(ra.ssaReg, pinned, pcopy, evicted)
    }

    ghost predicate Inv()
      reads this, ra
    {
      ra.Valid() && ra.pinned <= pinned && Ok(ra.file, ra.numRegs, start, Now())
    }

    /** So far every pinned register is in use. */
    ghost predicate Tight()
      reads this, ra
    {
      pinned <= ra.used
    }

    constructor (ra: RegAllocator)
      requires ra.Valid()
      ensures Inv() && Tight() && this.ra == ra && start == ra.ssaReg
      ensures Now() == View(ra.ssaReg, ra.pinned, [], map[])
    {
      this.ra := ra;
      pcopy := [];
      pinned := ra.pinned;
      evicted := map[];
      start := ra.ssaReg;
      new;
      ra.Injective();
    }

    method PinReg(reg: nat)
      requires Inv()
      modifies this`pinned
      ensures Inv() && Now() == Pin(old(Now()), reg) && Grows(old(Now()), Now()) && Values(Now()) == old(Values(Now()))
    {
      PinOk(ra.file, ra.numRegs, start, Now(), reg);
      pinned := pinned + {reg};
    }

    method PinRegRange(reg: nat, comps: nat)
      requires Inv()
      modifies this`pinned
      ensures Inv() && Grows(old(Now()), Now()) && Values(Now()) == old(Values(Now()))
      ensures forall r :: r in pinned <==> r in old(pinned) || reg <= r < reg + comps
    {
      for c := 0 to comps
        invariant Inv() && Grows(old(Now()), Now()) && Values(Now()) == old(Values(Now()))
        invariant forall r :: r in pinned <==> r in old(pinned) || reg <= r < reg + c
      {
        ghost var before := Now();
        PinReg(Comp(reg, c));
        GrowsTrans(old(Now()), before, Now());
      }
    }

    /** Places a new value in a free register. */
    method AssignPinReg(ssa: Ssa, reg: nat)
      requires Inv() && ssa.file == ra.file && ssa !in start && ssa !in ra.ssaReg && reg < ra.numRegs && reg !in ra.used
      modifies this`pinned, ra
      ensures Inv() && Now() == Assign(old(Now()), ssa, reg) && Grows(old(Now()), Now())
      ensures ra.used == old(ra.used) + {reg} && ra.pinned == old(ra.pinned)
    {
      ra.Injective();
      AssignOk(ra.file, ra.numRegs, start, Now(), ssa, reg);
      pinned := pinned + {reg};
      ra.AssignReg(ssa, reg);
    }

    /** Pushes out whatever is in an unpinned register. */
    method EvictRegIfUsed(reg: nat)
      requires Inv() && reg !in pinned
      modifies this`evicted, ra
      ensures Inv() && Grows(old(Now()), Now()) && Values(Now()) == old(Values(Now()))
      ensures reg !in ra.used && ra.used == old(ra.used) - {reg} && ra.pinned == old(ra.pinned)
      ensures ra.ssaReg.Keys <= old(ra.ssaReg.Keys)
    {
      hide CopiesOk, Placed, Unmoved, EvictedOk, IsAssignment;
      var held := ra.TryGetSsa(reg);
      GrowsSelf(Now());
      if held.Some? {
        EvictOk(ra.file, ra.numRegs, start, Now(), held.value);
        var r := ra.FreeSsa(held.value);
        evicted := evicted[held.value := reg];
      }
    }

    /** Copies the value `ssa`, which no longer has a register, from its old one to `newReg`. */
    method CopyToReg(ssa: Ssa, oldReg: nat, newReg: nat)
      requires Inv() && ssa in start && oldReg == start[ssa] && ssa !in ra.ssaReg && ssa !in evicted && ssa.file == ra.file
      requires newReg < ra.numRegs && newReg !in pinned
      modifies this, ra
      ensures Inv() && Grows(old(Now()), Now()) && Values(Now()) == old(Values(Now())) + {ssa}
      ensures ssa in ra.ssaReg && ra.ssaReg[ssa] == newReg && pinned == old(pinned) + {newReg}
      ensures ra.used == old(ra.used) + {newReg} && ra.pinned == old(ra.pinned)
    {
      hide CopiesOk, Placed, Unmoved, EvictedOk, Grows, Values;
      InValues(Now(), ssa);
      EvictRegIfUsed(newReg);
      ghost var mid := Now();
      InValues(mid, ssa);
      ra.Injective();
      ghost var waiting := mid.(evicted := mid.evicted[ssa := oldReg]);
      WaitingOk(ra.file, ra.numRegs, start, mid, ssa);
      MoveOk(ra.file, ra.numRegs, start, waiting, ssa, newReg);
      pcopy := pcopy + [RegCopy(ra.file, newReg, oldReg)];
      pinned := pinned + {newReg};
      ra.AssignReg(ssa, newReg);
      PutAndRemove(mid.evicted, ssa, oldReg);
      assert Now() == Move(ra.file, waiting, ssa, newReg);
      GrowsFromMid(old(Now()), mid, waiting, Now());
    }

    /** Moves a value to an unpinned register.  Fails if the value is pinned elsewhere. */
    method MoveSsaToReg(ssa: Ssa, newReg: nat) returns (ok: bool)
      requires Inv() && ssa in Values(Now()) && newReg < ra.numRegs && newReg !in pinned
      modifies this, ra
      ensures ok ==> Inv() && Grows(old(Now()), Now()) && Values(Now()) == old(Values(Now()))
      ensures ok ==> ssa in ra.ssaReg && ra.ssaReg[ssa] == newReg && pinned == old(pinned) + {newReg}
      ensures ok ==> (old(Tight()) ==> Tight()) && ra.pinned == old(ra.pinned)
    {
      hide CopiesOk, Placed, Unmoved, EvictedOk, Values, Grows;
      assert ssa in ra.ssaReg || ssa in evicted by { InValues(Now(), ssa); }
      EvictedAt(start, Now(), ssa);
      if ssa in ra.ssaReg {
        var oldReg := ra.ssaReg[ssa];
        if oldReg in pinned {
          return false;
        }
        if newReg == oldReg {
          PinReg(newReg);
        } else {
          FreeOk(ra.file, ra.numRegs, start, Now(), ssa);
          UnmovedAt(start, Now(), ssa);
          ghost var was := Now();
          var r := ra.FreeSsa(ssa);
          assert Now() == Free(was, ssa);
          CopyToReg(ssa, oldReg, newReg);
          GrowsAfterFree(was, ssa, Now());
        }
      } else {
        var oldReg := evicted[ssa];
        ghost var was := Now();
        evicted := evicted - {ssa};
        ForgetOk(ra.file, ra.numRegs, start, was, ssa);
        CopyToReg(ssa, oldReg, newReg);
        GrowsAfterForget(was, ssa, Now());
      }
      ok := true;
    }

    method TryFindUnpinnedRegRange(comps: nat, align: nat) returns (r: Option<nat>)
      requires align > 0
      ensures r.Some? ==> r.value + comps <= ra.numRegs && r.value % align == 0 && RangeUnset(pinned, r.value, comps)
    {
      r := TryFindUnset(pinned, ra.numRegs, 0, comps, align);
    }

    /** A place where one component of the vector already is where it has to be. */
    method TryKeepComponent(vec: seq<Ssa>, align: nat) returns (r: Option<nat>)
      requires align > 0
      ensures r.Some? ==> r.value + |vec| <= ra.numRegs && r.value % align == 0 && RangeUnset(pinned, r.value, |vec|)
    {
      for c := 0 to |vec| {
        var compReg := ra.TryGetReg(vec[c]);
        if compReg.Some? {
          var vecReg := AlignDown(compReg.value, align);
          if compReg.value == Comp(vecReg, c) && vecReg + |vec| <= ra.numRegs {
            var unpinned := RegRangeIsUnset(pinned, vecReg, |vec|);
            if unpinned {
              return Some(vecReg);
            }
          }
        }
      }
      return None;
    }

    /** Where to put a vector: unused registers, or else a place that keeps a component where it is, or
        else any unpinned registers. */
    method ChooseRange(vec: seq<Ssa>, align: nat) returns (r: Option<nat>)
      requires align > 0 && Tight()
      ensures r.Some? ==> r.value + |vec| <= ra.numRegs && r.value % align == 0 && RangeUnset(pinned, r.value, |vec|)
    {
      r := ra.TryFindUnusedRegRange(0, |vec|, align);
      if r.Some? {
        UnsetInSubset(pinned, ra.used, r.value, |vec|);
        return;
      }
      r := TryKeepComponent(vec, align);
      if r.None? {
        r := TryFindUnpinnedRegRange(|vec|, align);
      }
    }

    /** Brings the components of `vec` into consecutive aligned registers and pins them there. */
    method CollectVector(vec: seq<Ssa>) returns (ok: bool, reg: nat)
      requires Inv() && Tight() && vec != [] && forall c :: 0 <= c < |vec| ==> vec[c] in Values(Now())
      modifies this, ra
      ensures ok ==> Inv() && Tight() && Grows(old(Now()), Now()) && Values(Now()) == old(Values(Now()))
      ensures ok ==> Held(Now(), vec, reg) && reg % NextPowerOfTwo(|vec|) == 0 && ra.pinned == old(ra.pinned)
    {
      hide Ok, Grows, Values;
      var there := ra.TryGetVecReg(vec);
      if there.Some? {
        reg := there.value;
        InVectorUsed(vec, reg);
        PinRegRange(reg, |vec|);
        HeldWhenPinned(Now(), vec, reg);
        return true, reg;
      }
      var choice := ChooseRange(vec, NextPowerOfTwo(|vec|));
      if choice.None? {
        return false, 0;
      }
      reg := choice.value;
      ok := MoveVector(vec, reg);
    }

    lemma InVectorUsed(vec: seq<Ssa>, reg: nat)
      requires ra.Valid() && InVector(ra.ssaReg, vec, reg)
      ensures forall r :: reg <= r < reg + |vec| ==> r in ra.used
    {
      forall r | reg <= r < reg + |vec|
        ensures r in ra.used
      {
        assert r == Comp(reg, r - reg);
      }
    }

    method MoveVector(vec: seq<Ssa>, reg: nat) returns (ok: bool)
      requires Inv() && Tight() && forall c :: 0 <= c < |vec| ==> vec[c] in Values(Now())
      requires reg + |vec| <= ra.numRegs && RangeUnset(pinned, reg, |vec|)
      modifies this, ra
      ensures ok ==> Inv() && Tight() && Grows(old(Now()), Now()) && Values(Now()) == old(Values(Now()))
      ensures ok ==> Held(Now(), vec, reg) && ra.pinned == old(ra.pinned)
    {
      hide Ok, Grows, Values;
      GrowsSelf(Now());
      for c := 0 to |vec|
        invariant Inv() && Tight() && Grows(old(Now()), Now()) && Values(Now()) == old(Values(Now()))
        invariant HeldUpTo(Now(), vec, reg, c) && ra.pinned == old(ra.pinned)
        invariant forall k: nat {:trigger Comp(reg, k)} :: c <= k < |vec| ==> Comp(reg, k) !in pinned
      {
        ghost var before := Now();
        var moved := MoveSsaToReg(vec[c], Comp(reg, c));
        if !moved {
          return false;
        }
        GrowsTrans(old(Now()), before, Now());
        HeldStays(before, Now(), vec, reg, c);
        HeldOneMore(Now(), vec, reg, c);
      }
      ok := true;
    }

    method AssignComponent(vec: seq<Ssa>, reg: nat, c: nat)
      requires Inv() && c < |vec| && vec[c].file == ra.file && vec[c] !in start && vec[c] !in ra.ssaReg
      requires Comp(reg, c) < ra.numRegs && Comp(reg, c) !in ra.used && HeldUpTo(Now(), vec, reg, c)
      modifies this`pinned, ra
      ensures Inv() && Grows(old(Now()), Now()) && HeldUpTo(Now(), vec, reg, c + 1)
      ensures pinned == old(pinned) + {Comp(reg, c)} && ra.pinned == old(ra.pinned)
      ensures ra.used == old(ra.used) + {Comp(reg, c)} && ra.ssaReg.Keys == old(ra.ssaReg.Keys) + {vec[c]}
    {
      hide Ok, Grows, Values;
      ghost var before := Now();
      AssignPinReg(vec[c], Comp(reg, c));
      HeldStays(before, Now(), vec, reg, c);
      HeldOneMore(Now(), vec, reg, c);
    }

    /** Gives the components of a new vector consecutive free registers. */
    method AssignPinVecReg(vec: seq<Ssa>, reg: nat)
      requires Inv() && IsNew(vec) && reg + |vec| <= ra.numRegs && RangeUnset(ra.used, reg, |vec|)
      modifies this`pinned, ra
      ensures Inv() && Grows(old(Now()), Now()) && Values(Now()) == old(Values(Now())) + Elements(vec)
      ensures Held(Now(), vec, reg) && ra.pinned == old(ra.pinned) && (old(Tight()) ==> Tight())
      ensures ra.used == old(ra.used) + Range(reg, |vec|)
      ensures ra.ssaReg.Keys == old(ra.ssaReg.Keys) + Elements(vec)
    {
      hide Ok, Grows, Values, HeldUpTo, Elements, Range, RegAllocator.Valid;
      GrowsSelf(Now());
      NoneYet(vec, reg);
      for c := 0 to |vec|
        invariant Inv() && Grows(old(Now()), Now()) && evicted == old(evicted)
        invariant HeldUpTo(Now(), vec, reg, c) && ra.pinned == old(ra.pinned) && (old(Tight()) ==> Tight())
        invariant ra.used == old(ra.used) + Range(reg, c)
        invariant ra.ssaReg.Keys == old(ra.ssaReg.Keys) + Elements(vec[..c])
      {
        ghost var before := Now();
        NotYetPlaced(old(Now()).regs, vec, c);
        RangeStep(reg, c);
        assert Comp(reg, c) !in old(ra.used);
        AssignComponent(vec, reg, c);
        GrowsTrans(old(Now()), before, Now());
      }
      assert vec[..|vec|] == vec;
      ValuesAfterAssign(old(Now()), Now(), Elements(vec));
    }

    /** Finds registers for a new vector, pushing values out if it has to. */
    method AllocVector(vec: seq<Ssa>) returns (ok: bool, reg: nat)
      requires Inv() && Tight() && IsNew(vec)
      modifies this, ra
      ensures ok ==> Inv() && Tight() && Grows(old(Now()), Now()) && Values(Now()) == old(Values(Now())) + Elements(vec)
      ensures ok ==> Held(Now(), vec, reg) && reg % NextPowerOfTwo(|vec|) == 0 && ra.pinned == old(ra.pinned)
    {
      hide Ok, Grows, Values;
      var free := ra.TryFindUnusedRegRange(0, |vec|, NextPowerOfTwo(|vec|));
      if free.Some? {
        reg := free.value;
        AssignPinVecReg(vec, reg);
        return true, reg;
      }
      free := TryFindUnpinnedRegRange(|vec|, NextPowerOfTwo(|vec|));
      if free.None? {
        return false, 0;
      }
      reg := free.value;
      EvictRange(vec, reg);
      ghost var mid := Now();
      AssignPinVecReg(vec, reg);
      GrowsTrans(old(Now()), mid, Now());
      ok := true;
    }

    method EvictRange(vec: seq<Ssa>, reg: nat)
      requires Inv() && Tight() && RangeUnset(pinned, reg, |vec|) && IsNew(vec)
      modifies this`evicted, ra
      ensures Inv() && Tight() && Grows(old(Now()), Now()) && Values(Now()) == old(Values(Now()))
      ensures RangeUnset(ra.used, reg, |vec|) && ra.pinned == old(ra.pinned) && IsNew(vec)
    {
      hide Ok, Grows, Values, RegAllocator.Valid;
      GrowsSelf(Now());
      for c := 0 to |vec|
        invariant Inv() && Tight() && Grows(old(Now()), Now()) && Values(Now()) == old(Values(Now()))
        invariant RangeUnset(ra.used, reg, c) && ra.pinned == old(ra.pinned)
        invariant ra.ssaReg.Keys <= old(ra.ssaReg.Keys)
      {
        ghost var before := Now();
        assert Comp(reg, c) !in pinned;
        EvictRegIfUsed(Comp(reg, c));
        GrowsTrans(old(Now()), before, Now());
      }
    }

    /** Releases the registers of values that die here. */
    method FreeKilled(killed: seq<Ssa>)
      requires Inv() && (forall i, j :: 0 <= i < j < |killed| ==> killed[i] != killed[j])
      requires forall v :: v in killed && v.file == ra.file ==> v in ra.ssaReg
      modifies ra
      ensures Inv() && pcopy == old(pcopy) && pinned == old(pinned) && evicted == old(evicted)
      ensures ra.ssaReg == old(ra.ssaReg) - Elements(killed)
    {
      hide Ok;
      assert killed[..0] == [];
      for i := 0 to |killed|
        invariant Inv()
        invariant ra.ssaReg == old(ra.ssaReg) - Elements(killed[..i])
      {
        NotYetPlaced(map[], killed, i);
        if killed[i].file == ra.file {
          FreeOk(ra.file, ra.numRegs, start, Now(), killed[i]);
          ghost var was := Now();
          var r := ra.FreeSsa(killed[i]);
          assert Now() == Free(was, killed[i]);
        } else {
          OnlyOwnFile(killed[i]);
        }
      }
      assert killed[..|killed|] == killed;
    }

    lemma OnlyOwnFile(v: Ssa)
      requires ra.Valid() && v.file != ra.file
      ensures v !in ra.ssaReg
    {
    }

    /** The evicted value whose old register is the lowest. */
    method NextEvicted() returns (ssa: Ssa)
      requires evicted != map[]
      ensures ssa in evicted && forall v :: v in evicted ==> evicted[ssa] <= evicted[v]
    {
      ssa :| ssa in evicted;
      var rest := evicted.Keys;
      while rest != {}
        invariant rest <= evicted.Keys && ssa in evicted
        invariant forall v :: v in evicted && v !in rest ==> evicted[ssa] <= evicted[v]
        decreases rest
      {
        var v :| v in rest;
        if evicted[v] < evicted[ssa] {
          ssa := v;
        }
        rest := rest - {v};
      }
    }

    /** A register that is neither used nor pinned. */
    method FindFreeReg() returns (r: Option<nat>)
      requires Inv()
      ensures r.Some? ==> r.value < ra.numRegs && r.value !in ra.used && r.value !in pinned
    {
      hide Ok;
      var nextReg := 0;
      while true
        decreases ra.numRegs - nextReg
      {
        r := ra.TryFindUnusedRegRange(nextReg, 1, 1);
        if r.None? {
          return;
        }
        assert Comp(r.value, 0) !in ra.used;
        if r.value !in pinned {
          return;
        }
        nextReg := r.value + 1;
      }
    }

    /** Finds new registers for everything that is still evicted. */
    method Finish() returns (ok: bool)
      requires Inv()
      modifies this, ra
      ensures ok ==> Inv() && evicted == map[] && Grows(old(Now()), Now()) && ra.ssaReg.Keys == old(Values(Now()))
      ensures ok ==> ra.pinned == old(ra.pinned)
    {
      hide Ok, Grows;
      GrowsSelf(Now());
      while evicted != map[]
        invariant Inv() && Grows(old(Now()), Now()) && Values(Now()) == old(Values(Now())) && ra.pinned == old(ra.pinned)
        decreases evicted.Keys
      {
        var ssa := NextEvicted();
        var newReg := FindFreeReg();
        if newReg.None? {
          return false;
        }
        ghost var before := Now();
        PlaceEvicted(ssa, newReg.value);
        GrowsTrans(old(Now()), before, Now());
      }
      ok := true;
    }

    method PlaceEvicted(ssa: Ssa, newReg: nat)
      requires Inv() && ssa in evicted && newReg < ra.numRegs && newReg !in ra.used && newReg !in pinned
      modifies this, ra
      ensures Inv() && Now() == Move(ra.file, old(Now()), ssa, newReg) && ra.pinned == old(ra.pinned)
      ensures Grows(old(Now()), Now()) && Values(Now()) == old(Values(Now()))
    {
      hide CopiesOk, Placed, Unmoved, Grows, Values;
      ra.Injective();
      EvictedAt(start, Now(), ssa);
      MoveOk(ra.file, ra.numRegs, start, Now(), ssa, newReg);
      pcopy := pcopy + [RegCopy(ra.file, newReg, evicted[ssa])];
      evicted := evicted - {ssa};
      pinned := pinned + {newReg};
      ra.AssignReg(ssa, newReg);
    }

    ghost predicate IsNew(vec: seq<Ssa>)
      reads this, ra
    {
      && (forall c :: 0 <= c < |vec| ==> vec[c].file == ra.file && vec[c] !in start && vec[c] !in ra.ssaReg)
      && (forall c, d :: 0 <= c < d < |vec| ==> vec[c] != vec[d])
    }
  }

  lemma UnmovedAt(start: map<Ssa, nat>, w: View, v: Ssa)
    requires Unmoved(start, w) && v in w.regs && w.regs[v] !in w.pinned
    ensures v in start && w.regs[v] == start[v]
  {
  }

  lemma EvictedAt(start: map<Ssa, nat>, w: View, v: Ssa)
    requires EvictedOk(start, w)
    ensures v in w.evicted ==> v in start && w.evicted[v] == start[v] && v !in w.regs
  {
  }

  ghost function Elements(vec: seq<Ssa>): set<Ssa> {
    set v | v in vec
  }

  ghost function Range(reg: nat, n: nat): set<nat> {
    set c: nat | c < n :: Comp(reg, c)
  }

  lemma RangeStep(reg: nat, n: nat)
    ensures Range(reg, n + 1) == Range(reg, n) + {Comp(reg, n)} && Comp(reg, n) !in Range(reg, n)
  {
  }

  lemma NoneYet(vec: seq<Ssa>, reg: nat)
    ensures Elements(vec[..0]) == {} && Range(reg, 0) == {} && forall w :: HeldUpTo(w, vec, reg, 0)
  {
  }

  lemma NotYetPlaced(m: map<Ssa, nat>, vec: seq<Ssa>, c: nat)
    requires c < |vec| && vec[c] !in m && forall d, e :: 0 <= d < e < |vec| ==> vec[d] != vec[e]
    ensures vec[c] !in m.Keys + Elements(vec[..c])
    ensures Elements(vec[..c + 1]) == Elements(vec[..c]) + {vec[c]}
  {
    assert vec[..c + 1] == vec[..c] + [vec[c]];
  }

  lemma ValuesAfterAssign(w: View, w': View, added: set<Ssa>)
    requires w'.regs.Keys == w.regs.Keys + added && w'.evicted == w.evicted
    ensures Values(w') == Values(w) + added
  {
  }

  lemma InValues(w: View, v: Ssa)
    ensures v in Values(w) <==> v in w.regs || v in w.evicted
  {
  }

  lemma PutAndRemove(m: map<Ssa, nat>, v: Ssa, reg: nat)
    requires v !in m
    ensures m[v := reg] - {v} == m
  {
  }

  lemma ForgetOk(file: RegFile, numRegs: nat, start: map<Ssa, nat>, w: View, v: Ssa)
    requires Ok(file, numRegs, start, w)
    ensures Ok(file, numRegs, start, w.(evicted := w.evicted - {v}))
    ensures v in w.evicted ==> Values(w.(evicted := w.evicted - {v})) + {v} == Values(w)
  {
    assert CopiesOk(file, numRegs, start, w.(evicted := w.evicted - {v}));
  }

  lemma GrowsAfterForget(w: View, v: Ssa, w': View)
    requires Grows(w.(evicted := w.evicted - {v}), w')
    ensures Grows(w, w')
  {
  }

  lemma WaitingOk(file: RegFile, numRegs: nat, start: map<Ssa, nat>, w: View, v: Ssa)
    requires Ok(file, numRegs, start, w) && v in start && v !in w.regs
    ensures Ok(file, numRegs, start, w.(evicted := w.evicted[v := start[v]]))
    ensures Values(w.(evicted := w.evicted[v := start[v]])) == Values(w) + {v}
  {
    assert CopiesOk(file, numRegs, start, w.(evicted := w.evicted[v := start[v]]));
  }

  lemma GrowsFromMid(a: View, mid: View, waiting: View, b: View)
    requires Grows(a, mid) && Grows(waiting, b)
    requires mid.regs == waiting.regs && mid.pinned == waiting.pinned && mid.copies == waiting.copies
    ensures Grows(a, b)
  {
    GrowsTrans(a, mid, waiting);
    GrowsTrans(a, waiting, b);
  }

  lemma GrowsAfterFree(w: View, v: Ssa, w': View)
    requires v in w.regs && w.regs[v] !in w.pinned && Grows(Free(w, v), w')
    ensures Grows(w, w')
  {
  }
}
