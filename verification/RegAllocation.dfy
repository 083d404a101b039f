/** One register file's allocation state (crates/deko-nak/src/assign_regs.rs). */
module RegAllocation {
  import opened Machine

  datatype Ssa = Ssa(file: RegFile, id: nat)

  /** Every value has its own register of the file. */
  ghost predicate IsAssignment(file: RegFile, numRegs: nat, m: map<Ssa, nat>) {
    && (forall v :: v in m ==> v.file == file && m[v] < numRegs)
    && (forall u, v :: u in m && v in m && m[u] == m[v] ==> u == v)
  }

  function NextPowerOfTwo(n: nat): (p: nat)
    ensures p >= n && p >= 1
  {
    Doubled(n, 1)
  }

  function Doubled(n: nat, p: nat): (r: nat)
    requires p >= 1
    ensures r >= n && r >= p
    decreases n - p
  {
    if p >= n then p else Doubled(n, 2 * p)
  }

  /** None of the registers `reg .. reg + comps` is in `regs`. */
  ghost predicate RangeUnset(regs: set<nat>, reg: nat, comps: nat) {
    forall c: nat {:trigger Comp(reg, c)} :: c < comps ==> Comp(reg, c) !in regs
  }

  /** Component `c` of a vector register. */
  function Comp(reg: nat, c: nat): nat {
    reg + c
  }

  method RegRangeIsUnset(regs: set<nat>, reg: nat, comps: nat) returns (unset: bool)
    ensures unset <==> RangeUnset(regs, reg, comps)
  {
    for c := 0 to comps
      invariant RangeUnset(regs, reg, c)
    {
      if Comp(reg, c) in regs {
        return false;
      }
    }
    return true;
  }

  /** The least aligned run of unset registers at or after `start` that fits the register file. */
  method TryFindUnset(regs: set<nat>, numRegs: nat, start: nat, comps: nat, align: nat) returns (r: Option<nat>)
    requires align > 0
    ensures r.Some? ==> start <= r.value && r.value + comps <= numRegs && r.value % align == 0 && RangeUnset(regs, r.value, comps)
    ensures forall q: nat {:trigger RangeUnset(regs, q, comps)} ::
              start <= q && q + comps <= numRegs && q % align == 0 && RangeUnset(regs, q, comps) ==> r.Some? && r.value <= q
  {
    r := None;
    var q := start;
    while q + comps <= numRegs
      invariant start <= q
      invariant forall p: nat {:trigger RangeUnset(regs, p, comps)} :: start <= p < q && p % align == 0 ==> !RangeUnset(regs, p, comps)
      decreases numRegs - q
    {
      var unset := RegRangeIsUnset(regs, q, comps);
      if q % align == 0 && unset {
        return Some(q);
      }
      q := q + 1;
    }
  }

  class RegAllocator {
    const file: RegFile
    const numRegs: nat
    var used: set<nat>
    var pinned: set<nat>
    var regSsa: seq<Option<Ssa>>
    var ssaReg: map<Ssa, nat>

    /** The two tables are inverse to each other on the used registers. */
    ghost predicate Valid()
      reads this
    {
      && (forall r :: r in used ==> HeldIn(r))
      && (forall v :: v in ssaReg ==> v.file == file && ssaReg[v] < numRegs && ssaReg[v] in used && Holder(ssaReg[v]) == Some(v))
      && pinned <= used
    }

    ghost predicate HeldIn(r: nat)
      reads this
    {
      Holder(r).Some? && Holder(r).value in ssaReg && ssaReg[Holder(r).value] == r
    }

    ghost function Holder(r: nat): Option<Ssa>
      reads this
    {
      if r < |regSsa| then regSsa[r] else None
    }

    constructor (file: RegFile, numRegs: nat)
      ensures Valid() && ssaReg == map[] && pinned == {} && this.file == file && this.numRegs == numRegs
    {
      this.file := file;
      this.numRegs := numRegs;
      used := {};
      pinned := {};
      regSsa := [];
      ssaReg := map[];
    }

    lemma Injective()
      requires Valid()
      ensures IsAssignment(file, numRegs, ssaReg)
      ensures forall r :: r in used <==> r in ssaReg.Values
    {
      forall r | r in used
        ensures r in ssaReg.Values
      {
        assert HeldIn(r);
      }
    }

    function TryGetReg(ssa: Ssa): (r: Option<nat>)
      reads this
      ensures r.Some? <==> ssa in ssaReg
    {
      if ssa in ssaReg then Some(ssaReg[ssa]) else None
    }

    function TryGetSsa(reg: nat): (r: Option<Ssa>)
      requires Valid()
      reads this
      ensures r.Some? ==> r.value in ssaReg && ssaReg[r.value] == reg
      ensures r.None? ==> forall v :: v in ssaReg ==> ssaReg[v] != reg
    {
      if reg in used then
        assert HeldIn(reg);
        regSsa[reg]
      else None
    }

    method FreeSsa(ssa: Ssa) returns (reg: nat)
      requires Valid() && ssa in ssaReg
      modifies this
      ensures Valid() && ssaReg == old(ssaReg) - {ssa} && reg == old(ssaReg[ssa])
      ensures used == old(used) - {reg} && pinned == old(pinned) - {reg}
    {
      reg := ssaReg[ssa];
      ssaReg := ssaReg - {ssa};
      used := used - {reg};
      pinned := pinned - {reg};
      assert forall r :: r in used ==> old(HeldIn(r)) && Holder(r).value != ssa;
    }

    method AssignReg(ssa: Ssa, reg: nat)
      requires Valid() && ssa.file == file && ssa !in ssaReg && reg < numRegs && reg !in used
      modifies this
      ensures Valid() && ssaReg == old(ssaReg)[ssa := reg]
      ensures used == old(used) + {reg} && pinned == old(pinned)
    {
      if reg >= |regSsa| {
        regSsa := regSsa + seq(reg + 1 - |regSsa|, i => None);
      }
      regSsa := regSsa[reg := Some(ssa)];
      ssaReg := ssaReg[ssa := reg];
      used := used + {reg};
      assert forall r: nat :: r in old(used) ==> old(HeldIn(r)) && Holder(r) == old(Holder(r));
    }

    method PinReg(reg: nat)
      requires Valid() && reg in used
      modifies this`pinned
      ensures Valid() && pinned == old(pinned) + {reg}
    {
      pinned := pinned + {reg};
    }

    /** The register of a vector whose components lie next to each other and aligned. */
    method TryGetVecReg(vec: seq<Ssa>) returns (r: Option<nat>)
      requires vec != []
      ensures r.Some? ==> r.value % NextPowerOfTwo(|vec|) == 0 && InVector(ssaReg, vec, r.value)
      ensures |vec| == 1 && vec[0] in ssaReg ==> r.Some?
      ensures vec[0] in ssaReg && ssaReg[vec[0]] % NextPowerOfTwo(|vec|) == 0 && InVector(ssaReg, vec, ssaReg[vec[0]]) ==> r.Some?
      ensures r.Some? ==> r.value == ssaReg[vec[0]]
    {
      if vec[0] !in ssaReg {
        return None;
      }
      var reg := ssaReg[vec[0]];
      if reg % NextPowerOfTwo(|vec|) != 0 {
        return None;
      }
      for c := 1 to |vec|
        invariant forall k: nat {:trigger Comp(reg, k)} {:trigger vec[k]} :: k < c ==> vec[k] in ssaReg && ssaReg[vec[k]] == Comp(reg, k)
      {
        var compReg := TryGetReg(vec[c]);
        if compReg.None? || compReg.value != Comp(reg, c) {
          return None;
        }
      }
      return Some(reg);
    }

    method TryFindUnusedRegRange(start: nat, comps: nat, align: nat) returns (r: Option<nat>)
      requires align > 0
      ensures r.Some? ==> start <= r.value && r.value + comps <= numRegs && r.value % align == 0 && RangeUnset(used, r.value, comps)
    {
      r := TryFindUnset(used, numRegs, start, comps, align);
    }

    /** Picks a register for a new value: one of the hinted ones if it is free, otherwise the first
        free one.  `None` when there is no free register. */
    method AllocScalar(hints: seq<nat>, ssa: Ssa) returns (r: Option<nat>)
      requires Valid() && ssa.file == file && ssa !in ssaReg
      modifies this
      ensures Valid() && pinned == old(pinned)
      ensures r.Some? ==> r.value !in old(used) && r.value < numRegs && ssaReg == old(ssaReg)[ssa := r.value] && used == old(used) + {r.value}
      ensures r.None? ==> ssaReg == old(ssaReg) && forall reg :: 0 <= reg < numRegs ==> reg in used
    {
      for i := 0 to |hints|
        invariant ssaReg == old(ssaReg) && used == old(used) && pinned == old(pinned) && Valid()
      {
        if hints[i] < numRegs && hints[i] !in used {
          AssignReg(ssa, hints[i]);
          return Some(hints[i]);
        }
      }
      r := TryFindUnset(used, numRegs, 0, 1, 1);
      if r.Some? {
        assert Comp(r.value, 0) !in used;
        AssignReg(ssa, r.value);
      } else {
        forall reg: nat | reg < numRegs
          ensures reg in used
        {
          assert !RangeUnset(used, reg, 1);
        }
      }
    }
  }

  /** The components of `vec` are in consecutive registers from `reg`. */
  ghost predicate InVector(m: map<Ssa, nat>, vec: seq<Ssa>, reg: nat) {
    forall c: nat {:trigger Comp(reg, c)} {:trigger vec[c]} :: c < |vec| ==> vec[c] in m && m[vec[c]] == Comp(reg, c)
  }
}
