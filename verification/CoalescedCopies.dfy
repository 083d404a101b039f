/** Parallel copies of the SSA program: a copy whose source dies there may need no code at all
    (crates/deko-nak/src/assign_regs.rs). */
module CoalescedCopies {
  import opened Machine
  import opened RegAllocation
  import opened VecRegAllocation
  import opened InstrAllocation
  import opened AllocatedCode
  import opened AllocatedBlocks
  import opened EdgeCopies

  datatype Pair = Pair(dst: Ssa, src: PhiSrc)

  ghost predicate DistinctPairs(pairs: seq<Pair>) {
    forall i, j :: 0 <= i < j < |pairs| ==> pairs[i].dst != pairs[j].dst
  }

  /** Where the sources are. */
  ghost predicate SrcsAre(ras: seq<RegAllocator>, maps: seq<map<Ssa, nat>>, pairs: seq<Pair>, srcs: seq<Src>)
    requires |maps| == |ras|
  {
    |srcs| == |pairs| && forall i :: 0 <= i < |pairs| ==> PhiOutAt(srcs[i], pairs[i].src, ras, maps)
  }

  /** The value `v` of the file is where it was, and nothing is copied there; or it is the destination of a
      pair and its source is brought there. */
  ghost predicate Placed(before: map<Ssa, nat>, pairs: seq<Pair>, srcs: seq<Src>, copies: seq<Copy>, v: Ssa, reg: Reg) {
    || (v in before && reg.idx == before[v] && !IsDst(copies, reg) && forall i :: 0 <= i < |pairs| ==> pairs[i].dst != v)
    || exists i :: 0 <= i < |pairs| && i < |srcs| && pairs[i].dst == v && Delivered(copies, reg, srcs[i])
  }

  ghost predicate AllPlaced(ras: seq<RegAllocator>, before: seq<map<Ssa, nat>>, maps: seq<map<Ssa, nat>>, pairs: seq<Pair>, srcs: seq<Src>, copies: seq<Copy>) {
    && |before| == |maps| == |ras|
    && forall k, v {:trigger v in maps[k]} :: 0 <= k < |ras| && v in maps[k] ==>
         v.file == ras[k].file && Placed(before[k], pairs, srcs, copies, v, Reg(ras[k].file, maps[k][v]))
  }

  /** Copies write registers that are in use. */
  ghost predicate WritesUsed(ras: seq<RegAllocator>, copies: seq<Copy>)
    reads ras
  {
    && (forall i :: 0 <= i < |copies| ==> HasFile(ras, copies[i].dst.file))
    && forall i, k :: 0 <= i < |copies| && 0 <= k < |ras| && copies[i].dst.file == ras[k].file ==> copies[i].dst.idx in ras[k].used
  }

  method SourceRegs(pairs: seq<Pair>, ras: seq<RegAllocator>) returns (srcs: seq<Src>)
    requires PerFile(ras) && forall i :: 0 <= i < |pairs| && pairs[i].src.SsaSrc? ==> Available(ras, Maps(ras), map[], LiveSsa(pairs[i].src.v))
    ensures SrcsAre(ras, Maps(ras), pairs, srcs)
  {
    hide Available, EdgeCopies.IsSource, Maps;
    srcs := [];
    for i := 0 to |pairs|
      invariant |srcs| == i && forall j :: 0 <= j < i ==> PhiOutAt(srcs[j], pairs[j].src, ras, Maps(ras))
    {
      match pairs[i].src {
        case SsaSrc(v) =>
          var src := SourceOf(ras, map[], LiveSsa(v));
          srcs := srcs + [src];
        case FixedSrc(w) =>
          srcs := srcs + [Fixed(w)];
      }
    }
  }

  /** The destination of one of the first `n` pairs, except for those that are left to be copied. */
  ghost predicate Taken(pairs: seq<Pair>, rest: seq<nat>, n: nat, v: Ssa) {
    exists i :: 0 <= i < n && i < |pairs| && i !in rest && pairs[i].dst == v
  }

  ghost predicate HasTaken(ras: seq<RegAllocator>, mid: seq<map<Ssa, nat>>, maps: seq<map<Ssa, nat>>, pairs: seq<Pair>, rest: seq<nat>, n: nat) {
    && |mid| == |maps| == |ras|
    && forall k, v {:trigger v in maps[k]} :: 0 <= k < |ras| ==> (v in maps[k] <==> v in mid[k] || (v.file == ras[k].file && Taken(pairs, rest, n, v)))
  }

  ghost predicate NoneHeld(ras: seq<RegAllocator>, maps: seq<map<Ssa, nat>>, pairs: seq<Pair>)
    requires |maps| == |ras|
  {
    forall i, k :: 0 <= i < |pairs| && 0 <= k < |ras| ==> pairs[i].dst !in maps[k]
  }

  /** Gives destinations the registers of their sources, where these are free and of the same file.  The
      others are left. */
  method Coalesce(pairs: seq<Pair>, srcs: seq<Src>, ras: seq<RegAllocator>, ghost before: seq<map<Ssa, nat>>) returns (rest: seq<nat>)
    requires PerFile(ras) && (forall file :: HasFile(ras, file)) && (forall k :: 0 <= k < |ras| ==> ras[k].Valid())
    requires |srcs| == |pairs| && DistinctPairs(pairs) && AllPlaced(ras, before, Maps(ras), pairs, srcs, []) && NoneHeld(ras, Maps(ras), pairs)
    requires forall i, k :: 0 <= i < |srcs| && 0 <= k < |ras| && srcs[i].FromReg? && srcs[i].reg.file == ras[k].file ==> srcs[i].reg.idx < ras[k].numRegs
    modifies ras
    ensures forall k :: 0 <= k < |ras| ==> ras[k].Valid()
    ensures (forall j :: 0 <= j < |rest| ==> rest[j] < |pairs|) && forall i, j :: 0 <= i < j < |rest| ==> rest[i] < rest[j]
    ensures HasTaken(ras, old(Maps(ras)), Maps(ras), pairs, rest, |pairs|) && AllPlaced(ras, before, Maps(ras), pairs, srcs, [])
  {
    hide RegAllocator.Valid, AllPlaced, HasTaken, NoneHeld, DistinctPairs;
    rest := [];
    ghost var mid := Maps(ras);
    NothingTaken(ras, mid, pairs);
    for i := 0 to |pairs|
      invariant forall k :: 0 <= k < |ras| ==> ras[k].Valid()
      invariant (forall j :: 0 <= j < |rest| ==> rest[j] < i) && forall i, j :: 0 <= i < j < |rest| ==> rest[i] < rest[j]
      invariant HasTaken(ras, mid, Maps(ras), pairs, rest, i) && AllPlaced(ras, before, Maps(ras), pairs, srcs, [])
    {
      var dst := pairs[i].dst;
      var k := IndexOf(ras, dst.file);
      ghost var was := Maps(ras);
      NotHeldYet(ras, mid, was, pairs, rest, i, i, k);
      assert was[k] == ras[k].ssaReg;
      if srcs[i].FromReg? && srcs[i].reg.file == dst.file && srcs[i].reg.idx !in ras[k].used {
        ras[k].AssignReg(dst, srcs[i].reg.idx);
        assert Maps(ras) == was[k := Put(was[k], dst, srcs[i].reg.idx)] by { PutOne(ras, was, k, dst, srcs[i].reg.idx); }
        TookOne(ras, mid, was, Maps(ras), pairs, rest, i, k, srcs[i].reg.idx);
        DeliveredInPlace(srcs[i].reg);
        PlacedOne(ras, before, was, Maps(ras), pairs, srcs, [], None, i, k, srcs[i].reg.idx);
      } else {
        LeftOne(ras, mid, was, pairs, rest, i);
        rest := rest + [i];
      }
    }
  }

  lemma DeliveredInPlace(reg: Reg)
    ensures Delivered([], reg, FromReg(reg))
  {
  }

  lemma PutOne(ras: seq<RegAllocator>, was: seq<map<Ssa, nat>>, k: nat, v: Ssa, reg: nat)
    requires PerFile(ras) && k < |ras| == |was| && ras[k].ssaReg == was[k][v := reg]
    requires forall j :: 0 <= j < |ras| && j != k ==> ras[j].ssaReg == was[j]
    ensures Maps(ras) == was[k := Put(was[k], v, reg)]
  {
  }

  lemma NothingTaken(ras: seq<RegAllocator>, mid: seq<map<Ssa, nat>>, pairs: seq<Pair>)
    requires |mid| == |ras|
    ensures HasTaken(ras, mid, mid, pairs, [], 0)
  {
  }

  /** The destination of a pair that has not been reached, or has been left, has no register. */
  lemma NotHeldYet(ras: seq<RegAllocator>, mid: seq<map<Ssa, nat>>, maps: seq<map<Ssa, nat>>, pairs: seq<Pair>, rest: seq<nat>, n: nat, i: nat, k: nat)
    requires HasTaken(ras, mid, maps, pairs, rest, n) && DistinctPairs(pairs) && NoneHeld(ras, mid, pairs) && i < |pairs| && k < |ras|
    requires n <= i || i in rest
    ensures pairs[i].dst !in maps[k]
  {
    assert !Taken(pairs, rest, n, pairs[i].dst);
  }

  lemma TookOne(ras: seq<RegAllocator>, mid: seq<map<Ssa, nat>>, was: seq<map<Ssa, nat>>, maps: seq<map<Ssa, nat>>, pairs: seq<Pair>, rest: seq<nat>,
                i: nat, k: nat, reg: nat)
    requires PerFile(ras) && HasTaken(ras, mid, was, pairs, rest, i) && i < |pairs| && i !in rest && k < |ras| && ras[k].file == pairs[i].dst.file
    requires maps == was[k := Put(was[k], pairs[i].dst, reg)]
    ensures HasTaken(ras, mid, maps, pairs, rest, i + 1)
  {
    forall v
      ensures Taken(pairs, rest, i + 1, v) <==> Taken(pairs, rest, i, v) || v == pairs[i].dst
    {
      if j :| 0 <= j < i + 1 && j < |pairs| && j !in rest && pairs[j].dst == v {
        assert j == i || Taken(pairs, rest, i, v);
      }
    }
    TakenMore(ras, mid, was, maps, pairs, rest, i, rest, i + 1, k, pairs[i].dst, reg);
  }

  lemma TakenMore(ras: seq<RegAllocator>, mid: seq<map<Ssa, nat>>, was: seq<map<Ssa, nat>>, maps: seq<map<Ssa, nat>>, pairs: seq<Pair>, rest: seq<nat>,
                  n: nat, rest': seq<nat>, n': nat, k: nat, dst: Ssa, reg: nat)
    requires PerFile(ras) && HasTaken(ras, mid, was, pairs, rest, n) && k < |ras| && ras[k].file == dst.file && maps == was[k := Put(was[k], dst, reg)]
    requires forall v :: Taken(pairs, rest', n', v) <==> Taken(pairs, rest, n, v) || v == dst
    ensures HasTaken(ras, mid, maps, pairs, rest', n')
  {
    hide Taken;
    forall j, v | 0 <= j < |ras|
      ensures v in maps[j] <==> v in mid[j] || (v.file == ras[j].file && Taken(pairs, rest', n', v))
    {
      assert v in was[j] <==> v in mid[j] || (v.file == ras[j].file && Taken(pairs, rest, n, v));
      assert v in maps[j] <==> v in was[j] || (j == k && v == dst);
    }
  }

  lemma LeftOne(ras: seq<RegAllocator>, mid: seq<map<Ssa, nat>>, maps: seq<map<Ssa, nat>>, pairs: seq<Pair>, rest: seq<nat>, i: nat)
    requires HasTaken(ras, mid, maps, pairs, rest, i) && i < |pairs|
    ensures HasTaken(ras, mid, maps, pairs, rest + [i], i + 1)
  {
    forall v
      ensures Taken(pairs, rest + [i], i + 1, v) <==> Taken(pairs, rest, i, v)
    {
      if j :| 0 <= j < i && j < |pairs| && j !in rest && pairs[j].dst == v {
        assert j !in rest + [i];
      }
    }
  }

  function Added(copies: seq<Copy>, c: Option<Copy>): seq<Copy> {
    if c.Some? then copies + [c.value] else copies
  }

  /** Pair `i` has got register `reg`, where its source is brought; the other values stay. */
  lemma PlacedOne(ras: seq<RegAllocator>, before: seq<map<Ssa, nat>>, was: seq<map<Ssa, nat>>, maps: seq<map<Ssa, nat>>, pairs: seq<Pair>, srcs: seq<Src>,
                  copies: seq<Copy>, c: Option<Copy>, i: nat, k: nat, reg: nat)
    requires AllPlaced(ras, before, was, pairs, srcs, copies) && i < |pairs| == |srcs| && k < |ras| && ras[k].file == pairs[i].dst.file
    requires maps == was[k := Put(was[k], pairs[i].dst, reg)] && Delivered(Added(copies, c), Reg(ras[k].file, reg), srcs[i])
    requires c.Some? ==> forall j, v {:trigger v in was[j]} :: 0 <= j < |ras| && v in was[j] ==> c.value.dst != Reg(ras[j].file, was[j][v])
    ensures AllPlaced(ras, before, maps, pairs, srcs, Added(copies, c))
  {
    hide Placed, Delivered;
    var copies' := Added(copies, c);
    forall j, v | 0 <= j < |ras| && v in maps[j]
      ensures v.file == ras[j].file && Placed(before[j], pairs, srcs, copies', v, Reg(ras[j].file, maps[j][v]))
    {
      if j == k && v == pairs[i].dst {
        PlacedAtDst(before[j], pairs, srcs, copies', i, Reg(ras[k].file, reg));
      } else {
        assert v in was[j];
        if c.Some? {
          PlacedStays(before[j], pairs, srcs, copies, c.value, v, Reg(ras[j].file, was[j][v]));
        }
      }
    }
  }

  lemma PlacedAtDst(before: map<Ssa, nat>, pairs: seq<Pair>, srcs: seq<Src>, copies: seq<Copy>, i: nat, reg: Reg)
    requires i < |pairs| == |srcs| && Delivered(copies, reg, srcs[i])
    ensures Placed(before, pairs, srcs, copies, pairs[i].dst, reg)
  {
  }

  lemma PlacedStays(before: map<Ssa, nat>, pairs: seq<Pair>, srcs: seq<Src>, copies: seq<Copy>, c: Copy, v: Ssa, reg: Reg)
    requires Placed(before, pairs, srcs, copies, v, reg) && c.dst != reg
    ensures Placed(before, pairs, srcs, copies + [c], v, reg)
  {
    hide Delivered;
    PushCopy(copies, c);
    if i :| 0 <= i < |pairs| && i < |srcs| && pairs[i].dst == v && Delivered(copies, reg, srcs[i]) {
      DeliveredStays(copies, c, reg, srcs[i]);
    }
  }

  /** Copies the remaining pairs into free registers. */
  method CopyRest(pairs: seq<Pair>, srcs: seq<Src>, rest: seq<nat>, hints: nat -> seq<nat>, ras: seq<RegAllocator>,
                  ghost before: seq<map<Ssa, nat>>, ghost mid: seq<map<Ssa, nat>>) returns (ok: bool, copies: seq<Copy>)
    requires PerFile(ras) && (forall file :: HasFile(ras, file)) && (forall k :: 0 <= k < |ras| ==> ras[k].Valid())
    requires |srcs| == |pairs| && DistinctPairs(pairs) && |mid| == |ras| && NoneHeld(ras, mid, pairs)
    requires (forall j :: 0 <= j < |rest| ==> rest[j] < |pairs|) && forall i, j :: 0 <= i < j < |rest| ==> rest[i] < rest[j]
    requires HasTaken(ras, mid, Maps(ras), pairs, rest, |pairs|) && AllPlaced(ras, before, Maps(ras), pairs, srcs, [])
    modifies ras
    ensures ok ==> (forall k :: 0 <= k < |ras| ==> ras[k].Valid()) && DistinctDsts(copies)
    ensures ok ==> HasTaken(ras, mid, Maps(ras), pairs, [], |pairs|) && AllPlaced(ras, before, Maps(ras), pairs, srcs, copies)
  {
    hide RegAllocator.Valid, AllPlaced, HasTaken, NoneHeld, DistinctPairs;
    copies := [];
    assert rest[0..] == rest;
    for j := 0 to |rest|
      invariant (forall k :: 0 <= k < |ras| ==> ras[k].Valid()) && DistinctDsts(copies) && WritesUsed(ras, copies)
      invariant HasTaken(ras, mid, Maps(ras), pairs, rest[j..], |pairs|) && AllPlaced(ras, before, Maps(ras), pairs, srcs, copies)
    {
      var i := rest[j];
      var dst := pairs[i].dst;
      var k := IndexOf(ras, dst.file);
      ghost var was := Maps(ras);
      assert rest[j..][0] == i;
      NotHeldYet(ras, mid, was, pairs, rest[j..], |pairs|, i, k);
      assert was[k] == ras[k].ssaReg;
      UsedByValues(ras, was);
      ghost var usedBefore := ras[k].used;
      var reg := ras[k].AllocScalar(hints(i), dst);
      if reg.None? {
        return false, copies;
      }
      var c := Copy(Reg(dst.file, reg.value), srcs[i]);
      assert Maps(ras) == was[k := Put(was[k], dst, reg.value)] by { PutOne(ras, was, k, dst, reg.value); }
      CopiedOne(ras, mid, was, Maps(ras), pairs, rest, j, k, reg.value);
      PushCopy(copies, c);
      PlacedOne(ras, before, was, Maps(ras), pairs, srcs, copies, Some(c), i, k, reg.value);
      NotWritten(copies, c);
      copies := copies + [c];
    }
    assert rest[|rest|..] == [];
    ok := true;
  }

  /** Values are in registers that are in use. */
  lemma UsedByValues(ras: seq<RegAllocator>, maps: seq<map<Ssa, nat>>)
    requires (forall k :: 0 <= k < |ras| ==> ras[k].Valid()) && maps == Maps(ras)
    ensures forall k, v {:trigger v in maps[k]} :: 0 <= k < |ras| && v in maps[k] ==> maps[k][v] in ras[k].used
  {
    forall k, v | 0 <= k < |ras| && v in maps[k]
      ensures maps[k][v] in ras[k].used
    {
      ras[k].Injective();
    }
  }

  lemma NotWritten(copies: seq<Copy>, c: Copy)
    requires DistinctDsts(copies) && forall i :: 0 <= i < |copies| ==> copies[i].dst != c.dst
    ensures DistinctDsts(copies + [c])
  {
  }

  lemma CopiedOne(ras: seq<RegAllocator>, mid: seq<map<Ssa, nat>>, was: seq<map<Ssa, nat>>, maps: seq<map<Ssa, nat>>, pairs: seq<Pair>, rest: seq<nat>,
                  j: nat, k: nat, reg: nat)
    requires PerFile(ras) && j < |rest| && (forall j :: 0 <= j < |rest| ==> rest[j] < |pairs|) && forall i, j :: 0 <= i < j < |rest| ==> rest[i] < rest[j]
    requires HasTaken(ras, mid, was, pairs, rest[j..], |pairs|) && k < |ras| && ras[k].file == pairs[rest[j]].dst.file
    requires maps == was[k := Put(was[k], pairs[rest[j]].dst, reg)]
    ensures HasTaken(ras, mid, maps, pairs, rest[j + 1..], |pairs|)
  {
    var dst := pairs[rest[j]].dst;
    assert rest[j..] == [rest[j]] + rest[j + 1..];
    assert rest[j] !in rest[j + 1..];
    forall v
      ensures Taken(pairs, rest[j + 1..], |pairs|, v) <==> Taken(pairs, rest[j..], |pairs|, v) || v == dst
    {
      if i :| 0 <= i < |pairs| && i !in rest[j + 1..] && pairs[i].dst == v {
        assert i == rest[j] || i !in rest[j..];
      }
      if i :| 0 <= i < |pairs| && i !in rest[j..] && pairs[i].dst == v {
        assert i !in rest[j + 1..];
      }
    }
    TakenMore(ras, mid, was, maps, pairs, rest[j..], |pairs|, rest[j + 1..], |pairs|, k, dst, reg);
  }

  // ----- The whole instruction -----

  ghost predicate IsDstOf(pairs: seq<Pair>, v: Ssa) {
    exists i :: 0 <= i < |pairs| && pairs[i].dst == v
  }

  /** What is live behind the copies: what was live before them and does not die there, and the destinations
      that are needed. */
  ghost predicate KeepsLive(ras: seq<RegAllocator>, before: seq<map<Ssa, nat>>, maps: seq<map<Ssa, nat>>, pairs: seq<Pair>, srcsKilled: seq<Ssa>, dstsKilled: seq<Ssa>) {
    && |before| == |maps| == |ras|
    && forall k, v {:trigger v in maps[k]} :: 0 <= k < |ras| ==>
         (v in maps[k] <==> v !in dstsKilled && ((v in before[k] && v !in srcsKilled) || (v.file == ras[k].file && IsDstOf(pairs, v))))
  }

  /** The sources, when those that die have been freed. */
  lemma KilledFreed(ras: seq<RegAllocator>, before: seq<map<Ssa, nat>>, mid: seq<map<Ssa, nat>>, pairs: seq<Pair>, srcs: seq<Src>, srcsKilled: seq<Ssa>)
    requires |before| == |mid| == |ras| && forall k :: 0 <= k < |ras| ==> mid[k] == before[k] - Elements(srcsKilled)
    requires NoneHeld(ras, before, pairs) && forall k, v {:trigger v in before[k]} :: 0 <= k < |ras| && v in before[k] ==> v.file == ras[k].file
    ensures NoneHeld(ras, mid, pairs) && AllPlaced(ras, before, mid, pairs, srcs, [])
  {
    forall k, v | 0 <= k < |ras| && v in mid[k]
      ensures v.file == ras[k].file && Placed(before[k], pairs, srcs, [], v, Reg(ras[k].file, mid[k][v]))
    {
      assert v in before[k] && mid[k][v] == before[k][v];
    }
  }

  lemma SrcsInRange(ras: seq<RegAllocator>, maps: seq<map<Ssa, nat>>, pairs: seq<Pair>, srcs: seq<Src>)
    requires PerFile(ras) && (forall k :: 0 <= k < |ras| ==> ras[k].Valid()) && maps == Maps(ras) && SrcsAre(ras, maps, pairs, srcs)
    ensures forall i, k :: 0 <= i < |srcs| && 0 <= k < |ras| && srcs[i].FromReg? && srcs[i].reg.file == ras[k].file ==> srcs[i].reg.idx < ras[k].numRegs
    ensures forall k, v {:trigger v in maps[k]} :: 0 <= k < |ras| && v in maps[k] ==> v.file == ras[k].file
  {
    forall i, k | 0 <= i < |srcs| && 0 <= k < |ras| && srcs[i].FromReg? && srcs[i].reg.file == ras[k].file
      ensures srcs[i].reg.idx < ras[k].numRegs
    {
      assert PhiOutAt(srcs[i], pairs[i].src, ras, maps);
      var v := pairs[i].src.v;
      var j :| 0 <= j < |ras| && ras[j].file == v.file && v in maps[j] && srcs[i] == FromReg(Reg(v.file, maps[j][v]));
      assert j == k && maps[k] == ras[k].ssaReg;
    }
  }

  lemma DstsFreed(ras: seq<RegAllocator>, before: seq<map<Ssa, nat>>, mid: seq<map<Ssa, nat>>, maps: seq<map<Ssa, nat>>, final: seq<map<Ssa, nat>>,
                  pairs: seq<Pair>, srcs: seq<Src>, copies: seq<Copy>, srcsKilled: seq<Ssa>, dstsKilled: seq<Ssa>)
    requires |mid| == |final| == |ras| && AllPlaced(ras, before, maps, pairs, srcs, copies) && HasTaken(ras, mid, maps, pairs, [], |pairs|)
    requires forall k :: 0 <= k < |ras| ==> mid[k] == before[k] - Elements(srcsKilled) && final[k] == maps[k] - Elements(dstsKilled)
    ensures AllPlaced(ras, before, final, pairs, srcs, copies) && KeepsLive(ras, before, final, pairs, srcsKilled, dstsKilled)
  {
    hide Placed;
    forall k, v | 0 <= k < |ras|
      ensures v in final[k] <==> v !in dstsKilled && ((v in before[k] && v !in srcsKilled) || (v.file == ras[k].file && IsDstOf(pairs, v)))
      ensures v in final[k] ==> v.file == ras[k].file && Placed(before[k], pairs, srcs, copies, v, Reg(ras[k].file, final[k][v]))
    {
      assert v in maps[k] <==> v in mid[k] || (v.file == ras[k].file && Taken(pairs, [], |pairs|, v));
      assert Taken(pairs, [], |pairs|, v) <==> IsDstOf(pairs, v);
      assert v in mid[k] <==> v in before[k] && v !in srcsKilled;
    }
  }

  lemma DstsHeld(ras: seq<RegAllocator>, mid: seq<map<Ssa, nat>>, maps: seq<map<Ssa, nat>>, pairs: seq<Pair>, dstsKilled: seq<Ssa>)
    requires HasTaken(ras, mid, maps, pairs, [], |pairs|) && forall v :: v in dstsKilled ==> IsDstOf(pairs, v)
    ensures forall k, v {:trigger v in maps[k]} :: 0 <= k < |ras| && v in dstsKilled && v.file == ras[k].file ==> v in maps[k]
  {
    forall k, v | 0 <= k < |ras| && v in dstsKilled && v.file == ras[k].file
      ensures v in maps[k]
    {
      var i :| 0 <= i < |pairs| && pairs[i].dst == v;
      assert i !in [];
      assert Taken(pairs, [], |pairs|, v);
    }
  }

  /** Assigns registers to a parallel copy.  Sources that die free their registers first; a destination then
      takes over the register of its source if it can, and needs no copy. */
  method AssignParCopy(pairs: seq<Pair>, hints: nat -> seq<nat>, srcsKilled: seq<Ssa>, dstsKilled: seq<Ssa>, ras: seq<RegAllocator>)
    returns (ok: bool, copies: seq<Copy>, ghost srcs: seq<Src>)
    requires PerFile(ras) && (forall file :: HasFile(ras, file)) && (forall k :: 0 <= k < |ras| ==> ras[k].Valid())
    requires DistinctPairs(pairs) && NoneHeld(ras, Maps(ras), pairs)
    requires forall i :: 0 <= i < |pairs| && pairs[i].src.SsaSrc? ==> Available(ras, Maps(ras), map[], LiveSsa(pairs[i].src.v))
    requires DistinctElements(srcsKilled) && forall k, v {:trigger v in Maps(ras)[k]} :: 0 <= k < |ras| && v in srcsKilled && v.file == ras[k].file ==> v in Maps(ras)[k]
    requires DistinctElements(dstsKilled) && forall v :: v in dstsKilled ==> IsDstOf(pairs, v)
    modifies ras
    ensures ok ==> (forall k :: 0 <= k < |ras| ==> ras[k].Valid()) && DistinctDsts(copies) && SrcsAre(ras, old(Maps(ras)), pairs, srcs)
    ensures ok ==> AllPlaced(ras, old(Maps(ras)), Maps(ras), pairs, srcs, copies) && KeepsLive(ras, old(Maps(ras)), Maps(ras), pairs, srcsKilled, dstsKilled)
  {
    hide RegAllocator.Valid, AllPlaced, HasTaken, NoneHeld, DistinctPairs, SrcsAre, Available, KeepsLive, IsDstOf, DistinctElements;
    ghost var before := Maps(ras);
    assert forall k :: 0 <= k < |ras| ==> before[k] == ras[k].ssaReg;
    var regs := SourceRegs(pairs, ras);
    srcs := regs;
    SrcsInRange(ras, before, pairs, regs);
    FreeAllDsts(ras, srcsKilled);
    ghost var mid := Maps(ras);
    assert forall k :: 0 <= k < |ras| ==> mid[k] == ras[k].ssaReg;
    KilledFreed(ras, before, mid, pairs, regs, srcsKilled);
    SrcsLength(ras, before, pairs, regs);
    var rest := Coalesce(pairs, regs, ras, before);
    ok, copies := CopyRest(pairs, regs, rest, hints, ras, before, mid);
    if !ok {
      return;
    }
    ghost var maps := Maps(ras);
    assert forall k :: 0 <= k < |ras| ==> maps[k] == ras[k].ssaReg;
    DstsHeld(ras, mid, maps, pairs, dstsKilled);
    FreeAllDsts(ras, dstsKilled);
    assert forall k :: 0 <= k < |ras| ==> Maps(ras)[k] == ras[k].ssaReg;
    DstsFreed(ras, before, mid, maps, Maps(ras), pairs, regs, copies, srcsKilled, dstsKilled);
  }

  lemma SrcsLength(ras: seq<RegAllocator>, maps: seq<map<Ssa, nat>>, pairs: seq<Pair>, srcs: seq<Src>)
    requires |maps| == |ras| && SrcsAre(ras, maps, pairs, srcs)
    ensures |srcs| == |pairs|
  {
  }

  /** The SSA program's parallel copy: every destination takes the value that its source had before. */
  ghost predicate CopiesValues(pairs: seq<Pair>, env: Env, env': Env) {
    && (forall i :: 0 <= i < |pairs| ==> env'(pairs[i].dst) == PhiWord(pairs[i].src, env))
    && forall v :: !IsDstOf(pairs, v) ==> env'(v) == env(v)
  }

  /** With as many copies left out as there are, the registers hold the values live behind the copies. */
  lemma CoalescingKeepsValues(ras: seq<RegAllocator>, before: seq<map<Ssa, nat>>, maps: seq<map<Ssa, nat>>, pairs: seq<Pair>, srcs: seq<Src>,
                              copies: seq<Copy>, env: Env, env': Env, s: State, t: State)
    requires AllPlaced(ras, before, maps, pairs, srcs, copies) && SrcsAre(ras, before, pairs, srcs) && HoldsAll(ras, before, env, s)
    requires IsParallelCopy(copies, iset{}, s, t) && CopiesValues(pairs, env, env')
    ensures HoldsAll(ras, maps, env', t)
  {
    hide IsParallelCopy, HoldsAll, Delivered, PhiOutAt;
    forall k, v | 0 <= k < |ras| && v in maps[k]
      ensures t(Reg(ras[k].file, maps[k][v])) == env'(v)
    {
      var reg := Reg(ras[k].file, maps[k][v]);
      assert Placed(before[k], pairs, srcs, copies, v, reg);
      if i :| 0 <= i < |pairs| && i < |srcs| && pairs[i].dst == v && Delivered(copies, reg, srcs[i]) {
        assert PhiOutAt(srcs[i], pairs[i].src, ras, before);
        DeliveredValue(copies, reg, srcs[i], s, t);
        PairValue(ras, before, pairs[i], srcs[i], env, s);
      } else {
        Untouched(ras, before, k, copies, v, reg, env, s, t);
        assert !IsDstOf(pairs, v);
      }
    }
    HoldsFromValues(ras, maps, env', t);
  }

  lemma PairValue(ras: seq<RegAllocator>, maps: seq<map<Ssa, nat>>, pair: Pair, src: Src, env: Env, s: State)
    requires HoldsAll(ras, maps, env, s) && PhiOutAt(src, pair.src, ras, maps)
    ensures Eval(src, s) == PhiWord(pair.src, env)
  {
    if pair.src.SsaSrc? {
      SourceValue(ras, maps, pair.src.v, src, env, s);
    }
  }

  lemma Untouched(ras: seq<RegAllocator>, before: seq<map<Ssa, nat>>, k: nat, copies: seq<Copy>, v: Ssa, reg: Reg, env: Env, s: State, t: State)
    requires HoldsAll(ras, before, env, s) && IsParallelCopy(copies, iset{}, s, t) && k < |ras|
    requires v in before[k] && reg == Reg(ras[k].file, before[k][v]) && !IsDst(copies, reg)
    ensures t(reg) == env(v)
  {
    assert Holds(ras[k].file, before[k], env, s);
  }

  lemma HoldsFromValues(ras: seq<RegAllocator>, maps: seq<map<Ssa, nat>>, env: Env, t: State)
    requires |maps| == |ras| && forall k, v {:trigger v in maps[k]} :: 0 <= k < |ras| && v in maps[k] ==>
               v.file == ras[k].file && t(Reg(ras[k].file, maps[k][v])) == env(v)
    ensures HoldsAll(ras, maps, env, t)
  {
    forall k | 0 <= k < |ras|
      ensures Holds(ras[k].file, maps[k], env, t)
    {
      forall v | v in maps[k]
        ensures t(Reg(ras[k].file, maps[k][v])) == env(v)
      {
      }
    }
  }
}
