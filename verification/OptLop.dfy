/** Merging of three-input logic operations (crates/deko-nak/src/opt_lop.rs). */
module OptLop {
  import opened Machine
  import opened LogicOps
  import opened Operands

  function Vals(srcs: seq<Source>, env: Env): (s: seq<Word>)
    requires |srcs| == 3
    ensures |s| == 3 && forall i :: 0 <= i < 3 ==> s[i] == Val(srcs[i], env)
  {
    [Val(srcs[0], env), Val(srcs[1], env), Val(srcs[2], env)]
  }

  /** Sources that are all zeros or all ones. */
  function SrcAsBool(src: Source): (b: Option<bool>)
    ensures b.Some? ==> forall env :: Val(src, env) == AllOf(b.value)
  {
    match src
    case ZeroSrc => Some(false)
    case FalseSrc => Some(false)
    case TrueSrc => Some(true)
    case Imm(w) => if w == 0 then Some(false) else if w == 0xffff_ffff then Some(true) else None
    case _ => None
  }

  // ----- The table of known operations -----

  datatype LopEntry = LopEntry(op: bv8, used: seq<bool>, srcs: seq<Source>)

  /** What is recorded for `v`: its value is the operation applied to the recorded sources; those that
      matter are no constants and come earlier in SSA order. */
  ghost predicate EntryOk(v: nat, e: LopEntry, env: Env, rank: nat -> nat) {
    && |e.srcs| == |e.used| == 3 && env.ssa(v) == EvalSeq(e.op, Vals(e.srcs, env))
    && forall i :: 0 <= i < 3 ==> UsedOk(v, e, rank, i)
  }

  ghost predicate UsedOk(v: nat, e: LopEntry, rank: nat -> nat, i: nat)
    requires i < 3 && |e.srcs| == |e.used| == 3
  {
    && e.used[i] == SrcUsed(e.op, i)
    && (e.used[i] ==> SrcAsBool(e.srcs[i]).None? && RankBelow(e.srcs[i], rank, rank(v)))
  }

  ghost predicate TableOk(table: map<nat, LopEntry>, env: Env, rank: nat -> nat) {
    forall v :: v in table ==> EntryOk(v, table[v], env, rank)
  }

  /** No operation uses a constant source. */
  ghost predicate Folded(ops: seq<bv8>, srcs: seq<Source>)
    requires |srcs| == 3
  {
    forall i, k :: 0 <= i < 3 && 0 <= k < |ops| && SrcAsBool(srcs[i]).Some? ==> !SrcUsed(ops[k], i)
  }

  // ----- Duplicate sources -----

  function Redirect(j: nat, i: nat, k: nat): Fn {
    Src(if k == j then i else k)
  }

  /** The operation that takes source `i` for source `j` as well. */
  function Dedup(op: bv8, i: nat, j: nat): Fn {
    Table(op, Redirect(j, i, 0), Redirect(j, i, 1), Redirect(j, i, 2))
  }

  lemma DedupKeepsResult(op: bv8, i: nat, j: nat, s: seq<Word>)
    requires i < 3 && j < 3 && |s| == 3 && s[i] == s[j]
    ensures EvalSeq(NewLut(Dedup(op, i, j)), s) == EvalSeq(op, s)
  {
    hide LogicOps.Eval, NewLut;
    NewLutEvaluates(Dedup(op, i, j), s);
  }

  lemma DedupBits(op: bv8, i: nat, j: nat, s: seq<bool>)
    requires i < 3 && j < 3 && |s| == 3
    ensures Dedup(op, i, j).OnBits(s) == AtSeq(op, s[j := s[i]])
  {
    hide At;
  }

  /** The redirected source is not used any more, and no unused source comes into use unless it takes
      over uses. */
  lemma DedupDrops(op: bv8, i: nat, j: nat, k: nat)
    requires i < 3 && j < 3 && i != j && k < 3
    requires k == j || (!SrcUsed(op, k) && (k == i ==> !SrcUsed(op, j)))
    ensures !SrcUsed(NewLut(Dedup(op, i, j)), k)
  {
    hide At, SrcUsed, AtSeq, Dedup, NewLut;
    var f := Dedup(op, i, j);
    assert f.Valid() by { DedupValid(op, i, j); }
    SrcUsedExact(op, k);
    SrcUsedExact(op, j);
    forall s: seq<bool> | |s| == 3
      ensures f.OnBits(s[k := !s[k]]) == f.OnBits(s)
    {
      var t := s[k := !s[k]];
      DedupBits(op, i, j, s);
      DedupBits(op, i, j, t);
      var u := s[j := s[i]];
      if k == j {
        assert t[j := t[i]] == u;
      } else if k == i {
        var w := u[i := !u[i]];
        assert t[j := t[i]] == w[j := !w[j]];
      } else {
        assert t[j := t[i]] == u[k := !u[k]];
      }
    }
    NewLutIgnores(f, k);
  }

  lemma DedupValid(op: bv8, i: nat, j: nat)
    requires i < 3 && j < 3
    ensures Dedup(op, i, j).Valid()
  {
  }

  /** Of equal sources only the first is used, among those before source `i` and `j` next to it. */
  ghost predicate DistinctUpTo(op: bv8, srcs: seq<Source>, i: nat, j: nat)
    requires |srcs| == 3
  {
    forall a, b :: 0 <= a < b < 3 && (a < i || (a == i && b < j)) && srcs[a] == srcs[b] ==> !SrcUsed(op, b)
  }

  /** Makes the operation use only the first of equal sources. */
  method DedupSrcs(op0: bv8, srcs: seq<Source>, ghost env: Env) returns (op: bv8)
    requires |srcs| == 3
    ensures EvalSeq(op, Vals(srcs, env)) == EvalSeq(op0, Vals(srcs, env))
    ensures forall i, j :: 0 <= i < j < 3 && srcs[i] == srcs[j] ==> !SrcUsed(op, j)
  {
    hide EvalSeq, NewLut, SrcUsed;
    op := op0;
    for i := 0 to 2
      invariant EvalSeq(op, Vals(srcs, env)) == EvalSeq(op0, Vals(srcs, env)) && DistinctUpTo(op, srcs, i, i + 1)
    {
      for j := i + 1 to 3
        invariant EvalSeq(op, Vals(srcs, env)) == EvalSeq(op0, Vals(srcs, env)) && DistinctUpTo(op, srcs, i, j)
      {
        if srcs[i] == srcs[j] {
          DedupKeepsResult(op, i, j, Vals(srcs, env));
          DedupOneMore(op, srcs, i, j);
          op := NewLut(Dedup(op, i, j));
        }
      }
    }
  }

  lemma DedupOneMore(op: bv8, srcs: seq<Source>, i: nat, j: nat)
    requires |srcs| == 3 && i < j < 3 && srcs[i] == srcs[j] && DistinctUpTo(op, srcs, i, j)
    ensures DistinctUpTo(NewLut(Dedup(op, i, j)), srcs, i, j + 1)
  {
    hide SrcUsed, NewLut, Dedup;
    DedupValid(op, i, j);
    forall a, b | 0 <= a < b < 3 && (a < i || (a == i && b < j + 1)) && srcs[a] == srcs[b]
      ensures !SrcUsed(NewLut(Dedup(op, i, j)), b)
    {
      if b == i {
        assert srcs[a] == srcs[j];
      }
      DedupDrops(op, i, j, b);
    }
  }

  // ----- Propagating an operation into a source -----

  ghost predicate SlotOk(e: LopEntry, srcs: seq<Source>, idx: nat, slots: seq<Option<nat>>, i: nat)
    requires i < 3 && |e.srcs| == |e.used| == |srcs| == |slots| == 3
  {
    && (slots[i].Some? <==> e.used[i])
    && (slots[i].Some? ==>
          && slots[i].value < 3
          && (srcs[slots[i].value] == e.srcs[i] || slots[i].value == idx || SrcAsBool(srcs[slots[i].value]).Some?))
  }

  /** Every used source of the entry has a slot: one that already holds it, the one being replaced, or a
      constant one.  No slot serves two different sources. */
  ghost predicate SlotsOk(e: LopEntry, srcs: seq<Source>, idx: nat, slots: seq<Option<nat>>) {
    && |e.srcs| == |e.used| == |srcs| == |slots| == 3 && idx < 3
    && (forall i :: 0 <= i < 3 ==> SlotOk(e, srcs, idx, slots, i))
    && (forall i, j :: 0 <= i < 3 && 0 <= j < 3 && slots[i].Some? && slots[i] == slots[j] ==> e.srcs[i] == e.srcs[j])
  }

  /** An already present copy of `src` among the sources. */
  method FindSame(src: Source, srcs: seq<Source>) returns (r: Option<nat>)
    requires |srcs| == 3
    ensures r.Some? ==> r.value < 3 && srcs[r.value] == src
  {
    for j := 0 to 3 {
      if srcs[j] == src {
        return Some(j);
      }
    }
    return None;
  }

  method FindFree(srcs: seq<Source>, idx: nat, next0: nat) returns (r: Option<nat>, next: nat)
    requires |srcs| == 3
    ensures r.Some? ==> next0 <= r.value < 3 && next == r.value + 1 && (r.value == idx || SrcAsBool(srcs[r.value]).Some?)
    ensures r.None? && idx < 3 ==> idx < next0
  {
    next := next0;
    while next < 3
      invariant next0 <= next && (next0 <= idx ==> next <= idx || idx >= 3)
    {
      if next == idx || SrcAsBool(srcs[next]).Some? {
        r := Some(next);
        next := next + 1;
        return;
      }
      next := next + 1;
    }
    r := None;
  }

  /** The slot already holds the source. */
  ghost predicate Present(src: Source, srcs: seq<Source>, idx: nat, slot: nat)
    requires |srcs| == 3 && idx < 3
  {
    slot < 3 && slot != idx && srcs[slot] == src && SrcAsBool(src).None?
  }

  /** The slot may be overwritten. */
  ghost predicate Free(srcs: seq<Source>, idx: nat, slot: nat, next: nat)
    requires |srcs| == 3 && idx < 3
  {
    slot < 3 && slot < next && (slot == idx || SrcAsBool(srcs[slot]).Some?)
  }

  /** The choices for the first `n` sources. */
  ghost predicate Chosen(e: LopEntry, srcs: seq<Source>, idx: nat, slots: seq<Option<nat>>, next: nat, n: nat) {
    && |e.srcs| == |e.used| == |srcs| == |slots| == 3 && idx < 3 && n <= 3
    && (forall k :: 0 <= k < n ==> (slots[k].Some? <==> e.used[k]))
    && (forall k :: 0 <= k < n && slots[k].Some? ==> Present(e.srcs[k], srcs, idx, slots[k].value) || Free(srcs, idx, slots[k].value, next))
    && (forall j, k :: 0 <= j < k < n && slots[j].Some? && slots[j] == slots[k] ==> e.srcs[j] == e.srcs[k])
  }

  lemma ChooseOne(e: LopEntry, srcs: seq<Source>, idx: nat, slots: seq<Option<nat>>, next: nat, n: nat, slot: Option<nat>, next': nat)
    requires Chosen(e, srcs, idx, slots, next, n) && n < 3 && (slot.Some? <==> e.used[n]) && next <= next'
    requires slot.Some? ==>
               || Present(e.srcs[n], srcs, idx, slot.value)
               || (next <= slot.value && Free(srcs, idx, slot.value, next'))
    ensures Chosen(e, srcs, idx, slots[n := slot], next', n + 1)
  {
    var slots' := slots[n := slot];
    forall k | 0 <= k < n + 1 && slots'[k].Some?
      ensures Present(e.srcs[k], srcs, idx, slots'[k].value) || Free(srcs, idx, slots'[k].value, next')
    {
      if k < n {
        assert Present(e.srcs[k], srcs, idx, slots[k].value) || Free(srcs, idx, slots[k].value, next);
      }
    }
    forall j, k | 0 <= j < k < n + 1 && slots'[j].Some? && slots'[j] == slots'[k]
      ensures e.srcs[j] == e.srcs[k]
    {
      assert Present(e.srcs[j], srcs, idx, slots[j].value) || Free(srcs, idx, slots[j].value, next);
    }
  }

  lemma ChosenIsOk(e: LopEntry, srcs: seq<Source>, idx: nat, slots: seq<Option<nat>>, next: nat)
    requires Chosen(e, srcs, idx, slots, next, 3)
    ensures SlotsOk(e, srcs, idx, slots)
  {
    forall i | 0 <= i < 3
      ensures SlotOk(e, srcs, idx, slots, i)
    {
    }
  }

  /** Finds a slot for every used source of the entry, if there are enough. */
  method ChooseSlots(v: nat, isPred: bool, e: LopEntry, srcs: seq<Source>, idx: nat, ghost rank: nat -> nat) returns (r: Option<seq<Option<nat>>>)
    requires |srcs| == |e.srcs| == |e.used| == 3 && idx < 3 && srcs[idx] == SsaSrc(v, isPred)
    requires forall i :: 0 <= i < 3 ==> UsedOk(v, e, rank, i)
    ensures r.Some? ==> SlotsOk(e, srcs, idx, r.value)
    ensures r.None? ==> CountUsed(e.used) > 1
  {
    hide SrcUsed, Chosen;
    var slots: seq<Option<nat>> := [None, None, None];
    var next: nat := 0;
    NoneChosen(e, srcs, idx);
    for i := 0 to 3
      invariant |slots| == 3 && Chosen(e, srcs, idx, slots, next, i)
      invariant next > idx ==> exists k :: 0 <= k < i && e.used[k]
    {
      var slot, next' := None, next;
      if e.used[i] {
        assert UsedOk(v, e, rank, i);
        slot := FindSame(e.srcs[i], srcs);
        if slot.None? {
          slot, next' := FindFree(srcs, idx, next);
          if slot.None? {
            return None;
          }
        }
      }
      ChooseOne(e, srcs, idx, slots, next, i, slot, next');
      slots, next := slots[i := slot], next';
    }
    ChosenIsOk(e, srcs, idx, slots, next);
    r := Some(slots);
  }

  lemma NoneChosen(e: LopEntry, srcs: seq<Source>, idx: nat)
    requires |srcs| == |e.srcs| == |e.used| == 3 && idx < 3
    ensures Chosen(e, srcs, idx, [None, None, None], 0, 0)
  {
  }

  // ----- The sources and operations afterwards -----

  /** The replaced source, which nothing uses unless an entry source takes its place. */
  function Cleared(isPred: bool): Source {
    if isPred then TrueSrc else ZeroSrc
  }

  /** The first `n` used sources of the entry have been put into their slots. */
  ghost predicate Moved(e: LopEntry, srcs: seq<Source>, idx: nat, slots: seq<Option<nat>>, clear: Source, srcs': seq<Source>, n: nat)
    requires SlotsOk(e, srcs, idx, slots) && n <= 3
  {
    && |srcs'| == 3
    && (forall i :: 0 <= i < n && slots[i].Some? ==> slots[i].value < 3 && srcs'[slots[i].value] == e.srcs[i])
    && (forall j :: 0 <= j < 3 ==> srcs'[j] == (if j == idx then clear else srcs[j]) || TakenUpTo(e, slots, srcs', n, j))
  }

  ghost predicate TakenUpTo(e: LopEntry, slots: seq<Option<nat>>, srcs': seq<Source>, n: nat, j: nat)
    requires n <= 3 && |slots| == |srcs'| == |e.srcs| == 3 && j < 3
  {
    exists i :: 0 <= i < n && slots[i] == Some(j) && srcs'[j] == e.srcs[i]
  }

  method MoveSources(e: LopEntry, srcs: seq<Source>, idx: nat, slots: seq<Option<nat>>, isPred: bool) returns (srcs': seq<Source>)
    requires SlotsOk(e, srcs, idx, slots)
    ensures Moved(e, srcs, idx, slots, Cleared(isPred), srcs', 3)
  {
    srcs' := srcs[idx := Cleared(isPred)];
    for i := 0 to 3
      invariant Moved(e, srcs, idx, slots, Cleared(isPred), srcs', i)
    {
      ghost var was := srcs';
      assert SlotOk(e, srcs, idx, slots, i);
      if slots[i].Some? {
        srcs' := srcs'[slots[i].value := e.srcs[i]];
      }
      MoveOne(e, srcs, idx, slots, Cleared(isPred), was, srcs', i);
    }
  }

  lemma MoveOne(e: LopEntry, srcs: seq<Source>, idx: nat, slots: seq<Option<nat>>, clear: Source, was: seq<Source>, srcs': seq<Source>, n: nat)
    requires SlotsOk(e, srcs, idx, slots) && n < 3 && Moved(e, srcs, idx, slots, clear, was, n)
    requires slots[n].Some? ==> slots[n].value < 3
    requires srcs' == if slots[n].Some? then was[slots[n].value := e.srcs[n]] else was
    ensures Moved(e, srcs, idx, slots, clear, srcs', n + 1)
  {
    forall j: nat | j < 3
      ensures srcs'[j] == (if j == idx then clear else srcs[j]) || TakenUpTo(e, slots, srcs', n + 1, j)
    {
      if slots[n] == Some(j) {
        assert srcs'[j] == e.srcs[n];
      } else if TakenUpTo(e, slots, was, n, j) {
        var i :| 0 <= i < n && slots[i] == Some(j) && was[j] == e.srcs[i];
        assert srcs'[j] == was[j];
      }
    }
  }

  /** Source `i` of the entry, or zero if it is not used. */
  function Slotted(slots: seq<Option<nat>>, i: nat): Fn
    requires i < |slots|
  {
    if slots[i].Some? then Src(slots[i].value) else Zero
  }

  function Entered(e: LopEntry, slots: seq<Option<nat>>): Fn
    requires |slots| == 3
  {
    Table(e.op, Slotted(slots, 0), Slotted(slots, 1), Slotted(slots, 2))
  }

  function Plugged(k: nat, idx: nat, inner: Fn): Fn {
    if k == idx then inner else Src(k)
  }

  /** The operation with the entry in place of source `idx`. */
  function Propagated(op: bv8, e: LopEntry, slots: seq<Option<nat>>, idx: nat): Fn
    requires |slots| == 3
  {
    var inner := Entered(e, slots);
    Table(op, Plugged(0, idx, inner), Plugged(1, idx, inner), Plugged(2, idx, inner))
  }

  lemma PropagatedValid(op: bv8, e: LopEntry, srcs: seq<Source>, slots: seq<Option<nat>>, idx: nat)
    requires SlotsOk(e, srcs, idx, slots)
    ensures Propagated(op, e, slots, idx).Valid()
  {
    assert SlotOk(e, srcs, idx, slots, 0) && SlotOk(e, srcs, idx, slots, 1) && SlotOk(e, srcs, idx, slots, 2);
  }

  lemma SlottedValue(v: nat, e: LopEntry, srcs: seq<Source>, slots: seq<Option<nat>>, idx: nat, clear: Source, srcs': seq<Source>,
                     env: Env, rank: nat -> nat, i: nat)
    requires EntryOk(v, e, env, rank) && SlotsOk(e, srcs, idx, slots) && Moved(e, srcs, idx, slots, clear, srcs', 3) && i < 3
    ensures Slotted(slots, i).Valid()
    ensures SrcUsed(e.op, i) ==> Slotted(slots, i).OnWords(Vals(srcs', env)) == Vals(e.srcs, env)[i]
  {
    hide LogicOps.Eval, SrcUsed, Val, SrcAsBool, EvalSeq;
    assert UsedOk(v, e, rank, i) && SlotOk(e, srcs, idx, slots, i);
  }

  /** On the moved sources the entry still computes the value of the source it replaces. */
  lemma EnteredValue(v: nat, e: LopEntry, srcs: seq<Source>, slots: seq<Option<nat>>, idx: nat, clear: Source, srcs': seq<Source>,
                     env: Env, rank: nat -> nat)
    requires EntryOk(v, e, env, rank) && SlotsOk(e, srcs, idx, slots) && Moved(e, srcs, idx, slots, clear, srcs', 3)
    ensures Entered(e, slots).Valid() && Entered(e, slots).OnWords(Vals(srcs', env)) == env.ssa(v)
  {
    hide LogicOps.Eval, SrcUsed, Val, TakenUpTo, Slotted;
    var s := Vals(srcs', env);
    forall i: nat | i < 3
      ensures Slotted(slots, i).Valid() && (SrcUsed(e.op, i) ==> Slotted(slots, i).OnWords(s) == Vals(e.srcs, env)[i])
    {
      SlottedValue(v, e, srcs, slots, idx, clear, srcs', env, rank, i);
    }
    assert Slotted(slots, 0).Valid() && Slotted(slots, 1).Valid() && Slotted(slots, 2).Valid();
    var t := [Slotted(slots, 0).OnWords(s), Slotted(slots, 1).OnWords(s), Slotted(slots, 2).OnWords(s)];
    OnlyUsedMatter(e.op, t, Vals(e.srcs, env));
  }

  /** The new operation on the new sources computes what the old one did on the old sources. */
  lemma PropagationKeepsResult(op: bv8, v: nat, isPred: bool, e: LopEntry, srcs: seq<Source>, slots: seq<Option<nat>>, idx: nat, clear: Source,
                               srcs': seq<Source>, env: Env, rank: nat -> nat)
    requires EntryOk(v, e, env, rank) && SlotsOk(e, srcs, idx, slots) && |srcs'| == |srcs| == |slots| == 3 && Moved(e, srcs, idx, slots, clear, srcs', 3)
    requires idx < 3
    requires srcs[idx] == SsaSrc(v, isPred) && Folded([op], srcs)
    ensures Propagated(op, e, slots, idx).Valid()
    ensures EvalSeq(NewLut(Propagated(op, e, slots, idx)), Vals(srcs', env)) == EvalSeq(op, Vals(srcs, env))
  {
    hide LogicOps.Eval, SrcUsed, NewLut, EntryOk, Moved, SlotsOk, Val, Propagated, EvalSeq, Folded, SrcAsBool;
    PropagatedValid(op, e, srcs, slots, idx);
    EnteredValue(v, e, srcs, slots, idx, clear, srcs', env, rank);
    var s := Vals(srcs', env);
    NewLutEvaluates(Propagated(op, e, slots, idx), s);
    assert EvalSeq(NewLut(Propagated(op, e, slots, idx)), s) == Propagated(op, e, slots, idx).OnWords(s) by { EvalSeqIs(NewLut(Propagated(op, e, slots, idx)), s); }
    PluggedWords(op, e, slots, idx, s);
    ReplacedSource(v, isPred, srcs, idx, env);
    var t := s[idx := env.ssa(v)];
    forall k | 0 <= k < 3 && SrcUsed(op, k)
      ensures t[k] == Vals(srcs, env)[k]
    {
      if k != idx {
        UsedSlotKept(op, e, srcs, slots, idx, clear, srcs', k);
      }
    }
    OnlyUsedMatter(op, t, Vals(srcs, env));
  }

  lemma EvalSeqIs(lut: bv8, s: seq<Word>)
    requires |s| == 3
    ensures EvalSeq(lut, s) == LogicOps.Eval(lut, s[0], s[1], s[2])
  {
  }

  lemma ReplacedSource(v: nat, isPred: bool, srcs: seq<Source>, idx: nat, env: Env)
    requires |srcs| == 3 && idx < 3 && srcs[idx] == SsaSrc(v, isPred)
    ensures Vals(srcs, env)[idx] == env.ssa(v)
  {
  }

  lemma PluggedWords(op: bv8, e: LopEntry, slots: seq<Option<nat>>, idx: nat, s: seq<Word>)
    requires |slots| == 3 && |s| == 3 && idx < 3 && Propagated(op, e, slots, idx).Valid() && Entered(e, slots).Valid()
    ensures Propagated(op, e, slots, idx).OnWords(s) == EvalSeq(op, s[idx := Entered(e, slots).OnWords(s)])
  {
    hide LogicOps.Eval;
  }

  /** A slot that the operation uses keeps its source. */
  lemma UsedSlotKept(op: bv8, e: LopEntry, srcs: seq<Source>, slots: seq<Option<nat>>, idx: nat, clear: Source, srcs': seq<Source>, k: nat)
    requires SlotsOk(e, srcs, idx, slots) && Moved(e, srcs, idx, slots, clear, srcs', 3) && Folded([op], srcs)
    requires k < 3 && k != idx && SrcUsed(op, k)
    ensures srcs'[k] == srcs[k]
  {
    hide SrcUsed;
    assert [op][0] == op;
    if TakenUpTo(e, slots, srcs', 3, k) {
      var i :| 0 <= i < 3 && slots[i] == Some(k) && srcs'[k] == e.srcs[i];
      assert SlotOk(e, srcs, idx, slots, i);
    }
  }

  lemma EnteredIgnores(e: LopEntry, slots: seq<Option<nat>>, s: seq<bool>, j: nat, x: bool)
    requires |slots| == 3 && |s| == 3 && j < 3 && Entered(e, slots).Valid()
    requires forall i :: 0 <= i < 3 ==> slots[i] != Some(j)
    ensures Entered(e, slots).OnBits(s[j := x]) == Entered(e, slots).OnBits(s)
  {
    hide At;
    assert slots[0] != Some(j) && slots[1] != Some(j) && slots[2] != Some(j);
  }

  lemma PluggedBits(op: bv8, e: LopEntry, slots: seq<Option<nat>>, idx: nat, s: seq<bool>)
    requires |slots| == 3 && |s| == 3 && idx < 3 && Propagated(op, e, slots, idx).Valid() && Entered(e, slots).Valid()
    ensures Propagated(op, e, slots, idx).OnBits(s) == AtSeq(op, s[idx := Entered(e, slots).OnBits(s)])
  {
    hide At;
  }

  /** A source that is in no slot and that the operation did not use is not used afterwards. */
  lemma PropagationIgnores(op: bv8, e: LopEntry, slots: seq<Option<nat>>, idx: nat, j: nat)
    requires |slots| == 3 && idx < 3 && j < 3 && Propagated(op, e, slots, idx).Valid() && Entered(e, slots).Valid()
    requires (forall i :: 0 <= i < 3 ==> slots[i] != Some(j)) && (j == idx || !SrcUsed(op, j))
    ensures !SrcUsed(NewLut(Propagated(op, e, slots, idx)), j)
  {
    hide At, SrcUsed, AtSeq, Propagated, Entered, NewLut;
    var f := Propagated(op, e, slots, idx);
    SrcUsedExact(op, j);
    forall s: seq<bool> | |s| == 3
      ensures f.OnBits(s[j := !s[j]]) == f.OnBits(s)
    {
      var t := s[j := !s[j]];
      PluggedBits(op, e, slots, idx, s);
      PluggedBits(op, e, slots, idx, t);
      EnteredIgnores(e, slots, s, j, !s[j]);
      var inner := Entered(e, slots).OnBits(s);
      if j == idx {
        assert t[idx := inner] == s[idx := inner];
      } else {
        var u := s[idx := inner];
        assert t[idx := inner] == u[j := !u[j]];
      }
    }
    NewLutIgnores(f, j);
  }

  lemma PropagationStaysFolded(op: bv8, v: nat, e: LopEntry, srcs: seq<Source>, slots: seq<Option<nat>>, idx: nat, clear: Source,
                               srcs': seq<Source>, env: Env, rank: nat -> nat, j: nat)
    requires EntryOk(v, e, env, rank) && SlotsOk(e, srcs, idx, slots) && |srcs'| == 3 && Moved(e, srcs, idx, slots, clear, srcs', 3)
    requires Folded([op], srcs) && j < 3 && SrcAsBool(srcs'[j]).Some?
    ensures Propagated(op, e, slots, idx).Valid() && !SrcUsed(NewLut(Propagated(op, e, slots, idx)), j)
  {
    hide SrcUsed, Propagated, NewLut;
    PropagatedValid(op, e, srcs, slots, idx);
    EnteredValue(v, e, srcs, slots, idx, clear, srcs', env, rank);
    forall i | 0 <= i < 3
      ensures slots[i] != Some(j)
    {
      assert SlotOk(e, srcs, idx, slots, i) && UsedOk(v, e, rank, i);
    }
    assert !TakenUpTo(e, slots, srcs', 3, j);
    assert [op][0] == op;
    PropagationIgnores(op, e, slots, idx, j);
  }

  /** Sources come before `bound` in SSA order. */
  ghost predicate Below(srcs: seq<Source>, rank: nat -> nat, bound: nat) {
    forall i :: 0 <= i < |srcs| ==> RankBelow(srcs[i], rank, bound)
  }

  lemma MovedBelow(v: nat, isPred: bool, e: LopEntry, srcs: seq<Source>, slots: seq<Option<nat>>, idx: nat, srcs': seq<Source>,
                   env: Env, rank: nat -> nat, bound: nat)
    requires EntryOk(v, e, env, rank) && SlotsOk(e, srcs, idx, slots) && Moved(e, srcs, idx, slots, Cleared(isPred), srcs', 3)
    requires srcs[idx] == SsaSrc(v, isPred) && Below(srcs, rank, bound)
    ensures Below(srcs', rank, bound)
    ensures RankBelow(srcs'[idx], rank, rank(v))
  {
    hide SrcUsed;
    assert RankBelow(srcs[idx], rank, bound);
    forall j: nat | j < 3
      ensures RankBelow(srcs'[j], rank, bound) && (j == idx ==> RankBelow(srcs'[j], rank, rank(v)))
    {
      if TakenUpTo(e, slots, srcs', 3, j) {
        var i :| 0 <= i < 3 && slots[i] == Some(j) && srcs'[j] == e.srcs[i];
        assert SlotOk(e, srcs, idx, slots, i) && UsedOk(v, e, rank, i);
      } else {
        assert srcs'[j] == if j == idx then Cleared(isPred) else srcs[j];
      }
    }
  }

  /** All operations keep their results when their sources change along with them. */
  ghost predicate SameResults(ops: seq<bv8>, srcs: seq<Source>, ops': seq<bv8>, srcs': seq<Source>, env: Env)
    requires |srcs| == |srcs'| == 3
  {
    |ops| == |ops'| && forall k :: 0 <= k < |ops| ==> SameResult(ops[k], srcs, ops'[k], srcs', env)
  }

  ghost predicate SameResult(op: bv8, srcs: seq<Source>, op': bv8, srcs': seq<Source>, env: Env)
    requires |srcs| == |srcs'| == 3
  {
    EvalSeq(op', Vals(srcs', env)) == EvalSeq(op, Vals(srcs, env))
  }

  lemma SameResultsTrans(ops: seq<bv8>, srcs: seq<Source>, ops1: seq<bv8>, srcs1: seq<Source>, ops2: seq<bv8>, srcs2: seq<Source>, env: Env)
    requires |srcs| == |srcs1| == |srcs2| == 3 && SameResults(ops, srcs, ops1, srcs1, env) && SameResults(ops1, srcs1, ops2, srcs2, env)
    ensures SameResults(ops, srcs, ops2, srcs2, env)
  {
    hide EvalSeq, Vals;
    forall k | 0 <= k < |ops|
      ensures SameResult(ops[k], srcs, ops2[k], srcs2, env)
    {
      assert SameResult(ops[k], srcs, ops1[k], srcs1, env) && SameResult(ops1[k], srcs1, ops2[k], srcs2, env);
    }
  }

  method RebuildOps(ops: seq<bv8>, v: nat, isPred: bool, e: LopEntry, srcs: seq<Source>, slots: seq<Option<nat>>, idx: nat, srcs': seq<Source>,
                    ghost env: Env, ghost rank: nat -> nat) returns (ops': seq<bv8>)
    requires EntryOk(v, e, env, rank) && SlotsOk(e, srcs, idx, slots) && |srcs'| == |srcs| == |slots| == 3 && idx < 3
    requires Moved(e, srcs, idx, slots, Cleared(isPred), srcs', 3) && srcs[idx] == SsaSrc(v, isPred) && Folded(ops, srcs)
    ensures SameResults(ops, srcs, ops', srcs', env) && Folded(ops', srcs')
  {
    hide EntryOk, SlotsOk, Moved, NewLut, Propagated, EvalSeq, SrcUsed, Vals;
    ops' := [];
    for k := 0 to |ops|
      invariant |ops'| == k && forall i :: 0 <= i < k ==> SameResult(ops[i], srcs, ops'[i], srcs', env)
      invariant Folded(ops', srcs')
    {
      assert Folded([ops[k]], srcs);
      PropagationKeepsResult(ops[k], v, isPred, e, srcs, slots, idx, Cleared(isPred), srcs', env, rank);
      forall j | 0 <= j < 3 && SrcAsBool(srcs'[j]).Some?
        ensures !SrcUsed(NewLut(Propagated(ops[k], e, slots, idx)), j)
      {
        PropagationStaysFolded(ops[k], v, e, srcs, slots, idx, Cleared(isPred), srcs', env, rank, j);
      }
      ops' := ops' + [NewLut(Propagated(ops[k], e, slots, idx))];
    }
  }

  function CountUsed(used: seq<bool>): nat
    requires |used| == 3
  {
    (if used[0] then 1 else 0) + (if used[1] then 1 else 0) + (if used[2] then 1 else 0)
  }

  /** Replaces source `idx` by the operation that computes it, as long as there is one and there is room
      for its sources.  There is always room for a single one. */
  method TryPropToSrc(ops0: seq<bv8>, srcs0: seq<Source>, idx: nat, table: map<nat, LopEntry>, useCounts: map<nat, nat>,
                      ghost env: Env, ghost rank: nat -> nat, ghost bound: nat)
    returns (ops: seq<bv8>, srcs: seq<Source>)
    requires |srcs0| == 3 && idx < 3 && Folded(ops0, srcs0) && TableOk(table, env, rank) && Below(srcs0, rank, bound)
    ensures |srcs| == 3 && SameResults(ops0, srcs0, ops, srcs, env) && Folded(ops, srcs) && Below(srcs, rank, bound)
    ensures srcs[idx].SsaSrc? && srcs[idx].v in table ==> |table[srcs[idx].v].used| == 3 && CountUsed(table[srcs[idx].v].used) > 1
  {
    hide EntryOk, Folded, SameResult, Below, SrcAsBool;
    ops, srcs := ops0, srcs0;
    SameResultsSelf(ops0, srcs0, env);
    while srcs[idx].SsaSrc? && srcs[idx].v in table
      invariant |srcs| == 3 && SameResults(ops0, srcs0, ops, srcs, env) && Folded(ops, srcs) && Below(srcs, rank, bound)
      decreases if srcs[idx].SsaSrc? then rank(srcs[idx].v) + 1 else 0
    {
      var v, isPred := srcs[idx].v, srcs[idx].isPred;
      var e := table[v];
      EntryShape(v, e, env, rank);
      if CountUsed(e.used) > 1 && v in useCounts && useCounts[v] > 1 {
        return;
      }
      var slots := ChooseSlots(v, isPred, e, srcs, idx, rank);
      if slots.None? {
        return;
      }
      var srcs1 := MoveSources(e, srcs, idx, slots.value, isPred);
      SlotsShape(e, srcs, idx, slots.value, Cleared(isPred), srcs1);
      var ops1 := RebuildOps(ops, v, isPred, e, srcs, slots.value, idx, srcs1, env, rank);
      MovedBelow(v, isPred, e, srcs, slots.value, idx, srcs1, env, rank, bound);
      SameResultsTrans(ops0, srcs0, ops, srcs, ops1, srcs1, env);
      ops, srcs := ops1, srcs1;
    }
  }

  lemma SlotsShape(e: LopEntry, srcs: seq<Source>, idx: nat, slots: seq<Option<nat>>, clear: Source, srcs': seq<Source>)
    requires SlotsOk(e, srcs, idx, slots) && Moved(e, srcs, idx, slots, clear, srcs', 3)
    ensures |slots| == |srcs'| == 3
  {
  }

  lemma EntryShape(v: nat, e: LopEntry, env: Env, rank: nat -> nat)
    requires EntryOk(v, e, env, rank)
    ensures |e.srcs| == |e.used| == 3 && forall i :: 0 <= i < 3 ==> UsedOk(v, e, rank, i)
  {
  }

  lemma SameResultsSelf(ops: seq<bv8>, srcs: seq<Source>, env: Env)
    requires |srcs| == 3
    ensures SameResults(ops, srcs, ops, srcs, env)
  {
  }

  // ----- Whole instructions -----

  datatype Lop3 = Lop3(dst: Option<nat>, op: bv8, srcs: seq<Source>)

  /** A predicate source, possibly negated. */
  datatype PredSource = PredSource(src: Source, bnot: bool)

  datatype PLop3 = PLop3(dsts: seq<Option<nat>>, ops: seq<bv8>, srcs: seq<PredSource>)

  /** The first `n` sources are not used by the operations if they are constant. */
  ghost predicate FoldedUpTo(ops: seq<bv8>, srcs: seq<Source>, n: nat)
    requires |srcs| == 3 && n <= 3
  {
    forall i, k :: 0 <= i < n && 0 <= k < |ops| && SrcAsBool(srcs[i]).Some? ==> !SrcUsed(ops[k], i)
  }

  lemma SourceReplaced(srcs: seq<Source>, i: nat, src: Source, env: Env)
    requires |srcs| == 3 && i < 3
    ensures Vals(srcs[i := src], env) == Vals(srcs, env)[i := Val(src, env)]
  {
  }

  /** One source of a `Lop3`: constants are folded into the table, unused sources become zero, and
      constants with the high bit set are inverted along with the table. */
  method SimplifySrc(op: bv8, srcs: seq<Source>, i: nat, ghost env: Env) returns (op': bv8, srcs': seq<Source>)
    requires |srcs| == 3 && i < 3 && FoldedUpTo([op], srcs, i)
    ensures |srcs'| == 3 && EvalSeq(op', Vals(srcs', env)) == EvalSeq(op, Vals(srcs, env)) && FoldedUpTo([op'], srcs', i + 1)
    ensures forall j :: 0 <= j < 3 && srcs'[j].SsaSrc? ==> srcs'[j] == srcs[j]
  {
    hide EvalSeq, SrcUsed, FixSrc, InvertSrc, Val;
    op', srcs' := op, srcs;
    var b := SrcAsBool(srcs[i]);
    if b.Some? {
      FixSrcEval(op, i, b.value, Vals(srcs, env));
      FixedStaysFolded(op, srcs, i, b.value);
      op' := FixSrc(op', i, b.value);
    }
    if !SrcUsed(op', i) {
      UnusedSrc(op', i, Vals(srcs, env), Val(ZeroSrc, env));
      SourceReplaced(srcs, i, ZeroSrc, env);
      srcs' := srcs[i := ZeroSrc];
      FoldedByZero(op', srcs, i);
    } else {
      var c := SrcAsU32(srcs[i]);
      if c.Some? && HighBit(c.value) {
        InvertSrcEval(op', i, Vals(srcs, env));
        SourceReplaced(srcs, i, FromU32(Not(c.value)), env);
        InvertedValue(srcs[i], c.value, env);
        InvertedStaysFolded(op', srcs, i, c.value);
        op' := InvertSrc(op', i);
        srcs' := srcs[i := FromU32(Not(c.value))];
      } else {
        FoldedAtUsed(op', srcs, i);
      }
    }
  }

  predicate HighBit(c: Word) {
    c & 0x8000_0000 != 0
  }

  lemma FixedStaysFolded(op: bv8, srcs: seq<Source>, i: nat, b: bool)
    requires |srcs| == 3 && i < 3 && FoldedUpTo([op], srcs, i)
    ensures FoldedUpTo([FixSrc(op, i, b)], srcs, i) && !SrcUsed(FixSrc(op, i, b), i)
  {
    hide SrcUsed, FixSrc;
    forall j | 0 <= j < 3
      ensures !SrcUsed(FixSrc(op, i, b), i) && (!SrcUsed(op, j) ==> !SrcUsed(FixSrc(op, i, b), j))
    {
      FixSrcUsed(op, i, b, j);
    }
    assert [op][0] == op;
  }

  lemma FoldedByZero(op: bv8, srcs: seq<Source>, i: nat)
    requires |srcs| == 3 && i < 3 && FoldedUpTo([op], srcs, i) && !SrcUsed(op, i)
    ensures FoldedUpTo([op], srcs[i := ZeroSrc], i + 1)
  {
    hide SrcUsed;
    assert [op][0] == op;
  }

  lemma FoldedAtUsed(op: bv8, srcs: seq<Source>, i: nat)
    requires |srcs| == 3 && i < 3 && FoldedUpTo([op], srcs, i) && (SrcAsBool(srcs[i]).Some? ==> !SrcUsed(op, i))
    ensures FoldedUpTo([op], srcs, i + 1)
  {
    hide SrcUsed;
    assert [op][0] == op;
  }

  lemma InvertedConst(c: Word)
    requires HighBit(c) && c != 0xffff_ffff
    ensures Not(c) != 0 && Not(c) != 0xffff_ffff
  {
  }

  lemma InvertedValue(src: Source, c: Word, env: Env)
    requires SrcAsU32(src) == Some(c)
    ensures Val(FromU32(Not(c)), env) == Not(Val(src, env))
  {
    hide Not;
  }

  lemma InvertedStaysFolded(op: bv8, srcs: seq<Source>, i: nat, c: Word)
    requires |srcs| == 3 && i < 3 && FoldedUpTo([op], srcs, i) && SrcAsU32(srcs[i]) == Some(c) && HighBit(c)
    requires SrcUsed(op, i) && (SrcAsBool(srcs[i]).Some? ==> !SrcUsed(op, i))
    ensures FoldedUpTo([InvertSrc(op, i)], srcs[i := FromU32(Not(c))], i + 1)
  {
    hide SrcUsed, InvertSrc, Not, HighBit;
    if c != 0xffff_ffff {
      InvertedConst(c);
    }
    ZeroHasNoHighBit();
    forall j | 0 <= j < 3
      ensures !SrcUsed(op, j) ==> !SrcUsed(InvertSrc(op, i), j)
    {
      InvertSrcUsed(op, i, j);
    }
    assert [op][0] == op;
  }

  lemma ZeroHasNoHighBit()
    ensures !HighBit(0)
  {
  }

  /** Simplifies a `Lop3` and records it; its result stays what it was. */
  method OptLop3(instr: Lop3, table: map<nat, LopEntry>, useCounts: map<nat, nat>, ghost env: Env, ghost rank: nat -> nat, ghost bound: nat)
    returns (instr': Lop3, table': map<nat, LopEntry>)
    requires |instr.srcs| == 3 && TableOk(table, env, rank) && Below(instr.srcs, rank, bound)
    requires instr.dst.Some? ==> rank(instr.dst.value) == bound && env.ssa(instr.dst.value) == EvalSeq(instr.op, Vals(instr.srcs, env))
    ensures |instr'.srcs| == 3 && instr'.dst == instr.dst && TableOk(table', env, rank)
    ensures EvalSeq(instr'.op, Vals(instr'.srcs, env)) == EvalSeq(instr.op, Vals(instr.srcs, env))
  {
    hide EvalSeq, SrcUsed, EntryOk, Vals;
    var op := DedupSrcs(instr.op, instr.srcs, env);
    var srcs := instr.srcs;
    for i := 0 to 3
      invariant |srcs| == 3 && FoldedUpTo([op], srcs, i) && Below(srcs, rank, bound)
      invariant EvalSeq(op, Vals(srcs, env)) == EvalSeq(instr.op, Vals(instr.srcs, env))
    {
      ghost var srcs0 := srcs;
      op, srcs := SimplifySrc(op, srcs, i, env);
      BelowStays(srcs0, srcs, rank, bound);
    }
    AllFolded([op], srcs);
    var ops;
    ops, srcs := PropToAll([op], srcs, table, useCounts, env, rank, bound);
    assert SameResult(op, srcs, op, srcs, env);
    instr' := Lop3(instr.dst, ops[0], srcs);
    table' := table;
    if instr.dst.Some? {
      table' := AddLop(table, instr.dst.value, ops[0], srcs, env, rank);
    }
  }

  lemma BelowStays(srcs: seq<Source>, srcs': seq<Source>, rank: nat -> nat, bound: nat)
    requires |srcs| == |srcs'| && Below(srcs, rank, bound) && forall j :: 0 <= j < |srcs| && srcs'[j].SsaSrc? ==> srcs'[j] == srcs[j]
    ensures Below(srcs', rank, bound)
  {
    forall j | 0 <= j < |srcs'|
      ensures RankBelow(srcs'[j], rank, bound)
    {
      assert RankBelow(srcs[j], rank, bound);
    }
  }

  lemma AllFolded(ops: seq<bv8>, srcs: seq<Source>)
    requires |srcs| == 3 && FoldedUpTo(ops, srcs, 3)
    ensures Folded(ops, srcs)
  {
  }

  /** Propagates into each source in turn. */
  method PropToAll(ops0: seq<bv8>, srcs0: seq<Source>, table: map<nat, LopEntry>, useCounts: map<nat, nat>,
                   ghost env: Env, ghost rank: nat -> nat, ghost bound: nat)
    returns (ops: seq<bv8>, srcs: seq<Source>)
    requires |srcs0| == 3 && Folded(ops0, srcs0) && TableOk(table, env, rank) && Below(srcs0, rank, bound)
    ensures |ops| == |ops0| && |srcs| == 3 && Folded(ops, srcs) && Below(srcs, rank, bound)
    ensures forall k :: 0 <= k < |ops| ==> EvalSeq(ops[k], Vals(srcs, env)) == EvalSeq(ops0[k], Vals(srcs0, env))
  {
    hide EvalSeq, EntryOk, Folded, Below, Vals, SameResult;
    ops, srcs := ops0, srcs0;
    SameResultsSelf(ops0, srcs0, env);
    for i := 0 to 3
      invariant |srcs| == 3 && SameResults(ops0, srcs0, ops, srcs, env) && Folded(ops, srcs) && Below(srcs, rank, bound)
    {
      var ops1, srcs1 := TryPropToSrc(ops, srcs, i, table, useCounts, env, rank, bound);
      SameResultsTrans(ops0, srcs0, ops, srcs, ops1, srcs1, env);
      ops, srcs := ops1, srcs1;
    }
    ResultsAre(ops0, srcs0, ops, srcs, env);
  }

  lemma ResultsAre(ops0: seq<bv8>, srcs0: seq<Source>, ops: seq<bv8>, srcs: seq<Source>, env: Env)
    requires |srcs0| == |srcs| == 3 && SameResults(ops0, srcs0, ops, srcs, env)
    ensures |ops| == |ops0| && forall k :: 0 <= k < |ops| ==> EvalSeq(ops[k], Vals(srcs, env)) == EvalSeq(ops0[k], Vals(srcs0, env))
  {
    hide EvalSeq, Vals;
    assert forall k :: 0 <= k < |ops| ==> SameResult(ops0[k], srcs0, ops[k], srcs, env);
  }

  /** Records an operation.  None of the sources it uses is a constant. */
  method AddLop(table: map<nat, LopEntry>, v: nat, op: bv8, srcs: seq<Source>, ghost env: Env, ghost rank: nat -> nat)
    returns (table': map<nat, LopEntry>)
    requires |srcs| == 3 && Folded([op], srcs) && TableOk(table, env, rank) && Below(srcs, rank, rank(v))
    requires env.ssa(v) == EvalSeq(op, Vals(srcs, env))
    ensures TableOk(table', env, rank)
  {
    hide EvalSeq, Vals, SrcUsed;
    assert [op][0] == op;
    assert forall i :: 0 <= i < 3 && SrcUsed(op, i) ==> SrcAsBool(srcs[i]).None?;
    var e := LopEntry(op, [SrcUsed(op, 0), SrcUsed(op, 1), SrcUsed(op, 2)], srcs);
    forall i | 0 <= i < 3
      ensures UsedOk(v, e, rank, i)
    {
      assert RankBelow(srcs[i], rank, rank(v));
    }
    table' := table[v := e];
  }

  // ----- Predicate operations -----

  function PredVal(s: PredSource, env: Env): Word {
    if s.bnot then Not(Val(s.src, env)) else Val(s.src, env)
  }

  function PredVals(srcs: seq<PredSource>, env: Env): (s: seq<Word>)
    requires |srcs| == 3
    ensures |s| == 3 && forall i :: 0 <= i < 3 ==> s[i] == PredVal(srcs[i], env)
  {
    [PredVal(srcs[0], env), PredVal(srcs[1], env), PredVal(srcs[2], env)]
  }

  lemma PredSourceReplaced(srcs: seq<PredSource>, i: nat, src: PredSource, env: Env)
    requires |srcs| == 3 && i < 3
    ensures PredVals(srcs[i := src], env) == PredVals(srcs, env)[i := PredVal(src, env)]
  {
    hide Not, Val;
  }

  lemma NotNot(w: Word)
    ensures Not(Not(w)) == w
  {
  }

  /** Moves negations of sources into the tables. */
  method AbsorbNegations(ops0: seq<bv8>, srcs0: seq<PredSource>, ghost env: Env) returns (ops: seq<bv8>, srcs: seq<Source>)
    requires |ops0| == 2 && |srcs0| == 3
    ensures |ops| == 2 && |srcs| == 3 && forall k :: 0 <= k < 2 ==> EvalSeq(ops[k], Vals(srcs, env)) == EvalSeq(ops0[k], PredVals(srcs0, env))
    ensures forall i :: 0 <= i < 3 ==> srcs[i] == srcs0[i].src
  {
    hide EvalSeq, InvertSrc, Not, Val;
    ops := ops0;
    var plain := srcs0;
    for i := 0 to 3
      invariant |ops| == 2 && |plain| == 3
      invariant forall k :: 0 <= k < 2 ==> EvalSeq(ops[k], PredVals(plain, env)) == EvalSeq(ops0[k], PredVals(srcs0, env))
      invariant forall j :: 0 <= j < 3 ==> plain[j].src == srcs0[j].src && (j < i ==> !plain[j].bnot)
    {
      if plain[i].bnot {
        var s := PredSource(plain[i].src, false);
        InvertSrcEval(ops[0], i, PredVals(plain, env));
        InvertSrcEval(ops[1], i, PredVals(plain, env));
        PredSourceReplaced(plain, i, s, env);
        NotNot(Val(plain[i].src, env));
        ops := [InvertSrc(ops[0], i), InvertSrc(ops[1], i)];
        plain := plain[i := s];
      }
    }
    srcs := [plain[0].src, plain[1].src, plain[2].src];
    assert Vals(srcs, env) == PredVals(plain, env);
  }

  method SimplifyPredSrc(ops: seq<bv8>, srcs: seq<Source>, i: nat, ghost env: Env) returns (ops': seq<bv8>, srcs': seq<Source>)
    requires |ops| == 2 && |srcs| == 3 && i < 3 && FoldedUpTo(ops, srcs, i)
    ensures |ops'| == 2 && |srcs'| == 3 && FoldedUpTo(ops', srcs', i + 1)
    ensures forall k :: 0 <= k < 2 ==> EvalSeq(ops'[k], Vals(srcs', env)) == EvalSeq(ops[k], Vals(srcs, env))
    ensures forall j :: 0 <= j < 3 && srcs'[j].SsaSrc? ==> srcs'[j] == srcs[j]
  {
    hide EvalSeq, SrcUsed, FixSrc, Val;
    ops', srcs' := ops, srcs;
    var b := SrcAsBool(srcs[i]);
    if b.Some? {
      FixSrcEval(ops[0], i, b.value, Vals(srcs, env));
      FixSrcEval(ops[1], i, b.value, Vals(srcs, env));
      ops' := [FixSrc(ops[0], i, b.value), FixSrc(ops[1], i, b.value)];
      FixedBoth(ops, srcs, i, b.value);
    }
    if !SrcUsed(ops'[0], i) && !SrcUsed(ops'[1], i) {
      UnusedSrc(ops'[0], i, Vals(srcs, env), Val(TrueSrc, env));
      UnusedSrc(ops'[1], i, Vals(srcs, env), Val(TrueSrc, env));
      SourceReplaced(srcs, i, TrueSrc, env);
      srcs' := srcs[i := TrueSrc];
    }
  }

  lemma FixedBoth(ops: seq<bv8>, srcs: seq<Source>, i: nat, b: bool)
    requires |ops| == 2 && |srcs| == 3 && i < 3 && FoldedUpTo(ops, srcs, i)
    ensures var ops' := [FixSrc(ops[0], i, b), FixSrc(ops[1], i, b)];
            FoldedUpTo(ops', srcs, i) && !SrcUsed(ops'[0], i) && !SrcUsed(ops'[1], i)
  {
    hide SrcUsed, FixSrc;
    forall j, k | 0 <= j < 3 && 0 <= k < 2
      ensures !SrcUsed(FixSrc(ops[k], i, b), i) && (!SrcUsed(ops[k], j) ==> !SrcUsed(FixSrc(ops[k], i, b), j))
    {
      FixSrcUsed(ops[k], i, b, j);
    }
  }

  ghost predicate DstOk(dst: Option<nat>, op: bv8, s: seq<Word>, env: Env, rank: nat -> nat, bound: nat)
    requires |s| == 3
  {
    dst.Some? ==> rank(dst.value) == bound && env.ssa(dst.value) == EvalSeq(op, s)
  }

  /** Simplifies a `PLop3` and records both of its results, which stay what they were. */
  method OptPLop3(instr: PLop3, table: map<nat, LopEntry>, useCounts: map<nat, nat>, ghost env: Env, ghost rank: nat -> nat, ghost bound: nat)
    returns (ops: seq<bv8>, srcs: seq<Source>, table': map<nat, LopEntry>)
    requires |instr.srcs| == 3 && |instr.ops| == |instr.dsts| == 2 && TableOk(table, env, rank)
    requires forall i :: 0 <= i < 3 ==> RankBelow(instr.srcs[i].src, rank, bound)
    requires forall k :: 0 <= k < 2 ==> DstOk(instr.dsts[k], instr.ops[k], PredVals(instr.srcs, env), env, rank, bound)
    ensures |ops| == 2 && |srcs| == 3 && TableOk(table', env, rank)
    ensures forall k :: 0 <= k < 2 ==> EvalSeq(ops[k], Vals(srcs, env)) == EvalSeq(instr.ops[k], PredVals(instr.srcs, env))
  {
    hide EvalSeq, SrcUsed, EntryOk, Vals, PredVals, FoldedUpTo, Folded;
    ops, srcs := AbsorbNegations(instr.ops, instr.srcs, env);
    var op0 := DedupSrcs(ops[0], srcs, env);
    var op1 := DedupSrcs(ops[1], srcs, env);
    ops := [op0, op1];
    NothingFolded(ops, srcs);
    for i := 0 to 3
      invariant |ops| == 2 && |srcs| == 3 && FoldedUpTo(ops, srcs, i) && Below(srcs, rank, bound)
      invariant forall k :: 0 <= k < 2 ==> EvalSeq(ops[k], Vals(srcs, env)) == EvalSeq(instr.ops[k], PredVals(instr.srcs, env))
    {
      ghost var srcs0 := srcs;
      ops, srcs := SimplifyPredSrc(ops, srcs, i, env);
      BelowStays(srcs0, srcs, rank, bound);
    }
    AllFolded(ops, srcs);
    ops, srcs := PropToAll(ops, srcs, table, useCounts, env, rank, bound);
    table' := table;
    for k := 0 to 2
      invariant TableOk(table', env, rank)
    {
      if instr.dsts[k].Some? {
        assert DstOk(instr.dsts[k], instr.ops[k], PredVals(instr.srcs, env), env, rank, bound);
        FoldedAlone(ops, srcs, k);
        table' := AddLop(table', instr.dsts[k].value, ops[k], srcs, env, rank);
      }
    }
  }

  lemma NothingFolded(ops: seq<bv8>, srcs: seq<Source>)
    requires |srcs| == 3
    ensures FoldedUpTo(ops, srcs, 0)
  {
  }

  lemma FoldedAlone(ops: seq<bv8>, srcs: seq<Source>, k: nat)
    requires |srcs| == 3 && Folded(ops, srcs) && k < |ops|
    ensures Folded([ops[k]], srcs)
  {
    hide SrcUsed;
  }

  // ----- A whole program -----

  datatype Instr = Lop(lop: Lop3) | PLop(plop: PLop3) | OtherInstr

  ghost predicate WellFormed(i: Instr, rank: nat -> nat, bound: nat) {
    match i
    case Lop(lop) => |lop.srcs| == 3 && Below(lop.srcs, rank, bound) && (lop.dst.Some? ==> rank(lop.dst.value) == bound)
    case PLop(p) =>
      && |p.srcs| == 3 && |p.ops| == |p.dsts| == 2
      && (forall k :: 0 <= k < 3 ==> RankBelow(p.srcs[k].src, rank, bound))
      && (forall k :: 0 <= k < 2 && p.dsts[k].Some? ==> rank(p.dsts[k].value) == bound)
    case OtherInstr => true
  }

  /** The instruction's equations hold between the SSA values. */
  ghost predicate Holds(i: Instr, env: Env) {
    match i
    case Lop(lop) => |lop.srcs| == 3 && (lop.dst.Some? ==> env.ssa(lop.dst.value) == EvalSeq(lop.op, Vals(lop.srcs, env)))
    case PLop(p) =>
      && |p.srcs| == 3 && |p.ops| == |p.dsts| == 2
      && forall k :: 0 <= k < 2 && p.dsts[k].Some? ==> env.ssa(p.dsts[k].value) == EvalSeq(p.ops[k], PredVals(p.srcs, env))
    case OtherInstr => true
  }

  /** The instruction is of the same kind and defines the same values. */
  predicate SameDefs(a: Instr, b: Instr) {
    match a
    case Lop(lop) => b.Lop? && b.lop.dst == lop.dst
    case PLop(p) => b.PLop? && b.plop.dsts == p.dsts
    case OtherInstr => b.OtherInstr?
  }

  /** Runs the pass over a program in SSA order: every instruction defines what it defined, and the values
      that satisfy all the equations of the old program satisfy those of the new one. */
  method Run(instrs: seq<Instr>, useCounts: map<nat, nat>, ghost env: Env, ghost rank: nat -> nat) returns (out: seq<Instr>)
    requires forall i :: 0 <= i < |instrs| ==> WellFormed(instrs[i], rank, i) && Holds(instrs[i], env)
    ensures |out| == |instrs| && forall i :: 0 <= i < |out| ==> Holds(out[i], env) && SameDefs(instrs[i], out[i])
  {
    hide EvalSeq, Vals, PredVals, EntryOk, SrcUsed;
    out := [];
    var table: map<nat, LopEntry> := map[];
    for i := 0 to |instrs|
      invariant |out| == i && TableOk(table, env, rank) && forall k :: 0 <= k < i ==> Holds(out[k], env) && SameDefs(instrs[k], out[k])
    {
      assert WellFormed(instrs[i], rank, i) && Holds(instrs[i], env);
      match instrs[i] {
        case Lop(lop) =>
          var lop';
          lop', table := OptLop3(lop, table, useCounts, env, rank, i);
          out := out + [Lop(lop')];
        case PLop(p) =>
          var ops, srcs;
          ops, srcs, table := OptPLop3(p, table, useCounts, env, rank, i);
          var p' := PLop3(p.dsts, ops, [PredSource(srcs[0], false), PredSource(srcs[1], false), PredSource(srcs[2], false)]);
          PlainVals(srcs, p'.srcs, env);
          out := out + [PLop(p')];
        case OtherInstr =>
          out := out + [OtherInstr];
      }
    }
  }

  lemma PlainVals(srcs: seq<Source>, preds: seq<PredSource>, env: Env)
    requires |srcs| == 3 && preds == [PredSource(srcs[0], false), PredSource(srcs[1], false), PredSource(srcs[2], false)]
    ensures PredVals(preds, env) == Vals(srcs, env)
  {
  }
}
