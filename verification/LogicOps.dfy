/** Three-input bitwise operations as lookup tables (crates/deko-nak/src/ir.rs).

    A table is a byte: entry `4a + 2b + c` is the result for source bits `a`, `b`, `c`.  The proofs go
    bit by bit, through the truth table of the operation. */
module LogicOps {

  predicate Bit(x: bv32, i: bv5) {
    (x >> i) & 1 == 1
  }

  /** One entry of a table; `k` has a single bit set. */
  predicate Entry(lut: bv8, k: bv8) {
    lut & k != 0
  }

  /** The table as a truth table. */
  predicate At(lut: bv8, a: bool, b: bool, c: bool) {
    if a then
      if b then if c then Entry(lut, 0x80) else Entry(lut, 0x40)
      else if c then Entry(lut, 0x20) else Entry(lut, 0x10)
    else
      if b then if c then Entry(lut, 0x08) else Entry(lut, 0x04)
      else if c then Entry(lut, 0x02) else Entry(lut, 0x01)
  }

  // ----- Words -----

  function Not(x: bv32): bv32 { !x }

  function Or(x: bv32, y: bv32): bv32 { x | y }

  function Term(lut: bv8, k: bv8, x: bv32, y: bv32, z: bv32): bv32 {
    if Entry(lut, k) then x & y & z else 0
  }

  /** Collects the minterms whose entry is set. */
  function Eval(lut: bv8, x: bv32, y: bv32, z: bv32): bv32 {
    var r0 := Term(lut, 0x01, Not(x), Not(y), Not(z));
    var r1 := Or(r0, Term(lut, 0x02, Not(x), Not(y), z));
    var r2 := Or(r1, Term(lut, 0x04, Not(x), y, Not(z)));
    var r3 := Or(r2, Term(lut, 0x08, Not(x), y, z));
    var r4 := Or(r3, Term(lut, 0x10, x, Not(y), Not(z)));
    var r5 := Or(r4, Term(lut, 0x20, x, Not(y), z));
    var r6 := Or(r5, Term(lut, 0x40, x, y, Not(z)));
    Or(r6, Term(lut, 0x80, x, y, z))
  }

  lemma BitOr(x: bv32, y: bv32, i: bv5)
    ensures Bit(Or(x, y), i) == (Bit(x, i) || Bit(y, i))
  {
  }

  lemma BitNot(x: bv32, i: bv5)
    ensures Bit(Not(x), i) == !Bit(x, i)
  {
  }

  lemma BitTerm(lut: bv8, k: bv8, x: bv32, y: bv32, z: bv32, i: bv5)
    ensures Bit(Term(lut, k, x, y, z), i) == (Entry(lut, k) && Bit(x, i) && Bit(y, i) && Bit(z, i))
  {
  }

  lemma BitRules(i: bv5)
    ensures forall x, y :: Bit(Or(x, y), i) == (Bit(x, i) || Bit(y, i))
    ensures forall x :: Bit(Not(x), i) == !Bit(x, i)
    ensures forall lut, k, x, y, z :: Bit(Term(lut, k, x, y, z), i) == (Entry(lut, k) && Bit(x, i) && Bit(y, i) && Bit(z, i))
  {
    forall x, y
      ensures Bit(Or(x, y), i) == (Bit(x, i) || Bit(y, i))
    {
      BitOr(x, y, i);
    }
    forall x
      ensures Bit(Not(x), i) == !Bit(x, i)
    {
      BitNot(x, i);
    }
    forall lut, k, x, y, z
      ensures Bit(Term(lut, k, x, y, z), i) == (Entry(lut, k) && Bit(x, i) && Bit(y, i) && Bit(z, i))
    {
      BitTerm(lut, k, x, y, z, i);
    }
  }

  /** Every bit of the result is the table's entry for the source bits. */
  lemma EvalBit(lut: bv8, x: bv32, y: bv32, z: bv32, i: bv5)
    ensures Bit(Eval(lut, x, y, z), i) == At(lut, Bit(x, i), Bit(y, i), Bit(z, i))
  {
    hide Bit, Term, Or, Not, Entry;
    BitRules(i);
  }

  // ----- Words are their bits -----

  function Half(x: bv32): bv32 { x >> 1 }

  function Shift(x: bv32, k: bv5): bv32 { x >> k }

  lemma HalvesAndLowBit(a: bv32, b: bv32)
    requires Half(a) == Half(b) && Bit(a, 0) == Bit(b, 0)
    ensures a == b
  {
  }

  lemma ShiftByOneMore(x: bv32, k: bv5)
    requires k > 0
    ensures Shift(x, k) == Half(Shift(x, k - 1)) && Bit(Shift(x, k - 1), 0) == Bit(x, k - 1)
  {
  }

  lemma ShiftedEqual(x: bv32, y: bv32, k: bv5)
    requires k > 0 && Shift(x, k) == Shift(y, k) && Bit(x, k - 1) == Bit(y, k - 1)
    ensures Shift(x, k - 1) == Shift(y, k - 1)
  {
    hide Shift, Bit, Half;
    ShiftByOneMore(x, k);
    ShiftByOneMore(y, k);
    HalvesAndLowBit(Shift(x, k - 1), Shift(y, k - 1));
  }

  lemma TopBit(x: bv32, y: bv32)
    requires Bit(x, 31) == Bit(y, 31)
    ensures Shift(x, 31) == Shift(y, 31)
  {
  }

  lemma NoShift(x: bv32)
    ensures Shift(x, 0) == x
  {
  }

  lemma SameBits(x: bv32, y: bv32)
    requires forall i: bv5 :: Bit(x, i) == Bit(y, i)
    ensures x == y
  {
    hide Shift, Bit, Half;
    assert Bit(x, 31) == Bit(y, 31);
    TopBit(x, y);
    var k: bv5 := 31;
    while k > 0
      invariant Shift(x, k) == Shift(y, k)
      decreases k
    {
      ShiftedEqual(x, y, k);
      k := k - 1;
    }
    NoShift(x);
    NoShift(y);
  }

  // ----- Tables -----

  function Not8(x: bv8): bv8 { !x }

  function Or8(x: bv8, y: bv8): bv8 { x | y }

  function Term8(lut: bv8, k: bv8, x: bv8, y: bv8, z: bv8): bv8 {
    if Entry(lut, k) then x & y & z else 0
  }

  /** `Eval` at the width of a table. */
  function Eval8(lut: bv8, x: bv8, y: bv8, z: bv8): bv8 {
    var r0 := Term8(lut, 0x01, Not8(x), Not8(y), Not8(z));
    var r1 := Or8(r0, Term8(lut, 0x02, Not8(x), Not8(y), z));
    var r2 := Or8(r1, Term8(lut, 0x04, Not8(x), y, Not8(z)));
    var r3 := Or8(r2, Term8(lut, 0x08, Not8(x), y, z));
    var r4 := Or8(r3, Term8(lut, 0x10, x, Not8(y), Not8(z)));
    var r5 := Or8(r4, Term8(lut, 0x20, x, Not8(y), z));
    var r6 := Or8(r5, Term8(lut, 0x40, x, y, Not8(z)));
    Or8(r6, Term8(lut, 0x80, x, y, z))
  }

  predicate OneBit(k: bv8) {
    k == 0x01 || k == 0x02 || k == 0x04 || k == 0x08 || k == 0x10 || k == 0x20 || k == 0x40 || k == 0x80
  }

  lemma EntryOr(x: bv8, y: bv8, k: bv8)
    requires OneBit(k)
    ensures Entry(Or8(x, y), k) == (Entry(x, k) || Entry(y, k))
  {
  }

  lemma EntryNot(x: bv8, k: bv8)
    requires OneBit(k)
    ensures Entry(Not8(x), k) == !Entry(x, k)
  {
  }

  lemma EntryTerm(lut: bv8, m: bv8, x: bv8, y: bv8, z: bv8, k: bv8)
    requires OneBit(k)
    ensures Entry(Term8(lut, m, x, y, z), k) == (Entry(lut, m) && Entry(x, k) && Entry(y, k) && Entry(z, k))
  {
  }

  lemma EntryRules(k: bv8)
    requires OneBit(k)
    ensures forall x, y :: Entry(Or8(x, y), k) == (Entry(x, k) || Entry(y, k))
    ensures forall x :: Entry(Not8(x), k) == !Entry(x, k)
    ensures forall lut, m, x, y, z :: Entry(Term8(lut, m, x, y, z), k) == (Entry(lut, m) && Entry(x, k) && Entry(y, k) && Entry(z, k))
  {
    forall x, y
      ensures Entry(Or8(x, y), k) == (Entry(x, k) || Entry(y, k))
    {
      EntryOr(x, y, k);
    }
    forall x
      ensures Entry(Not8(x), k) == !Entry(x, k)
    {
      EntryNot(x, k);
    }
    forall lut, m, x, y, z
      ensures Entry(Term8(lut, m, x, y, z), k) == (Entry(lut, m) && Entry(x, k) && Entry(y, k) && Entry(z, k))
    {
      EntryTerm(lut, m, x, y, z, k);
    }
  }

  lemma Eval8Entry(lut: bv8, x: bv8, y: bv8, z: bv8, k: bv8)
    requires OneBit(k)
    ensures Entry(Eval8(lut, x, y, z), k) == At(lut, Entry(x, k), Entry(y, k), Entry(z, k))
  {
    hide Term8, Or8, Not8, Entry, OneBit;
    EntryRules(k);
  }

  // ----- Building tables -----

  /** A bitwise function of three sources, made from tables. */
  datatype Fn = Src(i: nat) | Zero | Table(lut: bv8, a: Fn, b: Fn, c: Fn)
  {
    predicate Valid() {
      match this
      case Src(i) => i < 3
      case Zero => true
      case Table(_, a, b, c) => a.Valid() && b.Valid() && c.Valid()
    }

    function OnBits(s: seq<bool>): bool
      requires Valid() && |s| == 3
    {
      match this
      case Src(i) => s[i]
      case Zero => false
      case Table(lut, a, b, c) => At(lut, a.OnBits(s), b.OnBits(s), c.OnBits(s))
    }

    function OnWords(s: seq<bv32>): bv32
      requires Valid() && |s| == 3
    {
      match this
      case Src(i) => s[i]
      case Zero => 0
      case Table(lut, a, b, c) => Eval(lut, a.OnWords(s), b.OnWords(s), c.OnWords(s))
    }

    function OnTables(s: seq<bv8>): bv8
      requires Valid() && |s| == 3
    {
      match this
      case Src(i) => s[i]
      case Zero => 0
      case Table(lut, a, b, c) => Eval8(lut, a.OnTables(s), b.OnTables(s), c.OnTables(s))
    }
  }

  const SRC_MASKS: seq<bv8> := [0xf0, 0xcc, 0xaa]

  /** The table of a bitwise function: the function applied to the tables of its sources. */
  function NewLut(f: Fn): bv8
    requires f.Valid()
  {
    f.OnTables(SRC_MASKS)
  }

  function Bits(s: seq<bv32>, i: bv5): (b: seq<bool>)
    requires |s| == 3
    ensures |b| == 3
  {
    [Bit(s[0], i), Bit(s[1], i), Bit(s[2], i)]
  }

  function Entries(s: seq<bv8>, k: bv8): (b: seq<bool>)
    requires |s| == 3
    ensures |b| == 3
  {
    [Entry(s[0], k), Entry(s[1], k), Entry(s[2], k)]
  }

  lemma ZeroBit(i: bv5)
    ensures !Bit(0, i)
  {
  }

  lemma ZeroEntry(k: bv8)
    ensures !Entry(0, k)
  {
  }

  lemma {:induction false} OnWordsBit(f: Fn, s: seq<bv32>, i: bv5)
    requires f.Valid() && |s| == 3
    ensures Bit(f.OnWords(s), i) == f.OnBits(Bits(s, i))
  {
    hide Bit, Eval, At;
    match f
    case Src(_) =>
    case Zero => ZeroBit(i);
    case Table(lut, a, b, c) =>
      OnWordsBit(a, s, i);
      OnWordsBit(b, s, i);
      OnWordsBit(c, s, i);
      EvalBit(lut, a.OnWords(s), b.OnWords(s), c.OnWords(s), i);
  }

  lemma {:induction false} OnTablesEntry(f: Fn, s: seq<bv8>, k: bv8)
    requires f.Valid() && |s| == 3 && OneBit(k)
    ensures Entry(f.OnTables(s), k) == f.OnBits(Entries(s, k))
  {
    hide Entry, Eval8, At, OneBit;
    match f
    case Src(_) =>
    case Zero => ZeroEntry(k);
    case Table(lut, a, b, c) =>
      OnTablesEntry(a, s, k);
      OnTablesEntry(b, s, k);
      OnTablesEntry(c, s, k);
      Eval8Entry(lut, a.OnTables(s), b.OnTables(s), c.OnTables(s), k);
  }

  function Place(a: bool, b: bool, c: bool): (k: bv8)
    ensures OneBit(k)
  {
    if a then
      if b then if c then 0x80 else 0x40
      else if c then 0x20 else 0x10
    else
      if b then if c then 0x08 else 0x04
      else if c then 0x02 else 0x01
  }

  lemma MaskEntries(a: bool, b: bool, c: bool)
    ensures Entries(SRC_MASKS, Place(a, b, c)) == [a, b, c]
  {
  }

  lemma AtIsEntry(lut: bv8, a: bool, b: bool, c: bool)
    ensures At(lut, a, b, c) == Entry(lut, Place(a, b, c))
  {
    hide Entry;
  }

  lemma NewLutAt(f: Fn, s: seq<bool>)
    requires f.Valid() && |s| == 3
    ensures At(NewLut(f), s[0], s[1], s[2]) == f.OnBits(s)
  {
    hide Entry, Place, OneBit, At;
    AtIsEntry(NewLut(f), s[0], s[1], s[2]);
    OnTablesEntry(f, SRC_MASKS, Place(s[0], s[1], s[2]));
    MaskEntries(s[0], s[1], s[2]);
    assert s == [s[0], s[1], s[2]];
  }

  /** Evaluating a table that was built by applying a bitwise function to the three source tables
      computes that function on all words. */
  lemma NewLutEvaluates(f: Fn, s: seq<bv32>)
    requires f.Valid() && |s| == 3
    ensures Eval(NewLut(f), s[0], s[1], s[2]) == f.OnWords(s)
  {
    hide Bit, Eval, At, NewLut;
    forall i: bv5
      ensures Bit(Eval(NewLut(f), s[0], s[1], s[2]), i) == Bit(f.OnWords(s), i)
    {
      EvalBit(NewLut(f), s[0], s[1], s[2], i);
      NewLutAt(f, Bits(s, i));
      OnWordsBit(f, s, i);
    }
    SameBits(Eval(NewLut(f), s[0], s[1], s[2]), f.OnWords(s));
  }

  // ----- Changing one source -----

  function SrcMask(i: nat): bv8
    requires i < 3
  {
    SRC_MASKS[i]
  }

  /** The number of trailing zeros of the mask. */
  function SrcShift(i: nat): nat
    requires i < 3
  {
    if i == 0 then 4 else if i == 1 then 2 else 1
  }

  /** Whether the result depends on source `i`. */
  predicate SrcUsed(lut: bv8, i: nat)
    requires i < 3
  {
    lut & !SrcMask(i) != (lut >> SrcShift(i)) & !SrcMask(i)
  }

  /** The table with source `i` fixed. */
  function FixSrc(lut: bv8, i: nat, val: bool): bv8
    requires i < 3
  {
    if val then
      var t := lut & SrcMask(i);
      t | (t >> SrcShift(i))
    else
      var f := lut & !SrcMask(i);
      (f << SrcShift(i)) | f
  }

  /** The table with source `i` inverted. */
  function InvertSrc(lut: bv8, i: nat): bv8
    requires i < 3
  {
    var t := lut & SrcMask(i);
    var f := lut & !SrcMask(i);
    (f << SrcShift(i)) | (t >> SrcShift(i))
  }

  predicate AtSeq(lut: bv8, s: seq<bool>)
    requires |s| == 3
  {
    At(lut, s[0], s[1], s[2])
  }

  function EvalSeq(lut: bv8, s: seq<bv32>): bv32
    requires |s| == 3
  {
    Eval(lut, s[0], s[1], s[2])
  }

  lemma UsedAt0(lut: bv8)
    ensures SrcUsed(lut, 0) <==> exists b: bool, c: bool :: At(lut, true, b, c) != At(lut, false, b, c)
  {
    assert SrcUsed(lut, 0) <==>
      || At(lut, true, true, true) != At(lut, false, true, true) || At(lut, true, true, false) != At(lut, false, true, false)
      || At(lut, true, false, true) != At(lut, false, false, true) || At(lut, true, false, false) != At(lut, false, false, false);
  }

  lemma UsedAt1(lut: bv8)
    ensures SrcUsed(lut, 1) <==> exists a: bool, c: bool :: At(lut, a, true, c) != At(lut, a, false, c)
  {
    assert SrcUsed(lut, 1) <==>
      || At(lut, true, true, true) != At(lut, true, false, true) || At(lut, true, true, false) != At(lut, true, false, false)
      || At(lut, false, true, true) != At(lut, false, false, true) || At(lut, false, true, false) != At(lut, false, false, false);
  }

  lemma UsedAt2(lut: bv8)
    ensures SrcUsed(lut, 2) <==> exists a: bool, b: bool :: At(lut, a, b, true) != At(lut, a, b, false)
  {
    assert SrcUsed(lut, 2) <==>
      || At(lut, true, true, true) != At(lut, true, true, false) || At(lut, true, false, true) != At(lut, true, false, false)
      || At(lut, false, true, true) != At(lut, false, true, false) || At(lut, false, false, true) != At(lut, false, false, false);
  }

  /** A source is used exactly if flipping its bit can flip the result. */
  lemma SrcUsedExact(lut: bv8, i: nat)
    requires i < 3
    ensures SrcUsed(lut, i) <==> exists s: seq<bool> :: |s| == 3 && AtSeq(lut, s) != AtSeq(lut, s[i := !s[i]])
  {
    hide At, SrcUsed;
    UsedAt0(lut);
    UsedAt1(lut);
    UsedAt2(lut);
    if SrcUsed(lut, i) {
      if i == 0 {
        var b: bool, c: bool :| At(lut, true, b, c) != At(lut, false, b, c);
        assert AtSeq(lut, [true, b, c]) != AtSeq(lut, [true, b, c][0 := false]);
      } else if i == 1 {
        var a: bool, c: bool :| At(lut, a, true, c) != At(lut, a, false, c);
        assert AtSeq(lut, [a, true, c]) != AtSeq(lut, [a, true, c][1 := false]);
      } else {
        var a: bool, b: bool :| At(lut, a, b, true) != At(lut, a, b, false);
        assert AtSeq(lut, [a, b, true]) != AtSeq(lut, [a, b, true][2 := false]);
      }
    }
  }

  lemma FixAt0(lut: bv8, val: bool, a: bool, b: bool, c: bool)
    ensures At(FixSrc(lut, 0, val), a, b, c) == At(lut, val, b, c)
  {
  }

  lemma FixAt1(lut: bv8, val: bool, a: bool, b: bool, c: bool)
    ensures At(FixSrc(lut, 1, val), a, b, c) == At(lut, a, val, c)
  {
  }

  lemma FixAt2(lut: bv8, val: bool, a: bool, b: bool, c: bool)
    ensures At(FixSrc(lut, 2, val), a, b, c) == At(lut, a, b, val)
  {
  }

  lemma InvertAt0(lut: bv8, a: bool, b: bool, c: bool)
    ensures At(InvertSrc(lut, 0), a, b, c) == At(lut, !a, b, c)
  {
  }

  lemma InvertAt1(lut: bv8, a: bool, b: bool, c: bool)
    ensures At(InvertSrc(lut, 1), a, b, c) == At(lut, a, !b, c)
  {
  }

  lemma InvertAt2(lut: bv8, a: bool, b: bool, c: bool)
    ensures At(InvertSrc(lut, 2), a, b, c) == At(lut, a, b, !c)
  {
  }

  lemma FixSrcAt(lut: bv8, i: nat, val: bool, s: seq<bool>)
    requires i < 3 && |s| == 3
    ensures AtSeq(FixSrc(lut, i, val), s) == AtSeq(lut, s[i := val])
  {
    hide At, FixSrc;
    FixAt0(lut, val, s[0], s[1], s[2]);
    FixAt1(lut, val, s[0], s[1], s[2]);
    FixAt2(lut, val, s[0], s[1], s[2]);
  }

  lemma InvertSrcAt(lut: bv8, i: nat, s: seq<bool>)
    requires i < 3 && |s| == 3
    ensures AtSeq(InvertSrc(lut, i), s) == AtSeq(lut, s[i := !s[i]])
  {
    hide At, InvertSrc;
    InvertAt0(lut, s[0], s[1], s[2]);
    InvertAt1(lut, s[0], s[1], s[2]);
    InvertAt2(lut, s[0], s[1], s[2]);
  }

  lemma EvalSeqBit(lut: bv8, s: seq<bv32>, i: bv5)
    requires |s| == 3
    ensures Bit(EvalSeq(lut, s), i) == AtSeq(lut, Bits(s, i))
  {
    hide Bit, Eval, At;
    EvalBit(lut, s[0], s[1], s[2], i);
  }

  /** An unused source does not matter. */
  lemma UnusedSrc(lut: bv8, i: nat, s: seq<bv32>, w: bv32)
    requires i < 3 && |s| == 3 && !SrcUsed(lut, i)
    ensures EvalSeq(lut, s[i := w]) == EvalSeq(lut, s)
  {
    hide Bit, Eval, At, SrcUsed, EvalSeq;
    SrcUsedExact(lut, i);
    forall b: bv5
      ensures Bit(EvalSeq(lut, s[i := w]), b) == Bit(EvalSeq(lut, s), b)
    {
      EvalSeqBit(lut, s, b);
      EvalSeqBit(lut, s[i := w], b);
      var x, y := Bits(s, b), Bits(s[i := w], b);
      if x != y {
        assert y == x[i := !x[i]];
      }
    }
    SameBits(EvalSeq(lut, s[i := w]), EvalSeq(lut, s));
  }

  /** Only used sources matter. */
  lemma OnlyUsedMatter(lut: bv8, s: seq<bv32>, t: seq<bv32>)
    requires |s| == |t| == 3 && forall i :: 0 <= i < 3 && SrcUsed(lut, i) ==> s[i] == t[i]
    ensures EvalSeq(lut, s) == EvalSeq(lut, t)
  {
    hide Eval, SrcUsed, EvalSeq;
    var s1, s2 := s[0 := t[0]], s[0 := t[0]][1 := t[1]];
    assert s2[2 := t[2]] == t;
    if SrcUsed(lut, 0) { assert s1 == s; } else { UnusedSrc(lut, 0, s, t[0]); }
    if SrcUsed(lut, 1) { assert s2 == s1; } else { UnusedSrc(lut, 1, s1, t[1]); }
    if SrcUsed(lut, 2) { assert t == s2; } else { UnusedSrc(lut, 2, s2, t[2]); }
  }

  function AllOf(val: bool): bv32 {
    if val then 0xffff_ffff else 0
  }

  lemma AllOfBit(val: bool, i: bv5)
    ensures Bit(AllOf(val), i) == val
  {
  }

  /** Fixing a source that is constant keeps the result. */
  lemma FixSrcEval(lut: bv8, i: nat, val: bool, s: seq<bv32>)
    requires i < 3 && |s| == 3 && s[i] == AllOf(val)
    ensures EvalSeq(FixSrc(lut, i, val), s) == EvalSeq(lut, s)
  {
    hide Bit, Eval, At, FixSrc, EvalSeq;
    forall b: bv5
      ensures Bit(EvalSeq(FixSrc(lut, i, val), s), b) == Bit(EvalSeq(lut, s), b)
    {
      EvalSeqBit(lut, s, b);
      EvalSeqBit(FixSrc(lut, i, val), s, b);
      AllOfBit(val, b);
      FixSrcAt(lut, i, val, Bits(s, b));
      assert Bits(s, b)[i := val] == Bits(s, b);
    }
    SameBits(EvalSeq(FixSrc(lut, i, val), s), EvalSeq(lut, s));
  }

  /** A fixed source is not used any more, and fixing makes no other source used. */
  lemma FixSrcUsed(lut: bv8, i: nat, val: bool, j: nat)
    requires i < 3 && j < 3
    ensures !SrcUsed(FixSrc(lut, i, val), i)
    ensures !SrcUsed(lut, j) ==> !SrcUsed(FixSrc(lut, i, val), j)
  {
    hide At, FixSrc, SrcUsed, AtSeq;
    SrcUsedExact(FixSrc(lut, i, val), i);
    SrcUsedExact(FixSrc(lut, i, val), j);
    SrcUsedExact(lut, j);
    forall s: seq<bool> | |s| == 3
      ensures AtSeq(FixSrc(lut, i, val), s) == AtSeq(FixSrc(lut, i, val), s[i := !s[i]])
      ensures !SrcUsed(lut, j) ==> AtSeq(FixSrc(lut, i, val), s) == AtSeq(FixSrc(lut, i, val), s[j := !s[j]])
    {
      FixSrcAt(lut, i, val, s);
      FixSrcAt(lut, i, val, s[i := !s[i]]);
      FixSrcAt(lut, i, val, s[j := !s[j]]);
      assert s[i := !s[i]][i := val] == s[i := val];
      if i != j {
        var t := s[i := val];
        assert s[j := !s[j]][i := val] == t[j := !t[j]];
      }
    }
  }

  lemma InvertSrcUsed(lut: bv8, i: nat, j: nat)
    requires i < 3 && j < 3
    ensures !SrcUsed(lut, j) ==> !SrcUsed(InvertSrc(lut, i), j)
  {
    hide At, InvertSrc, SrcUsed, AtSeq;
    SrcUsedExact(InvertSrc(lut, i), j);
    SrcUsedExact(lut, j);
    forall s: seq<bool> | |s| == 3
      ensures !SrcUsed(lut, j) ==> AtSeq(InvertSrc(lut, i), s) == AtSeq(InvertSrc(lut, i), s[j := !s[j]])
    {
      InvertSrcAt(lut, i, s);
      InvertSrcAt(lut, i, s[j := !s[j]]);
      var t := s[i := !s[i]];
      assert s[j := !s[j]][i := !s[j := !s[j]][i]] == t[j := !t[j]];
    }
  }

  /** Inverting a source in the table and in the operand keeps the result. */
  lemma InvertSrcEval(lut: bv8, i: nat, s: seq<bv32>)
    requires i < 3 && |s| == 3
    ensures EvalSeq(InvertSrc(lut, i), s[i := Not(s[i])]) == EvalSeq(lut, s)
  {
    hide Bit, Eval, At, InvertSrc, EvalSeq, Not;
    var t := s[i := Not(s[i])];
    forall b: bv5
      ensures Bit(EvalSeq(InvertSrc(lut, i), t), b) == Bit(EvalSeq(lut, s), b)
    {
      EvalSeqBit(lut, s, b);
      EvalSeqBit(InvertSrc(lut, i), t, b);
      BitNot(s[i], b);
      InvertSrcAt(lut, i, Bits(t, b));
      assert Bits(t, b)[i := !Bits(t, b)[i]] == Bits(s, b);
    }
    SameBits(EvalSeq(InvertSrc(lut, i), t), EvalSeq(lut, s));
  }

  /** A table built from a function that ignores a source does not use it. */
  lemma NewLutIgnores(f: Fn, j: nat)
    requires f.Valid() && j < 3 && forall s: seq<bool> :: |s| == 3 ==> f.OnBits(s[j := !s[j]]) == f.OnBits(s)
    ensures !SrcUsed(NewLut(f), j)
  {
    hide At, SrcUsed, NewLut;
    SrcUsedExact(NewLut(f), j);
    forall s: seq<bool> | |s| == 3
      ensures AtSeq(NewLut(f), s) == AtSeq(NewLut(f), s[j := !s[j]])
    {
      NewLutAt(f, s);
      NewLutAt(f, s[j := !s[j]]);
    }
  }
}
