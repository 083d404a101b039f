/** Merging of byte permutes (crates/deko-nak/src/opt_prmt.rs, crates/deko-nak/src/ir.rs). */
module OptPrmt {
  import opened Machine
  import opened Operands

  // ----- Bytes of a word -----

  function ByteOf(w: Word, k: nat): bv8
    requires k < 4
  {
    if k == 0 then (w & 0xff) as bv8
    else if k == 1 then ((w >> 8) & 0xff) as bv8
    else if k == 2 then ((w >> 16) & 0xff) as bv8
    else ((w >> 24) & 0xff) as bv8
  }

  /** The sign of a byte in all of its bits. */
  function Sign(b: bv8): bv8 {
    if b & 0x80 != 0 then 0xff else 0
  }

  function Replicated(b: bv8, msb: bool): bv8 {
    if msb then Sign(b) else b
  }

  lemma SignOfSign(b: bv8)
    ensures Sign(Sign(b)) == Sign(b)
  {
  }

  /** Replicating the sign twice is replicating it once. */
  lemma ReplicatedTwice(b: bv8, first: bool, second: bool)
    ensures Replicated(Replicated(b, first), second) == Replicated(b, second || first)
  {
    hide Sign;
    SignOfSign(b);
  }

  function Assemble(b0: bv8, b1: bv8, b2: bv8, b3: bv8): Word {
    (b0 as bv32) | ((b1 as bv32) << 8) | ((b2 as bv32) << 16) | ((b3 as bv32) << 24)
  }

  lemma ByteOfAssembled(b0: bv8, b1: bv8, b2: bv8, b3: bv8, k: nat)
    requires k < 4
    ensures ByteOf(Assemble(b0, b1, b2, b3), k) == [b0, b1, b2, b3][k]
  {
  }

  // ----- Selectors -----

  /** One byte of a selector: which source, which of its bytes, and whether to replicate the sign. */
  datatype SelByte = SelByte(src: nat, byte: nat, msb: bool)
  {
    predicate Valid() {
      src < 2 && byte < 4
    }

    /** What the selector byte makes of the selected source's word. */
    function FoldU32(w: Word): bv8
      requires Valid()
    {
      Replicated(ByteOf(w, byte), msb)
    }
  }

  type Sel = bv16

  function Nibble(b: SelByte): bv16
    requires b.Valid()
  {
    (if b.src == 1 then 4 else 0)
    | (if b.byte == 0 then 0 else if b.byte == 1 then 1 else if b.byte == 2 then 2 else 3)
    | (if b.msb then 8 else 0)
  }

  function Decode(n: bv16): (b: SelByte)
    ensures b.Valid()
  {
    SelByte(if n & 4 != 0 then 1 else 0,
            if n & 3 == 0 then 0 else if n & 3 == 1 then 1 else if n & 3 == 2 then 2 else 3,
            n & 8 != 0)
  }

  lemma DecodeNibble(b: SelByte)
    requires b.Valid()
    ensures Decode(Nibble(b)) == b && Nibble(b) & 0xf == Nibble(b)
  {
  }

  function Pack4(n0: bv16, n1: bv16, n2: bv16, n3: bv16): Sel {
    n0 | (n1 << 4) | (n2 << 8) | (n3 << 12)
  }

  function Field(sel: Sel, i: nat): bv16
    requires i < 4
  {
    if i == 0 then sel & 0xf else if i == 1 then (sel >> 4) & 0xf else if i == 2 then (sel >> 8) & 0xf else (sel >> 12) & 0xf
  }

  lemma FieldOfPack(n0: bv16, n1: bv16, n2: bv16, n3: bv16, i: nat)
    requires i < 4 && n0 & 0xf == n0 && n1 & 0xf == n1 && n2 & 0xf == n2 && n3 & 0xf == n3
    ensures Field(Pack4(n0, n1, n2, n3), i) == [n0, n1, n2, n3][i]
  {
  }

  function Get(sel: Sel, i: nat): (b: SelByte)
    requires i < 4
    ensures b.Valid()
  {
    Decode(Field(sel, i))
  }

  ghost predicate ValidBytes(bytes: seq<SelByte>) {
    |bytes| == 4 && forall i :: 0 <= i < 4 ==> bytes[i].Valid()
  }

  function New(bytes: seq<SelByte>): Sel
    requires |bytes| == 4 && bytes[0].Valid() && bytes[1].Valid() && bytes[2].Valid() && bytes[3].Valid()
  {
    Pack4(Nibble(bytes[0]), Nibble(bytes[1]), Nibble(bytes[2]), Nibble(bytes[3]))
  }

  /** Reading a selector gives back the bytes it was made from. */
  lemma GetNew(bytes: seq<SelByte>, i: nat)
    requires ValidBytes(bytes) && i < 4
    ensures Get(New(bytes), i) == bytes[i]
  {
    hide Pack4, Field, Nibble, Decode;
    DecodeNibble(bytes[0]);
    DecodeNibble(bytes[1]);
    DecodeNibble(bytes[2]);
    DecodeNibble(bytes[3]);
    FieldOfPack(Nibble(bytes[0]), Nibble(bytes[1]), Nibble(bytes[2]), Nibble(bytes[3]), i);
  }

  // ----- The permute instruction -----

  /** A permute with an immediate selector. */
  datatype Prmt = Prmt(sel: Sel, srcs: seq<Source>)
  {
    predicate Valid() {
      |srcs| == 2
    }

    function Byte(i: nat, env: Env): bv8
      requires Valid() && i < 4
    {
      Get(sel, i).FoldU32(Val(srcs[Get(sel, i).src], env))
    }

    function Result(env: Env): Word
      requires Valid()
    {
      Assemble(Byte(0, env), Byte(1, env), Byte(2, env), Byte(3, env))
    }
  }

  lemma SameBytesSameResult(p: Prmt, q: Prmt, env: Env)
    requires p.Valid() && q.Valid() && forall i :: 0 <= i < 4 ==> p.Byte(i, env) == q.Byte(i, env)
    ensures p.Result(env) == q.Result(env)
  {
    hide Assemble, Get, Val;
    assert p.Byte(0, env) == q.Byte(0, env) && p.Byte(1, env) == q.Byte(1, env);
    assert p.Byte(2, env) == q.Byte(2, env) && p.Byte(3, env) == q.Byte(3, env);
  }

  lemma ByteOfResult(p: Prmt, env: Env, k: nat)
    requires p.Valid() && k < 4
    ensures ByteOf(p.Result(env), k) == p.Byte(k, env)
  {
    hide Assemble, Get, Val, ByteOf;
    ByteOfAssembled(p.Byte(0, env), p.Byte(1, env), p.Byte(2, env), p.Byte(3, env), k);
  }

  // ----- The table of known permutes -----

  ghost predicate TableOk(table: map<nat, Prmt>, env: Env, rank: nat -> nat) {
    forall v :: v in table ==> EntryOk(v, table[v], env, rank)
  }

  ghost predicate EntryOk(v: nat, e: Prmt, env: Env, rank: nat -> nat) {
    e.Valid() && env.ssa(v) == e.Result(env) && RankBelow(e.srcs[0], rank, rank(v)) && RankBelow(e.srcs[1], rank, rank(v))
  }

  predicate Known(src: Source, table: map<nat, Prmt>) {
    src.SsaSrc? && src.v in table
  }

  // ----- One source -----

  /** Selector byte `i` after looking through source `idx`. */
  function ThroughByte(op: Prmt, e: Prmt, idx: nat, i: nat): (b: SelByte)
    requires op.Valid() && e.Valid() && idx < 2 && i < 4
    ensures b.Valid()
  {
    var o := Get(op.sel, i);
    if o.src != idx then o
    else
      var inner := Get(e.sel, o.byte);
      SelByte(idx, inner.byte, o.msb || inner.msb)
  }

  /** All bytes of source `idx` come from the entry's source `from`. */
  ghost predicate OnlyFrom(op: Prmt, e: Prmt, idx: nat, from: Option<nat>, n: nat)
    requires op.Valid() && e.Valid() && idx < 2 && n <= 4
  {
    && (from.Some? ==> from.value < 2)
    && forall i :: 0 <= i < n && Get(op.sel, i).src == idx ==> from == Some(Get(e.sel, Get(op.sel, i).byte).src)
  }

  lemma ThroughValue(op: Prmt, e: Prmt, v: nat, idx: nat, from: Option<nat>, op': Prmt, i: nat, env: Env, rank: nat -> nat)
    requires op.Valid() && e.Valid() && idx < 2 && i < 4 && OnlyFrom(op, e, idx, from, 4) && EntryOk(v, e, env, rank)
    requires op.srcs[idx].SsaSrc? && op.srcs[idx].v == v
    requires op'.Valid() && Get(op'.sel, i) == ThroughByte(op, e, idx, i)
    requires op'.srcs == op.srcs[idx := if from.Some? then e.srcs[from.value] else ZeroSrc]
    ensures op'.Byte(i, env) == op.Byte(i, env)
  {
    hide Get, ByteOf, Replicated, Assemble;
    var o := Get(op.sel, i);
    if o.src == idx {
      var inner := Get(e.sel, o.byte);
      ByteOfResult(e, env, o.byte);
      ReplicatedTwice(ByteOf(Val(e.srcs[inner.src], env), inner.byte), inner.msb, o.msb);
    }
  }

  /** The selector bytes after looking through source `idx`, if they need only one of the entry's sources. */
  method ThroughAll(op: Prmt, e: Prmt, idx: nat) returns (r: Option<(seq<SelByte>, Option<nat>)>)
    requires op.Valid() && e.Valid() && idx < 2
    ensures r.Some? ==>
              && OnlyFrom(op, e, idx, r.value.1, 4)
              && |r.value.0| == 4 && forall k :: 0 <= k < 4 ==> r.value.0[k] == ThroughByte(op, e, idx, k)
    ensures r.None? ==> forall from :: !OnlyFrom(op, e, idx, from, 4)
  {
    hide Get;
    var newSel: seq<SelByte> := [];
    var from: Option<nat> := None;
    for i := 0 to 4
      invariant |newSel| == i && OnlyFrom(op, e, idx, from, i)
      invariant forall other :: OnlyFrom(op, e, idx, other, 4) && from.Some? ==> other == from
      invariant forall k :: 0 <= k < i ==> newSel[k] == ThroughByte(op, e, idx, k)
    {
      var o := Get(op.sel, i);
      if o.src == idx {
        var inner := Get(e.sel, o.byte);
        if from.Some? && from.value != inner.src {
          return None;
        }
        from := Some(inner.src);
      }
      newSel := newSel + [ThroughByte(op, e, idx, i)];
    }
    r := Some((newSel, from));
  }

  ghost predicate CanLookThrough(op: Prmt, idx: nat, table: map<nat, Prmt>)
    requires op.Valid() && idx < 2
  {
    Known(op.srcs[idx], table) && table[op.srcs[idx].v].Valid() && exists from :: OnlyFrom(op, table[op.srcs[idx].v], idx, from, 4)
  }

  /** Looks through a source that is itself a permute, exactly when all the bytes taken from it come from
      one of that permute's sources. */
  method TryOptPrmtSrc(op: Prmt, idx: nat, table: map<nat, Prmt>, ghost env: Env, ghost rank: nat -> nat, ghost bound: nat)
    returns (changed: bool, op': Prmt)
    requires op.Valid() && idx < 2 && TableOk(table, env, rank) && Below(op, rank, bound)
    ensures op'.Valid() && op'.Result(env) == op.Result(env) && Below(op', rank, bound)
    ensures !changed ==> op' == op
    ensures changed <==> CanLookThrough(op, idx, table)
    ensures changed ==> Depth(op'.srcs[idx], table, rank) < Depth(op.srcs[idx], table, rank)
  {
    hide Get, Prmt.Result, Prmt.Byte, EntryOk, New, ThroughByte;
    if !Known(op.srcs[idx], table) {
      return false, op;
    }
    var v := op.srcs[idx].v;
    var e := table[v];
    EntryShape(v, e, env, rank);
    var through := ThroughAll(op, e, idx);
    if through.None? {
      return false, op;
    }
    var (newSel, from) := through.value;
    op' := Prmt(New(newSel), op.srcs[idx := if from.Some? then e.srcs[from.value] else ZeroSrc]);
    SelectedThrough(op, e, v, idx, newSel, from, op', env, rank);
    changed := true;
  }

  lemma SelectedThrough(op: Prmt, e: Prmt, v: nat, idx: nat, newSel: seq<SelByte>, from: Option<nat>, op': Prmt, env: Env, rank: nat -> nat)
    requires op.Valid() && e.Valid() && idx < 2 && OnlyFrom(op, e, idx, from, 4) && EntryOk(v, e, env, rank)
    requires op.srcs[idx].SsaSrc? && op.srcs[idx].v == v
    requires ValidBytes(newSel) && forall k :: 0 <= k < 4 ==> newSel[k] == ThroughByte(op, e, idx, k)
    requires op' == Prmt(New(newSel), op.srcs[idx := if from.Some? then e.srcs[from.value] else ZeroSrc])
    ensures op'.Result(env) == op.Result(env)
  {
    hide Get, Prmt.Result, Prmt.Byte, EntryOk, New, ThroughByte, OnlyFrom;
    forall i | 0 <= i < 4
      ensures op'.Byte(i, env) == op.Byte(i, env)
    {
      GetNew(newSel, i);
      ThroughValue(op, e, v, idx, from, op', i, env, rank);
    }
    SameBytesSameResult(op', op, env);
  }

  lemma EntryShape(v: nat, e: Prmt, env: Env, rank: nat -> nat)
    requires EntryOk(v, e, env, rank)
    ensures e.Valid() && forall k :: 0 <= k < 2 ==> RankBelow(e.srcs[k], rank, rank(v))
  {
  }

  ghost predicate Below(op: Prmt, rank: nat -> nat, bound: nat)
    requires op.Valid()
  {
    RankBelow(op.srcs[0], rank, bound) && RankBelow(op.srcs[1], rank, bound)
  }

  /** How far a source can still be looked through. */
  ghost function Depth(src: Source, table: map<nat, Prmt>, rank: nat -> nat): nat {
    if Known(src, table) then rank(src.v) + 1 else 0
  }

  // ----- All four bytes -----

  /** What one byte of the result is: a constant, or a byte of a source. */
  datatype Kind = Const(u: bv8) | From(src: Source, byte: nat, msb: bool)

  ghost predicate KindOk(k: Kind) {
    k.From? ==> k.byte < 4 && SrcAsU32(k.src).None?
  }

  ghost function KindVal(k: Kind, env: Env): bv8
    requires KindOk(k)
  {
    match k
    case Const(u) => u
    case From(src, byte, msb) => Replicated(ByteOf(Val(src, env), byte), msb)
  }

  /** What a selector byte takes from a source. */
  function Taken(b: SelByte, src: Source): (k: Kind)
    requires b.Valid()
    ensures KindOk(k)
  {
    var u := SrcAsU32(src);
    if u.Some? then Const(b.FoldU32(u.value)) else From(src, b.byte, b.msb)
  }

  lemma TakenVal(b: SelByte, src: Source, env: Env)
    requires b.Valid()
    ensures KindVal(Taken(b, src), env) == b.FoldU32(Val(src, env))
  {
    hide ByteOf, Replicated;
  }

  function KindAt(op: Prmt, i: nat): (k: Kind)
    requires op.Valid() && i < 4
    ensures KindOk(k)
  {
    Taken(Get(op.sel, i), op.srcs[Get(op.sel, i).src])
  }

  function WithMsb(k: Kind, msb: bool): (r: Kind)
    requires KindOk(k)
    ensures KindOk(r)
  {
    match k
    case Const(u) => Const(Replicated(u, msb))
    case From(src, byte, m) => From(src, byte, msb || m)
  }

  lemma WithMsbVal(k: Kind, msb: bool, env: Env)
    requires KindOk(k)
    ensures KindVal(WithMsb(k, msb), env) == Replicated(KindVal(k, env), msb)
  {
    hide Replicated, ByteOf, Val;
    if k.From? {
      ReplicatedTwice(ByteOf(Val(k.src, env), k.byte), k.msb, msb);
    }
  }

  /** Byte `i` after looking through its source once. */
  function Expand(op: Prmt, i: nat, table: map<nat, Prmt>): (k: Kind)
    requires op.Valid() && i < 4 && forall v :: v in table ==> table[v].Valid()
    ensures KindOk(k)
  {
    var o := Get(op.sel, i);
    var src := op.srcs[o.src];
    if Known(src, table) then WithMsb(KindAt(table[src.v], o.byte), o.msb) else Taken(o, src)
  }

  lemma ExpandVal(op: Prmt, i: nat, table: map<nat, Prmt>, env: Env, rank: nat -> nat)
    requires op.Valid() && i < 4 && TableOk(table, env, rank)
    ensures KindVal(Expand(op, i, table), env) == op.Byte(i, env)
  {
    hide Get, ByteOf, Replicated, Prmt.Result, Val, KindVal, WithMsb, Taken;
    var o := Get(op.sel, i);
    var src := op.srcs[o.src];
    if Known(src, table) {
      var e := table[src.v];
      assert EntryOk(src.v, e, env, rank);
      WithMsbVal(KindAt(e, o.byte), o.msb, env);
      TakenVal(Get(e.sel, o.byte), e.srcs[Get(e.sel, o.byte).src], env);
      ByteOfResult(e, env, o.byte);
      KnownVal(src, env);
    } else {
      TakenVal(o, src, env);
    }
  }

  lemma KnownVal(src: Source, env: Env)
    requires src.SsaSrc?
    ensures Val(src, env) == env.ssa(src.v)
  {
  }

  // ----- Packing four bytes into two sources -----

  /** The sources collected so far; one of them may hold constant bytes, packed from the low end. */
  datatype Packed = Packed(srcs: seq<Source>, num: nat, immSrc: Option<nat>, numImm: nat)

  const EMPTY := Packed([ZeroSrc, ZeroSrc], 0, None, 0)

  function PutByte(w: Word, b: nat, u: bv8): Word
    requires b < 4
  {
    w | (if b == 0 then u as bv32 else if b == 1 then (u as bv32) << 8 else if b == 2 then (u as bv32) << 16 else (u as bv32) << 24)
  }

  lemma Put0(w: Word, u: bv8, k: nat)
    requires k < 4 && ByteOf(w, 0) == 0
    ensures ByteOf(PutByte(w, 0, u), k) == if k == 0 then u else ByteOf(w, k)
  {
  }

  lemma Put1(w: Word, u: bv8, k: nat)
    requires k < 4 && ByteOf(w, 1) == 0
    ensures ByteOf(PutByte(w, 1, u), k) == if k == 1 then u else ByteOf(w, k)
  {
  }

  lemma Put2(w: Word, u: bv8, k: nat)
    requires k < 4 && ByteOf(w, 2) == 0
    ensures ByteOf(PutByte(w, 2, u), k) == if k == 2 then u else ByteOf(w, k)
  {
  }

  lemma Put3(w: Word, u: bv8, k: nat)
    requires k < 4 && ByteOf(w, 3) == 0
    ensures ByteOf(PutByte(w, 3, u), k) == if k == 3 then u else ByteOf(w, k)
  {
  }

  lemma BytesAfterPut(w: Word, b: nat, u: bv8, k: nat)
    requires b < 4 && k < 4 && ByteOf(w, b) == 0
    ensures ByteOf(PutByte(w, b, u), k) == if k == b then u else ByteOf(w, k)
  {
    hide ByteOf, PutByte;
    if b == 0 {
      Put0(w, u, k);
    } else if b == 1 {
      Put1(w, u, k);
    } else if b == 2 {
      Put2(w, u, k);
    } else {
      Put3(w, u, k);
    }
  }

  /** Adds a source: an equal one, or a free place. */
  function AddSrc(st: Packed, src: Source): Option<(Packed, nat)>
    requires |st.srcs| == 2 && st.num <= 2
  {
    if st.num > 0 && st.srcs[0] == src then Some((st, 0))
    else if st.num > 1 && st.srcs[1] == src then Some((st, 1))
    else if st.num < 2 then Some((st.(srcs := st.srcs[st.num := src], num := st.num + 1), st.num))
    else None
  }

  /** Gives the constant bytes a source of their own. */
  function OpenImm(st: Packed): Option<Packed>
    requires |st.srcs| == 2 && st.num <= 2
  {
    if st.immSrc.Some? then Some(st)
    else if st.num >= 2 then None
    else Some(st.(immSrc := Some(st.num), num := st.num + 1))
  }

  /** Adds a constant byte.  Zero bytes share the first place as long as there is nothing else. */
  function AddImmByte(st: Packed, u: bv8): Option<(Packed, nat)>
    requires |st.srcs| == 2 && st.immSrc.Some? && st.immSrc.value < 2 && st.numImm < 4
  {
    var at := st.immSrc.value;
    match st.srcs[at]
    case ZeroSrc =>
      if u == 0 then Some((st.(numImm := 1), 0))
      else Some((st.(srcs := st.srcs[at := Imm(PutByte(0, st.numImm, u))], numImm := st.numImm + 1), st.numImm))
    case Imm(w) => Some((st.(srcs := st.srcs[at := Imm(PutByte(w, st.numImm, u))], numImm := st.numImm + 1), st.numImm))
    case _ => None
  }

  /** The collected sources after `n` bytes: at most `n` constant bytes, nothing above them, and a
      constant source only where the constant bytes are. */
  ghost predicate PackedOk(st: Packed, n: nat) {
    && |st.srcs| == 2 && st.num <= 2 && st.numImm <= n
    && (st.immSrc.None? <==> st.numImm == 0)
    && (st.immSrc.Some? ==> st.immSrc.value < st.num && ImmOk(st.srcs[st.immSrc.value], st.numImm))
    && (forall i :: 0 <= i < 2 && st.immSrc != Some(i) ==> if i < st.num then SrcAsU32(st.srcs[i]).None? else st.srcs[i] == ZeroSrc)
  }

  ghost predicate ImmOk(src: Source, numImm: nat) {
    match src
    case ZeroSrc => numImm <= 1
    case Imm(w) => forall k: nat :: numImm <= k < 4 ==> ByteOf(w, k) == 0
    case _ => false
  }

  ghost predicate SelOk(st: Packed, b: SelByte, k: Kind)
    requires |st.srcs| == 2
  {
    && b.Valid() && b.src < st.num && Taken(b, st.srcs[b.src]) == k
    && (st.immSrc == Some(b.src) ==> b.byte < st.numImm && !b.msb)
  }

  /** The first `n` bytes have been packed. */
  ghost predicate AllPacked(st: Packed, kinds: seq<Kind>, sels: seq<SelByte>) {
    && |sels| <= |kinds| && PackedOk(st, |sels|)
    && forall i :: 0 <= i < |sels| ==> SelOk(st, sels[i], kinds[i])
  }

  /** Adds one byte, constant or not. */
  function AddKind(st: Packed, k: Kind): Option<(Packed, SelByte)>
    requires |st.srcs| == 2 && st.num <= 2 && (st.immSrc.Some? ==> st.immSrc.value < 2) && st.numImm < 4
  {
    match k
    case Const(u) =>
      var o := OpenImm(st);
      if o.None? then None else
        var a := AddImmByte(o.value, u);
        if a.None? then None else Some((a.value.0, SelByte(o.value.immSrc.value, a.value.1, false)))
    case From(src, byte, msb) =>
      var a := AddSrc(st, src);
      if a.None? then None else Some((a.value.0, SelByte(a.value.1, byte, msb)))
  }

  lemma ZeroBytes(k: nat)
    requires k < 4
    ensures ByteOf(0, k) == 0
  {
  }

  lemma ConstTaken(b: SelByte, src: Source, w: Word)
    requires b.Valid() && !b.msb && SrcAsU32(src) == Some(w)
    ensures Taken(b, src) == Const(ByteOf(w, b.byte))
  {
    hide ByteOf;
  }

  /** The word in the constant source. */
  ghost function ImmWord(src: Source): Word {
    if src.Imm? then src.w else 0
  }

  /** A constant byte lands in its place and disturbs no earlier one. */
  lemma AddImmByteOk(st: Packed, u: bv8, k: nat)
    requires |st.srcs| == 2 && st.immSrc.Some? && st.immSrc.value < 2 && st.numImm < 4 && k < 4
    requires ImmOk(st.srcs[st.immSrc.value], st.numImm)
    ensures AddImmByte(st, u).Some?
    ensures var (st', b) := AddImmByte(st, u).value; var at := st.immSrc.value;
            && |st'.srcs| == 2 && (forall i :: 0 <= i < 2 && i != at ==> st'.srcs[i] == st.srcs[i])
            && st'.num == st.num && st'.immSrc == st.immSrc && st.numImm <= st'.numImm <= st.numImm + 1 && b < st'.numImm <= 4
            && ImmOk(st'.srcs[at], st'.numImm) && SrcAsU32(st'.srcs[at]) == Some(ImmWord(st'.srcs[at]))
            && SrcAsU32(st.srcs[at]) == Some(ImmWord(st.srcs[at]))
            && ByteOf(ImmWord(st'.srcs[at]), b) == u
            && (k < st.numImm ==> ByteOf(ImmWord(st'.srcs[at]), k) == ByteOf(ImmWord(st.srcs[at]), k))
  {
    hide ByteOf, PutByte;
    var w := ImmWord(st.srcs[st.immSrc.value]);
    forall j: nat | j < 4
      ensures ByteOf(0, j) == 0
      ensures ByteOf(w, st.numImm) == 0 ==> ByteOf(PutByte(w, st.numImm, u), j) == if j == st.numImm then u else ByteOf(w, j)
    {
      ZeroBytes(j);
      if ByteOf(w, st.numImm) == 0 {
        BytesAfterPut(w, st.numImm, u, j);
      }
    }
  }

  lemma AddConstOk(st: Packed, kinds: seq<Kind>, sels: seq<SelByte>, u: bv8)
    requires AllPacked(st, kinds, sels) && |sels| < |kinds| && |sels| < 4 && kinds[|sels|] == Const(u) && AddKind(st, Const(u)).Some?
    ensures AllPacked(AddKind(st, Const(u)).value.0, kinds, sels + [AddKind(st, Const(u)).value.1])
  {
    hide ByteOf, PutByte, AddImmByte, Taken, ImmOk;
    var (st', b) := AddKind(st, Const(u)).value;
    var o := OpenImm(st).value;
    OpenedOk(st, |sels|);
    AddImmByteOk(o, u, 0);
    var at := o.immSrc.value;
    ConstTaken(b, st'.srcs[at], ImmWord(st'.srcs[at]));
    forall i | 0 <= i < |sels|
      ensures SelOk(st', sels[i], kinds[i])
    {
      assert SelOk(st, sels[i], kinds[i]);
      if sels[i].src == at {
        AddImmByteOk(o, u, sels[i].byte);
        ConstTaken(sels[i], st.srcs[at], ImmWord(st.srcs[at]));
        ConstTaken(sels[i], st'.srcs[at], ImmWord(st'.srcs[at]));
      }
    }
  }

  lemma OpenedOk(st: Packed, n: nat)
    requires PackedOk(st, n) && OpenImm(st).Some?
    ensures var o := OpenImm(st).value;
            && |o.srcs| == 2 && o.srcs == st.srcs && o.numImm == st.numImm && o.immSrc.Some? && o.immSrc.value < o.num <= 2
            && ImmOk(o.srcs[o.immSrc.value], o.numImm) && st.num <= o.num && (st.immSrc.None? ==> o.immSrc.value == st.num)
            && (forall i :: 0 <= i < 2 && o.immSrc != Some(i) ==> if i < o.num then SrcAsU32(o.srcs[i]).None? else o.srcs[i] == ZeroSrc)
  {
  }

  lemma AddFromOk(st: Packed, kinds: seq<Kind>, sels: seq<SelByte>, k: Kind)
    requires AllPacked(st, kinds, sels) && |sels| < |kinds| && |sels| < 4 && kinds[|sels|] == k && k.From? && KindOk(k) && AddKind(st, k).Some?
    ensures AllPacked(AddKind(st, k).value.0, kinds, sels + [AddKind(st, k).value.1])
  {
    hide ByteOf, PutByte, ImmOk;
    var (st', b) := AddKind(st, k).value;
    if st.immSrc.Some? {
      ImmIsConst(st, |sels|);
    }
    forall i | 0 <= i < |sels|
      ensures SelOk(st', sels[i], kinds[i])
    {
      assert SelOk(st, sels[i], kinds[i]);
    }
  }

  lemma ImmIsConst(st: Packed, n: nat)
    requires PackedOk(st, n) && st.immSrc.Some?
    ensures SrcAsU32(st.srcs[st.immSrc.value]).Some?
  {
  }

  lemma AddKindOk(st: Packed, kinds: seq<Kind>, sels: seq<SelByte>)
    requires AllPacked(st, kinds, sels) && |sels| < |kinds| && |sels| < 4 && KindOk(kinds[|sels|]) && AddKind(st, kinds[|sels|]).Some?
    ensures AllPacked(AddKind(st, kinds[|sels|]).value.0, kinds, sels + [AddKind(st, kinds[|sels|]).value.1])
  {
    hide AllPacked, AddKind;
    match kinds[|sels|]
    case Const(u) => AddConstOk(st, kinds, sels, u);
    case From(_, _, _) => AddFromOk(st, kinds, sels, kinds[|sels|]);
  }

  lemma PackedShape(st: Packed, kinds: seq<Kind>, sels: seq<SelByte>)
    requires AllPacked(st, kinds, sels) && |sels| < 4
    ensures |st.srcs| == 2 && st.num <= 2 && (st.immSrc.Some? ==> st.immSrc.value < 2) && st.numImm < 4
  {
  }

  ghost predicate KindsOk(kinds: seq<Kind>) {
    |kinds| == 4 && forall i :: 0 <= i < 4 ==> KindOk(kinds[i])
  }

  /** Packs the first `n` bytes. */
  ghost function PackUpTo(kinds: seq<Kind>, n: nat): (r: Option<(Packed, seq<SelByte>)>)
    requires KindsOk(kinds) && n <= 4
    ensures r.Some? ==> |r.value.1| == n && AllPacked(r.value.0, kinds, r.value.1)
  {
    if n == 0 then
      NothingPacked(kinds);
      Some((EMPTY, []))
    else
      var before := PackUpTo(kinds, n - 1);
      if before.None? then None else
        var (st, sels) := before.value;
        PackedShape(st, kinds, sels);
        var a := AddKind(st, kinds[n - 1]);
        if a.None? then None else
          AddKindOk(st, kinds, sels);
          Some((a.value.0, sels + [a.value.1]))
  }

  lemma NothingPacked(kinds: seq<Kind>)
    ensures AllPacked(EMPTY, kinds, [])
  {
  }

  /** The collected sources as the pass keeps them. */
  class PrmtSrcs {
    var srcs: seq<Source>
    var numSrcs: nat
    var immSrc: Option<nat>
    var numImmBytes: nat

    ghost function Now(): Packed
      reads this
    {
      Packed(srcs, numSrcs, immSrc, numImmBytes)
    }

    constructor ()
      ensures Now() == EMPTY
    {
      srcs := [ZeroSrc, ZeroSrc];
      numSrcs := 0;
      immSrc := None;
      numImmBytes := 0;
    }

    method TryAddSrc(src: Source) returns (r: Option<nat>)
      requires |srcs| == 2 && numSrcs <= 2
      modifies this
      ensures r.Some? <==> AddSrc(old(Now()), src).Some?
      ensures r.Some? ==> AddSrc(old(Now()), src) == Some((Now(), r.value))
    {
      for i := 0 to numSrcs
        invariant Now() == old(Now()) && forall k :: 0 <= k < i ==> srcs[k] != src
      {
        if srcs[i] == src {
          return Some(i);
        }
      }
      if numSrcs < 2 {
        r := Some(numSrcs);
        srcs := srcs[numSrcs := src];
        numSrcs := numSrcs + 1;
      } else {
        r := None;
      }
    }

    method TryAddImmU8(u: bv8) returns (r: Option<nat>)
      requires |srcs| == 2 && numSrcs <= 2 && (immSrc.Some? ==> immSrc.value < 2) && numImmBytes < 4
      modifies this
      ensures r.Some? <==> AddKind(old(Now()), Const(u)).Some?
      ensures r.Some? ==> immSrc.Some? && AddKind(old(Now()), Const(u)) == Some((Now(), SelByte(immSrc.value, r.value, false)))
    {
      hide PutByte;
      if immSrc.None? {
        if numSrcs >= 2 {
          return None;
        }
        immSrc := Some(numSrcs);
        numSrcs := numSrcs + 1;
      }
      match srcs[immSrc.value] {
        case ZeroSrc =>
          if u == 0 {
            numImmBytes := 1;
            r := Some(0);
          } else {
            r := Some(numImmBytes);
            srcs := srcs[immSrc.value := Imm(PutByte(0, numImmBytes, u))];
            numImmBytes := numImmBytes + 1;
          }
        case Imm(w) =>
          r := Some(numImmBytes);
          srcs := srcs[immSrc.value := Imm(PutByte(w, numImmBytes, u))];
          numImmBytes := numImmBytes + 1;
        case _ =>
          r := None;
      }
    }

    /** Adds one byte of the result. */
    method TryAdd(k: Kind) returns (r: Option<SelByte>)
      requires |srcs| == 2 && numSrcs <= 2 && (immSrc.Some? ==> immSrc.value < 2) && numImmBytes < 4
      modifies this
      ensures r.Some? <==> AddKind(old(Now()), k).Some?
      ensures r.Some? ==> AddKind(old(Now()), k) == Some((Now(), r.value))
    {
      hide AddImmByte;
      match k {
        case Const(u) =>
          var b := TryAddImmU8(u);
          r := if b.Some? then Some(SelByte(immSrc.value, b.value, false)) else None;
        case From(src, byte, msb) =>
          var i := TryAddSrc(src);
          r := if i.Some? then Some(SelByte(i.value, byte, msb)) else None;
      }
    }
  }

  // ----- Rewriting all four bytes at once -----

  ghost predicate TableShape(table: map<nat, Prmt>) {
    forall v :: v in table ==> table[v].Valid()
  }

  ghost function Kinds(op: Prmt, table: map<nat, Prmt>): (k: seq<Kind>)
    requires op.Valid() && TableShape(table)
    ensures KindsOk(k)
  {
    [Expand(op, 0, table), Expand(op, 1, table), Expand(op, 2, table), Expand(op, 3, table)]
  }

  /** The selector bytes are those that packing the operation's own bytes produces. */
  ghost predicate Normal(op: Prmt)
    requires op.Valid()
  {
    var p := PackUpTo(Kinds(op, map[]), 4);
    p.Some? && op.srcs == p.value.0.srcs && ValidBytes(p.value.1) && op.sel == New(p.value.1)
  }

  ghost function KindDepth(k: Kind, table: map<nat, Prmt>, rank: nat -> nat): nat {
    if k.From? then Depth(k.src, table, rank) else 0
  }

  ghost function ByteDepth(op: Prmt, i: nat, table: map<nat, Prmt>, rank: nat -> nat): nat
    requires op.Valid() && i < 4
  {
    Depth(op.srcs[Get(op.sel, i).src], table, rank)
  }

  ghost function TotalDepth(op: Prmt, table: map<nat, Prmt>, rank: nat -> nat): nat
    requires op.Valid()
  {
    ByteDepth(op, 0, table, rank) + ByteDepth(op, 1, table, rank) + ByteDepth(op, 2, table, rank) + ByteDepth(op, 3, table, rank)
  }

  /** Looking through a known source brings a byte nearer to the leaves. */
  lemma ExpandDepth(op: Prmt, i: nat, table: map<nat, Prmt>, env: Env, rank: nat -> nat)
    requires op.Valid() && i < 4 && TableOk(table, env, rank) && TableShape(table)
    ensures ByteDepth(op, i, table, rank) > 0 ==> KindDepth(Expand(op, i, table), table, rank) < ByteDepth(op, i, table, rank)
    ensures ByteDepth(op, i, table, rank) == 0 ==> KindDepth(Expand(op, i, table), table, rank) == 0 && Expand(op, i, table) == KindAt(op, i)
  {
    hide Get, ByteOf, Replicated, Prmt.Result;
    var src := op.srcs[Get(op.sel, i).src];
    if Known(src, table) {
      assert EntryOk(src.v, table[src.v], env, rank);
    }
  }

  lemma KindAtNew(st: Packed, kinds: seq<Kind>, sels: seq<SelByte>, i: nat)
    requires AllPacked(st, kinds, sels) && |sels| == |kinds| == 4 && i < 4
    ensures ValidBytes(sels) && |st.srcs| == 2 && KindAt(Prmt(New(sels), st.srcs), i) == kinds[i]
    ensures Get(New(sels), i) == sels[i]
  {
    hide Get, New, Taken, PackedOk;
    PackedHasTwo(st, kinds, sels);
    forall j | 0 <= j < 4
      ensures sels[j].Valid()
    {
      assert SelOk(st, sels[j], kinds[j]);
    }
    GetNew(sels, i);
    assert SelOk(st, sels[i], kinds[i]);
  }

  lemma PackedHasTwo(st: Packed, kinds: seq<Kind>, sels: seq<SelByte>)
    requires AllPacked(st, kinds, sels)
    ensures |st.srcs| == 2
  {
  }

  lemma PackedResult(op: Prmt, table: map<nat, Prmt>, st: Packed, sels: seq<SelByte>, env: Env, rank: nat -> nat)
    requires op.Valid() && TableOk(table, env, rank) && TableShape(table) && AllPacked(st, Kinds(op, table), sels) && |sels| == 4
    ensures ValidBytes(sels) && |st.srcs| == 2 && Prmt(New(sels), st.srcs).Result(env) == op.Result(env)
  {
    hide Get, New, Prmt.Result, Prmt.Byte, Expand, KindVal, AllPacked, TableOk;
    KindAtNew(st, Kinds(op, table), sels, 0);
    var op' := Prmt(New(sels), st.srcs);
    forall i | 0 <= i < 4
      ensures op'.Byte(i, env) == op.Byte(i, env)
    {
      ExpandVal(op, i, table, env, rank);
      KindAtNew(st, Kinds(op, table), sels, i);
      KindAtVal(op', i, env);
    }
    SameBytesSameResult(op', op, env);
  }

  lemma KindAtVal(op: Prmt, i: nat, env: Env)
    requires op.Valid() && i < 4
    ensures KindVal(KindAt(op, i), env) == op.Byte(i, env)
  {
    hide Get, KindVal, Taken;
    TakenVal(Get(op.sel, i), op.srcs[Get(op.sel, i).src], env);
  }

  /** Packing its own bytes gives the same operation again. */
  lemma PackedIsNormal(kinds: seq<Kind>, st: Packed, sels: seq<SelByte>)
    requires KindsOk(kinds) && PackUpTo(kinds, 4) == Some((st, sels))
    ensures ValidBytes(sels) && |st.srcs| == 2 && Normal(Prmt(New(sels), st.srcs))
  {
    hide Get, New, PackUpTo, AllPacked, KindOk;
    KindAtNew(st, kinds, sels, 0);
    var op := Prmt(New(sels), st.srcs);
    forall i | 0 <= i < 4
      ensures Expand(op, i, map[]) == kinds[i]
    {
      KindAtNew(st, kinds, sels, i);
    }
    assert Kinds(op, map[]) == kinds;
  }

  /** The bytes behind the operation's sources do not fit into two sources, or packing them gives the
      operation itself. */
  ghost predicate AtRest(op: Prmt, table: map<nat, Prmt>)
    requires op.Valid() && TableShape(table)
  {
    match PackUpTo(Kinds(op, table), 4)
    case None => true
    case Some(p) => ValidBytes(p.1) && op == Prmt(New(p.1), p.0.srcs)
  }

  /** One round: every byte is looked through once and the four bytes are packed anew.  A round that
      changes the operation brings it nearer to the leaves, or into normal form, in which another round
      changes nothing. */
  method TryOptPrmt4(op: Prmt, table: map<nat, Prmt>, ghost env: Env, ghost rank: nat -> nat, ghost bound: nat)
    returns (changed: bool, op': Prmt)
    requires op.Valid() && TableOk(table, env, rank) && TableShape(table) && Below(op, rank, bound)
    ensures op'.Valid() && op'.Result(env) == op.Result(env) && Below(op', rank, bound)
    ensures !changed ==> op' == op && AtRest(op, table)
    ensures changed ==> TotalDepth(op', table, rank) < TotalDepth(op, table, rank)
                        || (TotalDepth(op', table, rank) == TotalDepth(op, table, rank) && Normal(op') && !Normal(op))
  {
    hide Get, New, Prmt.Result, Expand, AddKind, PackUpTo, Normal, TotalDepth, TableOk;
    ghost var kinds := Kinds(op, table);
    var st := new PrmtSrcs();
    var sels: seq<SelByte> := [];
    NoBytesPacked(kinds);
    for i := 0 to 4
      invariant |sels| == i && PackUpTo(kinds, i) == Some((st.Now(), sels))
    {
      PackedShape(st.Now(), kinds, sels);
      assert kinds[i] == Expand(op, i, table);
      var b := st.TryAdd(Expand(op, i, table));
      PackOneMore(kinds, i);
      if b.None? {
        PackingFails(kinds, i + 1, 4);
        return false, op;
      }
      sels := sels + [b.value];
    }
    PackedResult(op, table, st.Now(), sels, env, rank);
    PackedIsNormal(kinds, st.Now(), sels);
    op' := Prmt(New(sels), st.srcs);
    PackedBelow(op, table, st.Now(), sels, env, rank, bound);
    PackedDepth(op, table, st.Now(), sels, env, rank);
    changed := op' != op;
  }

  lemma {:induction false} PackingFails(kinds: seq<Kind>, n: nat, m: nat)
    requires KindsOk(kinds) && n <= m <= 4 && PackUpTo(kinds, n).None?
    ensures PackUpTo(kinds, m).None?
  {
    hide AddKind, AllPacked, KindOk;
    if n < m {
      PackingFails(kinds, n, m - 1);
    }
  }

  lemma NoBytesPacked(kinds: seq<Kind>)
    requires KindsOk(kinds)
    ensures PackUpTo(kinds, 0) == Some((EMPTY, []))
  {
  }

  lemma PackOneMore(kinds: seq<Kind>, n: nat)
    requires KindsOk(kinds) && n < 4 && PackUpTo(kinds, n).Some?
    ensures var (st, sels) := PackUpTo(kinds, n).value;
            && |st.srcs| == 2 && st.num <= 2 && (st.immSrc.Some? ==> st.immSrc.value < 2) && st.numImm < 4
            && PackUpTo(kinds, n + 1) == (var a := AddKind(st, kinds[n]); if a.None? then None else Some((a.value.0, sels + [a.value.1])))
  {
    hide AddKind, AllPacked;
    PackedShape(PackUpTo(kinds, n).value.0, kinds, PackUpTo(kinds, n).value.1);
  }

  lemma PackedDepth(op: Prmt, table: map<nat, Prmt>, st: Packed, sels: seq<SelByte>, env: Env, rank: nat -> nat)
    requires op.Valid() && TableOk(table, env, rank) && TableShape(table) && PackUpTo(Kinds(op, table), 4) == Some((st, sels))
    requires ValidBytes(sels) && |st.srcs| == 2 && Normal(Prmt(New(sels), st.srcs))
    ensures var op' := Prmt(New(sels), st.srcs);
            || op' == op
            || TotalDepth(op', table, rank) < TotalDepth(op, table, rank)
            || (TotalDepth(op', table, rank) == TotalDepth(op, table, rank) && Normal(op') && !Normal(op))
  {
    hide Get, New, PackUpTo, AllPacked, Expand, TableOk, ByteDepth, Taken;
    var op' := Prmt(New(sels), st.srcs);
    forall i | 0 <= i < 4
      ensures ByteDepth(op, i, table, rank) > 0 ==> ByteDepth(op', i, table, rank) < ByteDepth(op, i, table, rank)
      ensures ByteDepth(op, i, table, rank) == 0 ==> ByteDepth(op', i, table, rank) == 0 && Expand(op, i, table) == KindAt(op, i)
    {
      ExpandDepth(op, i, table, env, rank);
      KindAtNew(st, Kinds(op, table), sels, i);
      KindAtDepth(op', i, table, rank);
    }
    if TotalDepth(op, table, rank) == 0 && Normal(op) {
      FlatKinds(op, table);
    }
  }

  lemma KindAtDepth(op: Prmt, i: nat, table: map<nat, Prmt>, rank: nat -> nat)
    requires op.Valid() && i < 4
    ensures KindDepth(KindAt(op, i), table, rank) == ByteDepth(op, i, table, rank)
  {
    hide Get;
  }

  /** When there is nothing to look through, the bytes are the operation's own. */
  lemma FlatKinds(op: Prmt, table: map<nat, Prmt>)
    requires op.Valid() && TableShape(table) && forall i :: 0 <= i < 4 ==> Expand(op, i, table) == KindAt(op, i)
    ensures Kinds(op, table) == Kinds(op, map[])
  {
    hide Get, KindAt;
    forall i | 0 <= i < 4
      ensures Expand(op, i, map[]) == KindAt(op, i)
    {
      NothingKnown(op, i);
    }
  }

  lemma NothingKnown(op: Prmt, i: nat)
    requires op.Valid() && i < 4
    ensures Expand(op, i, map[]) == KindAt(op, i)
  {
    hide Get;
  }

  /** Packed sources are sources of the operation or of what it looked through. */
  lemma PackedBelow(op: Prmt, table: map<nat, Prmt>, st: Packed, sels: seq<SelByte>, env: Env, rank: nat -> nat, bound: nat)
    requires op.Valid() && TableOk(table, env, rank) && TableShape(table) && Below(op, rank, bound)
    requires PackUpTo(Kinds(op, table), 4) == Some((st, sels)) && |st.srcs| == 2
    ensures RankBelow(st.srcs[0], rank, bound) && RankBelow(st.srcs[1], rank, bound)
  {
    hide PackUpTo, Get, Expand, TableOk;
    forall i | 0 <= i < 4
      ensures KindBelow(Expand(op, i, table), rank, bound)
    {
      ExpandBelow(op, i, table, env, rank, bound);
    }
    PackedFromKinds(Kinds(op, table), 4, rank, bound);
  }

  ghost predicate KindBelow(k: Kind, rank: nat -> nat, bound: nat) {
    k.From? ==> RankBelow(k.src, rank, bound)
  }

  lemma ExpandBelow(op: Prmt, i: nat, table: map<nat, Prmt>, env: Env, rank: nat -> nat, bound: nat)
    requires op.Valid() && i < 4 && TableOk(table, env, rank) && TableShape(table) && Below(op, rank, bound)
    ensures KindBelow(Expand(op, i, table), rank, bound)
  {
    hide Get, Prmt.Result;
    var src := op.srcs[Get(op.sel, i).src];
    if Known(src, table) {
      assert EntryOk(src.v, table[src.v], env, rank);
    }
  }

  lemma {:induction false} PackedFromKinds(kinds: seq<Kind>, n: nat, rank: nat -> nat, bound: nat)
    requires KindsOk(kinds) && n <= 4 && (forall i :: 0 <= i < n ==> KindBelow(kinds[i], rank, bound)) && PackUpTo(kinds, n).Some?
    ensures var st := PackUpTo(kinds, n).value.0;
            |st.srcs| == 2 && RankBelow(st.srcs[0], rank, bound) && RankBelow(st.srcs[1], rank, bound)
  {
    hide AllPacked, KindOk, PutByte;
    if n > 0 {
      PackedFromKinds(kinds, n - 1, rank, bound);
      PackOneMore(kinds, n - 1);
      AddedBelow(PackUpTo(kinds, n - 1).value.0, kinds[n - 1], rank, bound);
    }
  }

  lemma AddedBelow(st: Packed, k: Kind, rank: nat -> nat, bound: nat)
    requires |st.srcs| == 2 && st.num <= 2 && (st.immSrc.Some? ==> st.immSrc.value < 2) && st.numImm < 4
    requires KindBelow(k, rank, bound) && RankBelow(st.srcs[0], rank, bound) && RankBelow(st.srcs[1], rank, bound) && AddKind(st, k).Some?
    ensures var st' := AddKind(st, k).value.0; |st'.srcs| == 2 && RankBelow(st'.srcs[0], rank, bound) && RankBelow(st'.srcs[1], rank, bound)
  {
    hide PutByte;
  }

  // ----- Whole instructions -----

  /** `sel` is `None` where the selector is not an immediate or the mode is not plain indexing; the pass
      leaves such permutes alone. */
  datatype OpPrmt = OpPrmt(dst: Option<nat>, sel: Option<Sel>, srcs: seq<Source>)

  /** Rewrites a permute until nothing changes and records it; its result stays what it was. */
  method OptimizePrmt(op: OpPrmt, table: map<nat, Prmt>, ghost env: Env, ghost rank: nat -> nat, ghost bound: nat)
    returns (op': OpPrmt, table': map<nat, Prmt>)
    requires |op.srcs| == 2 && TableOk(table, env, rank) && RankBelow(op.srcs[0], rank, bound) && RankBelow(op.srcs[1], rank, bound)
    requires op.sel.Some? && op.dst.Some? ==>
               rank(op.dst.value) == bound && env.ssa(op.dst.value) == Prmt(op.sel.value, op.srcs).Result(env)
    ensures |op'.srcs| == 2 && op'.dst == op.dst && (op'.sel.Some? <==> op.sel.Some?) && TableOk(table', env, rank)
    ensures op.sel.None? ==> op' == op
    ensures op.sel.Some? ==> Prmt(op'.sel.value, op'.srcs).Result(env) == Prmt(op.sel.value, op.srcs).Result(env)
    ensures op.sel.Some? ==> TableShape(table) && AtRest(Prmt(op'.sel.value, op'.srcs), table)
  {
    hide Prmt.Result, Normal, TotalDepth, EntryOk, AtRest, CanLookThrough;
    op', table' := op, table;
    if op.sel.None? {
      return;
    }
    assert TableShape(table) by { TableHasShape(table, env, rank); }
    var p := Prmt(op.sel.value, op.srcs);
    for i := 0 to 2
      invariant p.Valid() && p.Result(env) == Prmt(op.sel.value, op.srcs).Result(env) && Below(p, rank, bound)
    {
      var changed := true;
      while changed
        invariant p.Valid() && p.Result(env) == Prmt(op.sel.value, op.srcs).Result(env) && Below(p, rank, bound)
        decreases Depth(p.srcs[i], table, rank), changed
      {
        changed, p := TryOptPrmtSrc(p, i, table, env, rank, bound);
      }
    }
    var changed := true;
    while changed
      invariant p.Valid() && p.Result(env) == Prmt(op.sel.value, op.srcs).Result(env) && Below(p, rank, bound)
      invariant !changed ==> AtRest(p, table)
      decreases TotalDepth(p, table, rank), !Normal(p), changed
    {
      changed, p := TryOptPrmt4(p, table, env, rank, bound);
    }
    op' := OpPrmt(op.dst, Some(p.sel), p.srcs);
    if op.dst.Some? {
      Recorded(op.dst.value, p, env, rank);
      table' := table[op.dst.value := p];
    }
  }

  lemma TableHasShape(table: map<nat, Prmt>, env: Env, rank: nat -> nat)
    requires TableOk(table, env, rank)
    ensures TableShape(table)
  {
    assert forall v :: v in table ==> EntryOk(v, table[v], env, rank);
  }

  lemma Recorded(v: nat, p: Prmt, env: Env, rank: nat -> nat)
    requires p.Valid() && env.ssa(v) == p.Result(env) && Below(p, rank, rank(v))
    ensures EntryOk(v, p, env, rank)
  {
  }

  ghost predicate Holds(op: OpPrmt, env: Env) {
    |op.srcs| == 2 && (op.sel.Some? && op.dst.Some? ==> env.ssa(op.dst.value) == Prmt(op.sel.value, op.srcs).Result(env))
  }

  predicate SameDst(op: OpPrmt, op': OpPrmt) {
    op'.dst == op.dst && (op'.sel.Some? <==> op.sel.Some?)
  }

  ghost predicate WellFormed(op: OpPrmt, rank: nat -> nat, bound: nat) {
    && |op.srcs| == 2 && RankBelow(op.srcs[0], rank, bound) && RankBelow(op.srcs[1], rank, bound)
    && (op.dst.Some? ==> rank(op.dst.value) == bound)
  }

  /** Runs the pass over the permutes of a program in SSA order: each defines what it defined, and the
      values that satisfy the old equations satisfy the new ones. */
  method Run(ops: seq<OpPrmt>, ghost env: Env, ghost rank: nat -> nat) returns (out: seq<OpPrmt>)
    requires forall i :: 0 <= i < |ops| ==> WellFormed(ops[i], rank, i) && Holds(ops[i], env)
    ensures |out| == |ops| && forall i :: 0 <= i < |out| ==> Holds(out[i], env) && SameDst(ops[i], out[i])
  {
    hide Prmt.Result, EntryOk;
    out := [];
    var table: map<nat, Prmt> := map[];
    for i := 0 to |ops|
      invariant |out| == i && TableOk(table, env, rank) && forall k :: 0 <= k < i ==> Holds(out[k], env) && SameDst(ops[k], out[k])
    {
      assert WellFormed(ops[i], rank, i) && Holds(ops[i], env);
      var op;
      op, table := OptimizePrmt(ops[i], table, env, rank, i);
      out := out + [op];
    }
  }
}
