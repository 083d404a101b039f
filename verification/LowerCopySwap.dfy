/** Lowering of register swaps (crates/deko-nak/src/lower_copy_swap.rs), and with it of whole parallel
    copies to machine operations. */
module LowerCopySwap {
  import opened Machine
  import LogicOps
  import LPC = LowerParCopies

  /** What a swap or a copy becomes: a move, an exclusive or, or one operation with two tables and two
      destinations. */
  datatype MachineOp =
    | Mov(dst: Reg, src: Src)
    | Xor(dst: Reg, a: Reg, b: Reg)
    | PLop3(dst0: Reg, dst1: Reg, x: Reg, y: Reg, lut0: bv8, lut1: bv8)

  function XorWords(x: Word, y: Word): Word {
    x ^ y
  }

  /** `PLop3` reads its sources, the third of which is true, before it writes. */
  function Step(op: MachineOp, s: State): State {
    match op
    case Mov(dst, src) => Write(s, dst, Eval(src, s))
    case Xor(dst, a, b) => Write(s, dst, XorWords(s(a), s(b)))
    case PLop3(dst0, dst1, x, y, lut0, lut1) =>
      Write(Write(s, dst0, LogicOps.Eval(lut0, s(x), s(y), 0xffff_ffff)), dst1, LogicOps.Eval(lut1, s(x), s(y), 0xffff_ffff))
  }

  function Steps(ops: seq<MachineOp>, s: State): State {
    if ops == [] then s else Step(ops[|ops| - 1], Steps(ops[..|ops| - 1], s))
  }

  predicate IsPredicate(r: Reg) {
    r.file == Pred || r.file == UPred
  }

  /** Nothing for a register with itself, one two-destination operation for predicates on machines that
      have it, three exclusive ors otherwise. */
  function LowerSwap(x: Reg, y: Reg, sm: nat): seq<MachineOp> {
    if x == y then []
    else if IsPredicate(x) && sm >= 70 then
      [PLop3(x, y, x, y, LogicOps.NewLut(LogicOps.Src(1)), LogicOps.NewLut(LogicOps.Src(0)))]
    else
      [Xor(x, x, y), Xor(y, x, y), Xor(x, x, y)]
  }

  function Lower(i: LPC.Instr, sm: nat): seq<MachineOp> {
    match i
    case CopyTo(dst, src) => [Mov(dst, src)]
    case Swap(x, y) => LowerSwap(x, y, sm)
  }

  /** Lowers a sequence of copies and swaps. */
  method LowerAll(code: seq<LPC.Instr>, sm: nat) returns (ops: seq<MachineOp>)
    ensures forall s: State, r: Reg {:trigger Steps(ops, s)(r)} :: Steps(ops, s)(r) == LPC.Run(code, s)(r)
  {
    ops := [];
    for k := 0 to |code|
      invariant forall s: State, r: Reg {:trigger Steps(ops, s)(r)} :: Steps(ops, s)(r) == LPC.Run(code[..k], s)(r)
    {
      var more := Lower(code[k], sm);
      LowerOneMore(code, k, ops, more, sm);
      ops := ops + more;
    }
    assert code[..|code|] == code;
  }

  lemma XorSwap(x: Word, y: Word)
    ensures XorWords(XorWords(x, y), y) == x && XorWords(XorWords(x, y), x) == y
  {
  }

  /** The lowered swap exchanges the two registers and changes no other. */
  lemma SwapIsSwapped(x: Reg, y: Reg, sm: nat, s: State, r: Reg)
    ensures Steps(LowerSwap(x, y, sm), s)(r) == LPC.Exec(LPC.Swap(x, y), s)(r)
  {
    hide LogicOps.Eval, LogicOps.NewLut, XorWords;
    if x != y {
      if IsPredicate(x) && sm >= 70 {
        var both := [s(x), s(y), 0xffff_ffff];
        LogicOps.NewLutEvaluates(LogicOps.Src(0), both);
        LogicOps.NewLutEvaluates(LogicOps.Src(1), both);
        OneStep(LowerSwap(x, y, sm), s);
      } else {
        XorSwap(s(x), s(y));
        ThreeXors(x, y, s, r);
      }
    }
  }

  lemma OneStep(ops: seq<MachineOp>, s: State)
    requires |ops| == 1
    ensures Steps(ops, s) == Step(ops[0], s)
  {
    assert ops[..0] == [];
  }

  lemma ThreeXors(x: Reg, y: Reg, s: State, r: Reg)
    requires x != y
    ensures var a := XorWords(s(x), s(y)); var b := XorWords(a, s(y));
            Steps([Xor(x, x, y), Xor(y, x, y), Xor(x, x, y)], s)(r) == if r == x then XorWords(a, b) else if r == y then b else s(r)
  {
    hide XorWords;
    var ops := [Xor(x, x, y), Xor(y, x, y), Xor(x, x, y)];
    assert ops[..2] == [Xor(x, x, y), Xor(y, x, y)];
    assert ops[..2][..1] == [Xor(x, x, y)];
    OneStep([Xor(x, x, y)], s);
  }

  lemma {:induction false} StepsAppend(a: seq<MachineOp>, b: seq<MachineOp>, s: State)
    ensures Steps(a + b, s) == Steps(b, Steps(a, s))
  {
    if b == [] {
      assert a + b == a;
    } else {
      assert (a + b)[..|a + b| - 1] == a + b[..|b| - 1];
      StepsAppend(a, b[..|b| - 1], s);
    }
  }

  ghost predicate Agree(s: State, t: State) {
    forall q: Reg {:trigger s(q)} {:trigger t(q)} :: s(q) == t(q)
  }

  /** States that agree on every register stay in agreement. */
  lemma {:induction false} StepsAgree(ops: seq<MachineOp>, s: State, t: State)
    requires Agree(s, t)
    ensures Agree(Steps(ops, s), Steps(ops, t))
  {
    hide LogicOps.Eval, XorWords;
    if ops != [] {
      StepsAgree(ops[..|ops| - 1], s, t);
      StepAgrees(ops[|ops| - 1], Steps(ops[..|ops| - 1], s), Steps(ops[..|ops| - 1], t));
    }
  }

  lemma StepAgrees(op: MachineOp, s: State, t: State)
    requires Agree(s, t)
    ensures Agree(Step(op, s), Step(op, t))
  {
    hide LogicOps.Eval, XorWords;
  }

  lemma LowerOneMore(code: seq<LPC.Instr>, k: nat, ops: seq<MachineOp>, more: seq<MachineOp>, sm: nat)
    requires k < |code| && more == Lower(code[k], sm)
    requires forall s: State, r: Reg {:trigger Steps(ops, s)(r)} :: Steps(ops, s)(r) == LPC.Run(code[..k], s)(r)
    ensures forall s: State, r: Reg {:trigger Steps(ops + more, s)(r)} :: Steps(ops + more, s)(r) == LPC.Run(code[..k + 1], s)(r)
  {
    assert code[..k + 1][..k] == code[..k];
    forall s: State, r: Reg
      ensures Steps(ops + more, s)(r) == LPC.Run(code[..k + 1], s)(r)
    {
      StepsAppend(ops, more, s);
      var t, u := Steps(ops, s), LPC.Run(code[..k], s);
      StepsAgree(more, t, u);
      match code[k]
      case CopyTo(dst, src) => OneStep(more, u);
      case Swap(x, y) => SwapIsSwapped(x, y, sm, u, r);
    }
  }

  /** The operations perform the parallel copy, from every state. */
  ghost predicate Performs(pc: LPC.ParCopy, ops: seq<MachineOp>) {
    forall s: State {:trigger Steps(ops, s)} :: IsParallelCopy(pc.copies, pc.TmpRegs(), s, Steps(ops, s))
  }

  /** From the parallel copy to machine operations: the emitted operations perform the parallel copy. */
  method LowerParCopy(pc: LPC.ParCopy, sm: nat) returns (r: Option<seq<MachineOp>>)
    requires pc.Valid()
    ensures r.None? ==> !pc.EnoughTmps()
    ensures r.Some? ==> Performs(pc, r.value)
  {
    var code := LPC.LowerParCopy(pc);
    if code.None? {
      return None;
    }
    var ops := LowerAll(code.value, sm);
    r := Some(ops);
  }
}
