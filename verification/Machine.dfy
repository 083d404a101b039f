/** The register machine that the copy and allocation passes are about.

    A machine state gives every register a 32-bit word.  Registers carry the register file
    they live in, because some passes treat barrier and memory registers specially.  Only
    scalar registers (one component) have state; a vector register is a run of consecutive
    scalar registers.
  */
module Machine {

  datatype Option<+T> = None | Some(value: T)

  datatype RegFile = GPR | UGPR | Pred | UPred | Carry | Bar | Mem

  datatype Reg = Reg(file: RegFile, idx: nat)

  type Word = bv32

  /** What a copy reads: a register, or a value no copy can change (an immediate, the zero
      register, a constant-buffer word), represented by the word it evaluates to. */
  datatype Src = FromReg(reg: Reg) | Fixed(word: Word)

  type State = Reg -> Word

  function Eval(src: Src, s: State): Word {
    match src
    case FromReg(r) => s(r)
    case Fixed(w) => w
  }

  function Write(s: State, r: Reg, w: Word): State {
    (q: Reg) => if q == r then w else s(q)
  }

  /** One scalar copy `dst := src`; a parallel copy is a sequence of these. */
  datatype Copy = Copy(dst: Reg, src: Src)

  predicate DistinctDsts(copies: seq<Copy>) {
    forall i, j :: 0 <= i < j < |copies| ==> copies[i].dst != copies[j].dst
  }

  predicate IsDst(copies: seq<Copy>, r: Reg) {
    exists i :: 0 <= i < |copies| && copies[i].dst == r
  }

  /** `t` is the outcome of performing all of `copies` simultaneously in state `s`; registers in
      `clobbered` may end up with any value. */
  ghost predicate IsParallelCopy(copies: seq<Copy>, clobbered: iset<Reg>, s: State, t: State) {
    && (forall i :: 0 <= i < |copies| ==> t(copies[i].dst) == Eval(copies[i].src, s))
    && (forall r: Reg :: !IsDst(copies, r) && r !in clobbered ==> t(r) == s(r))
  }
}
