/** Source operands of SSA instructions and their values (crates/deko-nak/src/ir.rs). */
module Operands {
  import opened Machine

  /** An unmodified source operand.  A predicate value stands for a word of equal bits. */
  datatype Source = SsaSrc(v: nat, isPred: bool) | ZeroSrc | FalseSrc | TrueSrc | Imm(w: Word) | OtherSrc(id: nat)

  /** The words of the SSA values and of the sources that the pass does not look into. */
  datatype Env = Env(ssa: nat -> Word, other: nat -> Word)

  function Val(src: Source, env: Env): Word {
    match src
    case SsaSrc(v, _) => env.ssa(v)
    case ZeroSrc => 0
    case FalseSrc => 0
    case TrueSrc => 0xffff_ffff
    case Imm(w) => w
    case OtherSrc(id) => env.other(id)
  }

  /** The constant word that a source stands for. */
  function SrcAsU32(src: Source): Option<Word> {
    match src
    case ZeroSrc => Some(0)
    case Imm(w) => Some(w)
    case _ => None
  }

  function FromU32(w: Word): Source {
    if w == 0 then ZeroSrc else Imm(w)
  }

  ghost predicate RankBelow(src: Source, rank: nat -> nat, bound: nat) {
    src.SsaSrc? ==> rank(src.v) < bound
  }
}
