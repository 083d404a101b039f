/** Machine words bit by bit, as crates/deko-compiler-utils/src/bitset.rs uses them. */
module WordBits {
  import opened Machine

  /** Bits, the lowest first. */
  type Bits = seq<bool>

  const WORD_BITS: nat := 32

  predicate IsWord(w: Bits) {
    |w| == WORD_BITS
  }

  /** The bits from `bit` on: all ones, shifted left. */
  function MaskFrom(bit: nat): Bits {
    seq(WORD_BITS, i => i >= bit)
  }

  function AllOnes(): Bits {
    MaskFrom(0)
  }

  function And(a: Bits, b: Bits): Bits
    requires |a| == |b|
  {
    seq(|a|, i requires 0 <= i < |a| => a[i] && b[i])
  }

  function Not(a: Bits): Bits {
    seq(|a|, i requires 0 <= i < |a| => !a[i])
  }

  function Xor(a: Bits, b: Bits): Bits
    requires |a| == |b|
  {
    seq(|a|, i requires 0 <= i < |a| => a[i] != b[i])
  }

  /** One more bit than a word, as in a wider type. */
  function Widen(a: Bits): Bits {
    a + [false]
  }

  predicate IsZero(a: Bits) {
    forall i :: 0 <= i < |a| ==> !a[i]
  }

  /** The position of the lowest bit, or the number of bits. */
  function TrailingZeros(a: Bits): (n: nat)
    ensures n <= |a| && (n < |a| ==> a[n]) && forall i :: 0 <= i < n ==> !a[i]
  {
    if a == [] || a[0] then 0 else
      TailBits(a);
      1 + TrailingZeros(a[1..])
  }

  lemma TailBits(a: Bits)
    requires a != []
    ensures forall i :: 0 < i < |a| ==> a[i] == a[1..][i - 1]
  {
  }

  // ----- Addition -----

  function Bit(b: bool): nat {
    if b then 1 else 0
  }

  function Value(a: Bits): nat {
    if a == [] then 0 else Bit(a[0]) + 2 * Value(a[1..])
  }

  /** The carry into bit `i`. */
  function CarryInto(a: Bits, b: Bits, i: nat): bool
    requires i <= |a| == |b|
  {
    i > 0 && ((a[i - 1] && b[i - 1]) || (CarryInto(a, b, i - 1) && (a[i - 1] || b[i - 1])))
  }

  /** The sum, with the last carry as its highest bit. */
  function Sum(a: Bits, b: Bits): Bits
    requires |a| == |b|
  {
    seq(|a|, i requires 0 <= i < |a| => (a[i] != b[i]) != CarryInto(a, b, i)) + [CarryInto(a, b, |a|)]
  }

  function Pow2(n: nat): nat {
    if n == 0 then 1 else 2 * Pow2(n - 1)
  }

  lemma {:induction false} ValueConcat(a: Bits, b: Bits)
    ensures Value(a + b) == Value(a) + Pow2(|a|) * Value(b)
  {
    if a == [] {
      assert a + b == b;
    } else {
      assert (a + b)[1..] == a[1..] + b;
      ValueConcat(a[1..], b);
      Twice(Pow2(|a| - 1), Value(b));
    }
  }

  lemma Twice(x: nat, y: nat)
    ensures 2 * (x * y) == (2 * x) * y
  {
  }

  /** What `Sum` computes is the sum. */
  lemma SumIsSum(a: Bits, b: Bits)
    requires |a| == |b|
    ensures Value(Sum(a, b)) == Value(a) + Value(b)
  {
    SumPrefix(a, b, |a|);
    assert a[..|a|] == a && b[..|b|] == b;
    var low := Sum(a, b)[..|a|];
    assert Sum(a, b) == low + [CarryInto(a, b, |a|)];
    ValueConcat(low, [CarryInto(a, b, |a|)]);
    ValueOne(CarryInto(a, b, |a|));
  }

  lemma ValueOne(b: bool)
    ensures Value([b]) == Bit(b)
  {
    assert [b][1..] == [];
  }

  lemma {:induction false} SumPrefix(a: Bits, b: Bits, n: nat)
    requires n <= |a| == |b|
    ensures Value(Sum(a, b)[..n]) + Pow2(n) * Bit(CarryInto(a, b, n)) == Value(a[..n]) + Value(b[..n])
  {
    if n > 0 {
      SumPrefix(a, b, n - 1);
      var s := Sum(a, b);
      assert s[..n] == s[..n - 1] + [s[n - 1]] && a[..n] == a[..n - 1] + [a[n - 1]] && b[..n] == b[..n - 1] + [b[n - 1]];
      ValueConcat(s[..n - 1], [s[n - 1]]);
      ValueConcat(a[..n - 1], [a[n - 1]]);
      ValueConcat(b[..n - 1], [b[n - 1]]);
      ValueOne(s[n - 1]);
      ValueOne(a[n - 1]);
      ValueOne(b[n - 1]);
      OneBit(Pow2(n - 1), a[n - 1], b[n - 1], CarryInto(a, b, n - 1));
    }
  }

  lemma OneBit(p: nat, x: bool, y: bool, c: bool)
    ensures p * Bit((x != y) != c) + 2 * p * Bit((x && y) || (c && (x || y))) == p * Bit(x) + p * Bit(y) + p * Bit(c)
  {
  }

  // ----- Every n-th bit -----

  function Every(n: nat, len: nat): Bits
    requires n > 0
  {
    seq(len, i => i % n == 0)
  }

  lemma EightBits(a: Bits)
    requires |a| == 8
    ensures Value(a) == Bit(a[0]) + 2 * Bit(a[1]) + 4 * Bit(a[2]) + 8 * Bit(a[3]) + 16 * Bit(a[4]) + 32 * Bit(a[5]) + 64 * Bit(a[6]) + 128 * Bit(a[7])
  {
    FourBits(a[..4]);
    FourBits(a[4..]);
    ValueConcat(a[..4], a[4..]);
    assert a == a[..4] + a[4..] && Pow2(4) == 16;
  }

  lemma FourBits(a: Bits)
    requires |a| == 4
    ensures Value(a) == Bit(a[0]) + 2 * Bit(a[1]) + 4 * Bit(a[2]) + 8 * Bit(a[3])
  {
    assert Value(a) == Bit(a[0]) + 2 * Value(a[1..]);
    assert Value(a[1..]) == Bit(a[1]) + 2 * Value(a[1..][1..]);
    assert Value(a[1..][1..]) == Bit(a[2]) + 2 * Value(a[1..][1..][1..]);
    assert a[1..][1..][1..] == [a[3]];
    ValueOne(a[3]);
  }

  lemma FourBytes(a: Bits)
    requires IsWord(a)
    ensures Value(a) == Value(a[..8]) + 256 * Value(a[8..16]) + 65536 * Value(a[16..24]) + 16777216 * Value(a[24..])
  {
    hide Value;
    assert a == a[..8] + (a[8..16] + (a[16..24] + a[24..]));
    ValueConcat(a[..8], a[8..16] + (a[16..24] + a[24..]));
    ValueConcat(a[8..16], a[16..24] + a[24..]);
    ValueConcat(a[16..24], a[24..]);
    assert Pow2(8) == 256;
  }

  /** Every n-th bit of a byte that starts at a multiple of n, or past the last one. */
  lemma EveryByte(n: nat, a: Bits, from: nat)
    requires n in {1, 2, 4, 8, 16} && |a| == 8 && from in {0, 8, 16, 24} && forall i :: 0 <= i < 8 ==> a[i] == ((from + i) % n == 0)
    ensures Value(a) == if n == 1 then 255 else if n == 2 then 85 else if n == 4 then 17 else if n == 8 || from % 16 == 0 then 1 else 0
  {
    hide Value;
    EightBits(a);
  }

  lemma Powers()
    ensures Pow2(1) == 2 && Pow2(2) == 4 && Pow2(4) == 16 && Pow2(8) == 256 && Pow2(16) == 65536 && Pow2(32) == 0x1_0000_0000
  {
    assert Pow2(16) == 65536;
    PowAdd(16, 16);
  }

  lemma {:induction false} PowAdd(a: nat, b: nat)
    ensures Pow2(a + b) == Pow2(a) * Pow2(b)
  {
    if a > 0 {
      PowAdd(a - 1, b);
      Twice(Pow2(a - 1), Pow2(b));
    }
  }

  /** The quotient by which the code computes this mask. */
  lemma EveryNthBit(n: nat)
    requires n in {1, 2, 4, 8, 16}
    ensures Pow2(n) > 1 && Value(Every(n, WORD_BITS)) == (Pow2(WORD_BITS) - 1) / (Pow2(n) - 1)
  {
    hide Value, Pow2;
    var w := Every(n, WORD_BITS);
    FourBytes(w);
    EveryByte(n, w[..8], 0);
    EveryByte(n, w[8..16], 8);
    EveryByte(n, w[16..24], 16);
    EveryByte(n, w[24..], 24);
    Powers();
  }
}
