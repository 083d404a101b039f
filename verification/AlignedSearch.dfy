/** Searching a bit set for a run of consecutive bits at an aligned position
    (crates/deko-compiler-utils/src/bitset.rs). */
module AlignedSearch {
  import opened Machine
  import opened WordBits

  // ----- Sets of bits -----

  /** The words of a set, and what lies behind them: nothing, or bits that are all set (the complement of a
      finite set). */
  datatype Words = Words(words: seq<Bits>, endless: bool)
  {
    predicate Valid() {
      forall i :: 0 <= i < |words| ==> IsWord(words[i])
    }

    function Get(w: nat): Option<Bits> {
      if w < |words| then Some(words[w]) else if endless then Some(AllOnes()) else None
    }

    predicate Has(p: nat)
      requires Valid()
    {
      if p / WORD_BITS < |words| then words[p / WORD_BITS][p % WORD_BITS] else endless
    }
  }

  datatype BitIndex = BitIndex(word: nat, bit: nat)
  {
    ghost predicate Valid() {
      bit < WORD_BITS
    }

    function Flatten(): nat {
      word * WORD_BITS + bit
    }

    function Plus(n: nat): BitIndex {
      FromFlat(Flatten() + n)
    }
  }

  function FromFlat(p: nat): (r: BitIndex)
    ensures r.Valid() && r.Flatten() == p
  {
    BitIndex(p / WORD_BITS, p % WORD_BITS)
  }

  // ----- What is searched for -----

  ghost predicate IsRun(ws: Words, p: nat, count: nat)
    requires ws.Valid()
  {
    forall q :: p <= q < p + count ==> ws.Has(q)
  }

  predicate IsAligned(p: nat, mul: nat, offset: nat)
    requires mul > 0
  {
    p % mul == offset
  }

  /** No aligned run starts in the range. */
  ghost predicate NoRun(ws: Words, from: nat, to: nat, count: nat, mul: nat, offset: nat)
    requires ws.Valid() && mul > 0
  {
    forall p {:trigger IsRun(ws, p, count)} :: from <= p < to && IsAligned(p, mul, offset) ==> !IsRun(ws, p, count)
  }

  ghost predicate NoRunAtAll(ws: Words, from: nat, count: nat, mul: nat, offset: nat)
    requires ws.Valid() && mul > 0
  {
    forall p {:trigger IsRun(ws, p, count)} :: from <= p && IsAligned(p, mul, offset) ==> !IsRun(ws, p, count)
  }

  /** The least aligned run at `start` or later. */
  ghost predicate IsLeast(ws: Words, start: nat, count: nat, mul: nat, offset: nat, r: Option<nat>)
    requires ws.Valid() && mul > 0
  {
    match r
    case Some(p) => start <= p && IsAligned(p, mul, offset) && IsRun(ws, p, count) && NoRun(ws, start, p, count, mul, offset)
    case None => NoRunAtAll(ws, start, count, mul, offset)
  }

  // ----- One word: the carry trick -----

  /** The starts of the blocks in a word, `offset` into each. */
  function Starts(mul: nat, offset: nat): Bits
    requires mul > 0
  {
    seq(WORD_BITS, i => i % mul == offset)
  }

  function ShiftLeft(a: Bits, n: nat): Bits {
    seq(WORD_BITS, i requires 0 <= i < WORD_BITS => i >= n && i - n < |a| && a[i - n])
  }

  /** Every `mul`-th bit, shifted left by `offset`. */
  lemma StartsAreShifted(mul: nat, offset: nat)
    requires mul > 0 && offset < mul
    ensures ShiftLeft(Every(mul, WORD_BITS), offset) == Starts(mul, offset)
  {
    forall i | 0 <= i < WORD_BITS
      ensures ShiftLeft(Every(mul, WORD_BITS), offset)[i] == Starts(mul, offset)[i]
    {
      if i >= offset && (i - offset) % mul == 0 {
        ModAdd(i - offset, offset, mul);
      } else if i >= offset && i % mul == offset {
        ModSub(i, offset, mul);
      } else if i < offset {
        SmallMod(i, mul);
      }
    }
  }

  lemma SmallMod(i: nat, m: nat)
    requires i < m
    ensures i % m == i
  {
  }

  lemma ModAdd(a: nat, b: nat, m: nat)
    requires m > 0 && a % m == 0 && b < m
    ensures (a + b) % m == b
  {
    var k := a / m;
    assert a == m * k;
    ModIs(a + b, k, b, m);
  }

  lemma ModSub(a: nat, b: nat, m: nat)
    requires m > 0 && a % m == b && b < m && a >= b
    ensures (a - b) % m == 0
  {
    var k := a / m;
    assert a == m * k + b;
    ModIs(a - b, k, 0, m);
  }

  lemma ModIs(a: nat, k: nat, b: nat, m: nat)
    requires m > 0 && a == m * k + b && b < m
    ensures a % m == b && a / m == k
  {
    var d := a / m - k;
    assert m * (a / m) == m * k + m * d;
    AtLeast(m, d);
  }

  lemma AtLeast(m: nat, d: int)
    ensures (d >= 1 ==> m * d >= m) && (d <= -1 ==> m * d + m <= 0)
  {
  }

  /** The carries of an addition, as they show when the sum is compared with the bits added. */
  function Carries(word: Bits, every: Bits): Bits
    requires |word| == |every|
  {
    Xor(Sum(word, every), Xor(Widen(word), Widen(every)))
  }

  lemma CarriesAt(word: Bits, every: Bits, i: nat)
    requires |word| == |every| && i <= |word|
    ensures |Carries(word, every)| == |word| + 1 && Carries(word, every)[i] == CarryInto(word, every, i)
  {
  }

  /** The carries, shifted right, at the starts of the blocks. */
  function Found(word: Bits, mul: nat, offset: nat, count: nat): Bits
    requires IsWord(word) && mul > 0
  {
    seq(WORD_BITS, i requires 0 <= i < WORD_BITS => i % mul == offset && i + count <= WORD_BITS && CarryInto(word, Starts(mul, offset), i + count))
  }

  ghost predicate RunInWord(word: Bits, p: nat, count: nat)
    requires IsWord(word) && p + count <= WORD_BITS
  {
    forall i :: p <= i < p + count ==> word[i]
  }

  /** A run of ones carries all the way through. */
  lemma {:induction false} RunCarries(word: Bits, mul: nat, offset: nat, p: nat, n: nat)
    requires IsWord(word) && mul > 0 && p % mul == offset && 0 < n && p + n <= WORD_BITS && RunInWord(word, p, n)
    ensures CarryInto(word, Starts(mul, offset), p + n)
  {
    if n > 1 {
      RunCarries(word, mul, offset, p, n - 1);
    }
  }

  /** Between two starts a carry comes from below and needs ones. */
  lemma {:induction false} CarryNeedsOnes(word: Bits, mul: nat, offset: nat, p: nat, n: nat)
    requires IsWord(word) && mul > 0 && p + n <= WORD_BITS && CarryInto(word, Starts(mul, offset), p + n)
    requires forall i :: p <= i < p + n ==> i % mul != offset
    ensures CarryInto(word, Starts(mul, offset), p) && RunInWord(word, p, n)
    ensures forall i :: p <= i <= p + n ==> CarryInto(word, Starts(mul, offset), i)
  {
    if n > 0 {
      CarryNeedsOnes(word, mul, offset, p, n - 1);
    }
  }

  lemma NotAligned(p: nat, i: nat, mul: nat, offset: nat)
    requires mul > 0 && p % mul == offset && p < i < p + mul
    ensures i % mul != offset
  {
    var k := p / mul;
    assert p == mul * k + offset;
    if i - mul * k < mul {
      ModIs(i, k, i - mul * k, mul);
    } else {
      assert i - mul * (k + 1) == i - mul * k - mul;
      ModIs(i, k + 1, i - mul * k - mul, mul);
    }
  }

  lemma {:induction false} NoCarryBefore(word: Bits, mul: nat, offset: nat, n: nat)
    requires IsWord(word) && n <= offset < mul && n <= WORD_BITS
    ensures !CarryInto(word, Starts(mul, offset), n)
  {
    if n > 0 {
      NoCarryBefore(word, mul, offset, n - 1);
      SmallMod(n - 1, mul);
    }
  }

  lemma BlockBelow(p: nat, mul: nat, offset: nat)
    requires mul > 0 && p % mul == offset
    ensures if p < mul then p == offset else (p - mul) % mul == offset
  {
    if p < mul {
      SmallMod(p, mul);
    } else {
      var k := p / mul;
      assert p - mul == mul * (k - 1) + offset;
      ModIs(p - mul, k - 1, offset, mul);
    }
  }

  /** When the carry into a start comes from below, the whole block below is full. */
  lemma CarryFromBelow(word: Bits, mul: nat, offset: nat, p: nat, count: nat)
    requires IsWord(word) && mul > 0 && 0 < count && offset + count <= mul && p < WORD_BITS && p % mul == offset
    requires CarryInto(word, Starts(mul, offset), p)
    ensures p >= mul && (p - mul) % mul == offset && CarryInto(word, Starts(mul, offset), p - mul + count)
  {
    hide CarryInto;
    BlockBelow(p, mul, offset);
    if p < mul {
      NoCarryBefore(word, mul, offset, p);
    } else {
      var q := p - mul;
      forall i | q + 1 <= i < p
        ensures i % mul != offset
      {
        NotAligned(q, i, mul, offset);
      }
      CarryNeedsOnes(word, mul, offset, q + 1, mul - 1);
    }
  }

  /** A carry at the right place means a run, or a carry from below. */
  lemma CarryMeansRun(word: Bits, mul: nat, offset: nat, p: nat, count: nat)
    requires IsWord(word) && mul > 0 && 0 < count && offset + count <= mul && p + count <= WORD_BITS && p % mul == offset
    requires CarryInto(word, Starts(mul, offset), p + count)
    ensures RunInWord(word, p, count) || CarryInto(word, Starts(mul, offset), p)
  {
    forall i | p + 1 <= i < p + count
      ensures i % mul != offset
    {
      NotAligned(p, i, mul, offset);
    }
    CarryNeedsOnes(word, mul, offset, p + 1, count - 1);
  }

  /** The lowest bit found is no false hit, and no run is missed. */
  lemma LowestFound(word: Bits, mul: nat, offset: nat, count: nat, p: nat)
    requires IsWord(word) && mul > 0 && 0 < count && offset + count <= mul && p == TrailingZeros(Found(word, mul, offset, count))
    ensures p < WORD_BITS ==> p % mul == offset && p + count <= WORD_BITS && RunInWord(word, p, count)
    ensures forall q: nat :: q < p && IsAligned(q, mul, offset) && q + count <= WORD_BITS ==> !RunInWord(word, q, count)
  {
    hide Found;
    var found := Found(word, mul, offset, count);
    if p < WORD_BITS {
      FoundAt(word, mul, offset, count, p);
      CarryMeansRun(word, mul, offset, p, count);
      NoCarryFromBelow(word, mul, offset, count, p);
    }
    forall q: nat | q < p && IsAligned(q, mul, offset) && q + count <= WORD_BITS
      ensures !RunInWord(word, q, count)
    {
      FoundAt(word, mul, offset, count, q);
      if RunInWord(word, q, count) {
        RunCarries(word, mul, offset, q, count);
      }
    }
  }

  lemma FoundAt(word: Bits, mul: nat, offset: nat, count: nat, p: nat)
    requires IsWord(word) && mul > 0 && p < WORD_BITS
    ensures |Found(word, mul, offset, count)| == WORD_BITS
    ensures Found(word, mul, offset, count)[p] <==> p % mul == offset && p + count <= WORD_BITS && CarryInto(word, Starts(mul, offset), p + count)
  {
  }

  /** A carry into a start comes from a block that is found itself. */
  lemma NoCarryFromBelow(word: Bits, mul: nat, offset: nat, count: nat, p: nat)
    requires IsWord(word) && mul > 0 && 0 < count && offset + count <= mul && p < WORD_BITS && p % mul == offset
    requires forall q :: 0 <= q < p ==> |Found(word, mul, offset, count)| == WORD_BITS && !Found(word, mul, offset, count)[q]
    ensures !CarryInto(word, Starts(mul, offset), p)
  {
    hide Found;
    if CarryInto(word, Starts(mul, offset), p) {
      CarryFromBelow(word, mul, offset, p, count);
      FoundAt(word, mul, offset, count, p - mul);
    }
  }

  // ----- Ranges of bits in words -----

  /** Walks over the words of a range, with the bits of the range in each. */
  class WordIdxMaskIter {
    var wordIdx: nat
    var mask: Bits
    const end: BitIndex

    /** The bits at `from` and later, up to the end, are still to come. */
    ghost predicate Rest(from: nat)
      reads this
    {
      && end.Valid() && IsWord(mask)
      && (wordIdx <= end.word ==> wordIdx * WORD_BITS <= from < (wordIdx + 1) * WORD_BITS
                                  && forall i :: 0 <= i < WORD_BITS ==> mask[i] == (wordIdx * WORD_BITS + i >= from))
      && (wordIdx > end.word ==> from >= end.Flatten())
    }

    constructor (start: BitIndex, end: BitIndex)
      requires start.Valid() && end.Valid() && start.word <= end.word
      ensures Rest(start.Flatten()) && this.end == end && wordIdx == start.word
    {
      wordIdx, mask := start.word, MaskFrom(start.bit);
      this.end := end;
    }

    method Next(ghost from: nat) returns (r: Option<(nat, Bits)>, ghost from': nat)
      requires Rest(from)
      modifies this
      ensures Rest(from') && from <= from' && wordIdx == old(wordIdx) + (if r.Some? then 1 else 0)
      ensures r.None? ==> from >= end.Flatten()
      ensures r.Some? ==> r.value.0 == old(wordIdx) && IsWord(r.value.1) && Covers(r.value.0, r.value.1, from, end.Flatten())
      ensures r.Some? ==> r.value.0 <= end.word && r.value.0 * WORD_BITS < end.Flatten()
      ensures r.Some? ==> from' == if end.Flatten() < (r.value.0 + 1) * WORD_BITS then end.Flatten() else (r.value.0 + 1) * WORD_BITS
    {
      from' := from;
      if wordIdx < end.word {
        r := Some((wordIdx, mask));
        mask := MaskFrom(0);
        wordIdx := wordIdx + 1;
        from' := wordIdx * WORD_BITS;
      } else if wordIdx == end.word {
        var m := And(mask, Not(MaskFrom(end.bit)));
        if !IsZero(m) {
          SomeInRange(wordIdx, m, from, end.Flatten());
          r := Some((wordIdx, m));
          mask := Not(MaskFrom(0));
          wordIdx := wordIdx + 1;
          from' := end.Flatten();
        } else {
          EmptyRange(wordIdx, m, from, end.Flatten());
          r := None;
        }
      } else {
        r := None;
      }
    }
  }

  lemma SomeInRange(word: nat, mask: Bits, from: nat, to: nat)
    requires IsWord(mask) && Covers(word, mask, from, to) && !IsZero(mask)
    ensures from < to && word * WORD_BITS < to
  {
    var i :| 0 <= i < WORD_BITS && mask[i];
  }

  lemma EmptyRange(word: nat, mask: Bits, from: nat, to: nat)
    requires IsWord(mask) && Covers(word, mask, from, to) && IsZero(mask) && word * WORD_BITS <= from < (word + 1) * WORD_BITS
    ensures from >= to
  {
    assert mask[from - word * WORD_BITS] == (from < to);
  }

  /** The mask selects the bits of the word that lie in the range. */
  ghost predicate Covers(word: nat, mask: Bits, from: nat, to: nat)
    requires IsWord(mask)
  {
    forall i :: 0 <= i < WORD_BITS ==> mask[i] == (from <= word * WORD_BITS + i < to)
  }

  // ----- Checking a range -----

  datatype Check = AllSet | FailAt(word: nat) | PastEnd

  /** A bit of the range that is not set. */
  ghost predicate UnsetAt(ws: Words, from: nat, to: nat, q: nat)
    requires ws.Valid()
  {
    from <= q < to && !ws.Has(q)
  }

  ghost predicate CheckOk(ws: Words, p: nat, count: nat, r: Check)
    requires ws.Valid()
  {
    match r
    case AllSet => IsRun(ws, p, count)
    case FailAt(w) => w < |ws.words| && exists q: nat :: UnsetAt(ws, p, p + count, q) && q / WORD_BITS == w
    case PastEnd => !ws.endless && |ws.words| * WORD_BITS < p + count
  }

  /** Looks for the first word of the range in which not all bits are set. */
  method CheckRange(ws: Words, cur: BitIndex, count: nat) returns (r: Check)
    requires ws.Valid() && cur.Valid() && 0 < count
    ensures CheckOk(ws, cur.Flatten(), count, r)
  {
    hide And, IsZero, UnsetAt, Covers;
    var end := cur.Plus(count);
    var iter := new WordIdxMaskIter(cur, end);
    ghost var done: nat := cur.Flatten();
    while true
      invariant fresh(iter) && iter.end == end && iter.Rest(done) && cur.Flatten() <= done
      invariant forall q :: cur.Flatten() <= q < done && q < end.Flatten() ==> ws.Has(q)
      decreases end.word + 1 - iter.wordIdx
    {
      ghost var before := done;
      var next;
      next, done := iter.Next(done);
      if next.None? {
        return AllSet;
      }
      var (wordIdx, mask) := next.value;
      var word := ws.Get(wordIdx);
      if word.None? {
        return PastEnd;
      }
      WordBitsOf(ws, wordIdx);
      if !IsZero(And(Not(word.value), mask)) {
        MaskedBit(ws, wordIdx, mask, cur.Flatten(), before, end.Flatten());
        return FailAt(wordIdx);
      }
      MaskedSet(ws, wordIdx, mask, before, done, end.Flatten());
    }
  }

  lemma FlatDivMod(w: nat, i: nat)
    requires i < WORD_BITS
    ensures (w * WORD_BITS + i) / WORD_BITS == w && (w * WORD_BITS + i) % WORD_BITS == i
  {
  }

  lemma WordBitsOf(ws: Words, w: nat)
    requires ws.Valid() && ws.Get(w).Some?
    ensures IsWord(ws.Get(w).value) && forall i: nat :: i < WORD_BITS ==> ws.Get(w).value[i] == ws.Has(w * WORD_BITS + i)
  {
    forall i: nat | i < WORD_BITS
      ensures ws.Get(w).value[i] == ws.Has(w * WORD_BITS + i)
    {
      FlatDivMod(w, i);
    }
  }

  lemma MaskedBit(ws: Words, w: nat, mask: Bits, start: nat, from: nat, to: nat)
    requires ws.Valid() && ws.Get(w).Some? && IsWord(ws.Get(w).value) && IsWord(mask) && Covers(w, mask, from, to) && start <= from
    requires !IsZero(And(Not(ws.Get(w).value), mask))
    ensures w < |ws.words| && exists q: nat :: UnsetAt(ws, start, to, q) && q / WORD_BITS == w
  {
    WordBitsOf(ws, w);
    var word := ws.Get(w).value;
    var i :| 0 <= i < WORD_BITS && And(Not(word), mask)[i];
    var q := w * WORD_BITS + i;
    FlatDivMod(w, i);
    assert word[i] == ws.Has(q);
    assert UnsetAt(ws, start, to, q);
  }

  lemma MaskedSet(ws: Words, w: nat, mask: Bits, from: nat, done: nat, to: nat)
    requires ws.Valid() && ws.Get(w).Some? && IsWord(ws.Get(w).value) && IsWord(mask) && Covers(w, mask, from, to)
    requires IsZero(And(Not(ws.Get(w).value), mask)) && w * WORD_BITS <= from && done <= (w + 1) * WORD_BITS
    ensures forall q :: from <= q < done && q < to ==> ws.Has(q)
  {
    WordBitsOf(ws, w);
    var word := ws.Get(w).value;
    forall q | from <= q < done && q < to
      ensures ws.Has(q)
    {
      var i := q - w * WORD_BITS;
      assert !And(Not(word), mask)[i] && mask[i];
      assert word[i] == ws.Has(w * WORD_BITS + i);
    }
  }

  /** A run that starts between two candidates and the unset bit behind them contains that bit. */
  lemma ContainsUnset(ws: Words, cur: nat, count: nat, q: nat, p: nat)
    requires ws.Valid() && UnsetAt(ws, cur, cur + count, q) && cur <= p <= q
    ensures !IsRun(ws, p, count)
  {
  }

  // ----- Alignment of at most half a word -----

  function ShiftRight(a: Bits, n: nat): Bits {
    seq(WORD_BITS, i requires 0 <= i < WORD_BITS => i + n < |a| && a[i + n])
  }

  /** What the code computes is what the carry trick is about. */
  lemma FoundIsComputed(word: Bits, mul: nat, offset: nat, count: nat)
    requires IsWord(word) && mul > 0
    ensures And(ShiftRight(Carries(word, Starts(mul, offset)), count), Starts(mul, offset)) == Found(word, mul, offset, count)
  {
    hide CarryInto, Sum, Carries;
    var every := Starts(mul, offset);
    CarriesAt(word, every, 0);
    var computed, found := And(ShiftRight(Carries(word, every), count), every), Found(word, mul, offset, count);
    forall i | 0 <= i < WORD_BITS
      ensures computed[i] == found[i]
    {
      if i + count <= WORD_BITS {
        CarriesAt(word, every, i + count);
      }
    }
  }

  lemma Shapes(word: Bits, bit: nat, mul: nat, offset: nat, count: nat)
    requires IsWord(word) && mul > 0
    ensures IsWord(MaskFrom(bit)) && IsWord(Starts(mul, offset)) && IsWord(And(word, MaskFrom(bit)))
    ensures IsWord(ShiftRight(Carries(And(word, MaskFrom(bit)), Starts(mul, offset)), count))
  {
    hide CarryInto, Sum;
  }

  predicate SmallMul(mul: nat) {
    mul in {1, 2, 4, 8, 16}
  }

  lemma AlignedInWord(w: nat, i: nat, mul: nat)
    requires SmallMul(mul)
    ensures (w * WORD_BITS + i) % mul == i % mul
  {
    var k := WORD_BITS / mul;
    assert WORD_BITS == mul * k;
    Regroup(w, mul, k);
    var j := i / mul;
    assert i == mul * j + i % mul;
    Distribute(mul, w * k, j);
    ModIs(w * WORD_BITS + i, w * k + j, i % mul, mul);
  }

  lemma Regroup(w: nat, m: nat, k: nat)
    ensures w * (m * k) == m * (w * k)
  {
  }

  lemma Distribute(m: nat, a: nat, b: nat)
    ensures m * (a + b) == m * a + m * b
  {
  }

  /** Runs of a word are runs of the set. */
  lemma RunOfWord(ws: Words, w: nat, masked: Bits, bit: nat, i: nat, count: nat)
    requires ws.Valid() && ws.Get(w).Some? && IsWord(ws.Get(w).value) && IsWord(masked) && 0 < count && i + count <= WORD_BITS
    requires masked == And(ws.Get(w).value, MaskFrom(bit))
    ensures RunInWord(masked, i, count) <==> i >= bit && IsRun(ws, w * WORD_BITS + i, count)
  {
    WordBitsOf(ws, w);
    if RunInWord(masked, i, count) {
      assert masked[i];
      forall q | w * WORD_BITS + i <= q < w * WORD_BITS + i + count
        ensures ws.Has(q)
      {
        assert masked[q - w * WORD_BITS];
        assert ws.Get(w).value[q - w * WORD_BITS] == ws.Has(w * WORD_BITS + (q - w * WORD_BITS));
      }
    } else if i >= bit {
      var j :| i <= j < i + count && !masked[j];
      assert ws.Get(w).value[j] == ws.Has(w * WORD_BITS + j);
    }
  }

  /** The outcome for one word: the least run in it, or none. */
  ghost predicate WordSearched(ws: Words, w: nat, bit: nat, count: nat, mul: nat, offset: nat, p: nat)
    requires ws.Valid() && mul > 0
  {
    var start := w * WORD_BITS + bit;
    && (p < WORD_BITS ==> IsLeast(ws, start, count, mul, offset, Some(w * WORD_BITS + p)))
    && (p >= WORD_BITS ==> NoRun(ws, start, (w + 1) * WORD_BITS, count, mul, offset))
  }

  lemma AlignedFits(i: nat, mul: nat, offset: nat, count: nat)
    requires SmallMul(mul) && offset + count <= mul && i < WORD_BITS && i % mul == offset
    ensures i + count <= WORD_BITS
  {
  }

  lemma SearchWord(ws: Words, w: nat, bit: nat, count: nat, mul: nat, offset: nat, masked: Bits, p: nat)
    requires ws.Valid() && ws.Get(w).Some? && IsWord(ws.Get(w).value) && bit < WORD_BITS && SmallMul(mul) && 0 < count && offset + count <= mul
    requires masked == And(ws.Get(w).value, MaskFrom(bit)) && p == TrailingZeros(Found(masked, mul, offset, count))
    ensures WordSearched(ws, w, bit, count, mul, offset, p)
  {
    hide Found, IsRun, RunInWord;
    LowestFound(masked, mul, offset, count, p);
    forall q: nat | w * WORD_BITS + bit <= q < (w + 1) * WORD_BITS && q < w * WORD_BITS + p && IsAligned(q, mul, offset)
      ensures !IsRun(ws, q, count)
    {
      var i := q - w * WORD_BITS;
      AlignedInWord(w, i, mul);
      AlignedFits(i, mul, offset, count);
      RunOfWord(ws, w, masked, bit, i, count);
      assert IsAligned(i, mul, offset);
    }
    if p < WORD_BITS {
      AlignedInWord(w, p, mul);
      RunOfWord(ws, w, masked, bit, p, count);
    }
  }

  lemma NoRunJoin(ws: Words, a: nat, b: nat, c: nat, count: nat, mul: nat, offset: nat)
    requires ws.Valid() && mul > 0 && NoRun(ws, a, b, count, mul, offset) && NoRun(ws, b, c, count, mul, offset)
    ensures NoRun(ws, a, c, count, mul, offset)
  {
    hide IsRun;
  }

  /** Behind the end of a finite set there are no runs. */
  lemma NothingBehind(ws: Words, from: nat, count: nat, mul: nat, offset: nat)
    requires ws.Valid() && mul > 0 && 0 < count && !ws.endless && |ws.words| * WORD_BITS < from + count
    ensures NoRunAtAll(ws, from, count, mul, offset) && IsLeast(ws, from, count, mul, offset, None)
  {
    forall p: nat | from <= p
      ensures !IsRun(ws, p, count)
    {
      var q := p + count - 1;
      assert q / WORD_BITS >= |ws.words|;
      assert !ws.Has(q);
    }
  }

  lemma EverythingBehind(ws: Words, p: nat, count: nat)
    requires ws.Valid() && ws.endless && |ws.words| * WORD_BITS <= p
    ensures IsRun(ws, p, count)
  {
    forall q | p <= q < p + count
      ensures ws.Has(q)
    {
      assert q / WORD_BITS >= |ws.words|;
    }
  }

  lemma LeastFrom(ws: Words, a: nat, b: nat, count: nat, mul: nat, offset: nat, r: Option<nat>)
    requires ws.Valid() && mul > 0 && a <= b && NoRun(ws, a, b, count, mul, offset) && IsLeast(ws, b, count, mul, offset, r)
    ensures IsLeast(ws, a, count, mul, offset, r)
  {
    hide IsRun;
  }

  function Flat(r: Option<BitIndex>): Option<nat> {
    if r.None? then None else Some(r.value.Flatten())
  }

  /** Runs that do not cross the end of their block: one addition per word. */
  method FindSmallAlignedSetRange(ws: Words, start: BitIndex, count: nat, mul: nat, offset: nat) returns (r: Option<BitIndex>)
    requires ws.Valid() && start.Valid() && SmallMul(mul) && 0 < count && offset + count <= mul
    ensures IsLeast(ws, start.Flatten(), count, mul, offset, Flat(r)) && (r.Some? ==> r.value.Valid())
  {
    hide IsRun, Found, IsLeast, NoRun, Carries, And, ShiftRight, ShiftLeft, Starts, MaskFrom;
    NoRunYet(ws, start.Flatten(), count, mul, offset);
    var every := ShiftLeft(Every(mul, WORD_BITS), offset);
    StartsAreShifted(mul, offset);
    var wordIdx, bit := start.word, start.bit;
    while true
      invariant wordIdx >= start.word && bit < WORD_BITS && start.Flatten() <= wordIdx * WORD_BITS + bit && (wordIdx > start.word ==> bit == 0)
      invariant NoRun(ws, start.Flatten(), wordIdx * WORD_BITS + bit, count, mul, offset)
      decreases (if |ws.words| < start.word then start.word else |ws.words|) + 2 - wordIdx
    {
      var word := ws.Get(wordIdx);
      if word.None? {
        NothingBehind(ws, wordIdx * WORD_BITS + bit, count, mul, offset);
        LeastFrom(ws, start.Flatten(), wordIdx * WORD_BITS + bit, count, mul, offset, None);
        return None;
      }
      WordBitsOf(ws, wordIdx);
      Shapes(word.value, bit, mul, offset, count);
      var masked := And(word.value, MaskFrom(bit));
      var found := And(ShiftRight(Carries(masked, every), count), every);
      FoundIsComputed(masked, mul, offset, count);
      var p := TrailingZeros(found);
      SearchWord(ws, wordIdx, bit, count, mul, offset, masked, p);
      if p < WORD_BITS {
        LeastFrom(ws, start.Flatten(), wordIdx * WORD_BITS + bit, count, mul, offset, Some(wordIdx * WORD_BITS + p));
        return Some(BitIndex(wordIdx, p));
      }
      if bit == 0 && wordIdx >= |ws.words| {
        BlockInEveryWord(ws, wordIdx, count, mul, offset);
      }
      NoRunJoin(ws, start.Flatten(), wordIdx * WORD_BITS + bit, (wordIdx + 1) * WORD_BITS, count, mul, offset);
      wordIdx, bit := wordIdx + 1, 0;
    }
  }

  lemma NoRunYet(ws: Words, p: nat, count: nat, mul: nat, offset: nat)
    requires ws.Valid() && mul > 0
    ensures NoRun(ws, p, p, count, mul, offset)
  {
  }

  lemma BlockInEveryWord(ws: Words, w: nat, count: nat, mul: nat, offset: nat)
    requires ws.Valid() && ws.endless && w >= |ws.words| && SmallMul(mul) && 0 < count && offset + count <= mul
    ensures !NoRun(ws, w * WORD_BITS, (w + 1) * WORD_BITS, count, mul, offset)
  {
    var p := w * WORD_BITS + offset;
    AlignedInWord(w, offset, mul);
    SmallMod(offset, mul);
    EverythingBehind(ws, p, count);
    assert IsAligned(p, mul, offset);
  }

  // ----- Alignment of whole words -----

  /** No candidate between one that fails and the word of the unset bit can be a run: it would contain the bit. */
  lemma SkipToFail(ws: Words, start: nat, cur: nat, next: nat, count: nat, mul: nat, offset: nat, w: nat)
    requires ws.Valid() && mul > 0 && start <= cur && NoRun(ws, start, cur, count, mul, offset)
    requires CheckOk(ws, cur, count, FailAt(w))
    requires forall p :: cur < p < next && IsAligned(p, mul, offset) ==> p < w * WORD_BITS
    ensures NoRun(ws, start, next, count, mul, offset)
  {
    hide IsRun;
    var q: nat :| UnsetAt(ws, cur, cur + count, q) && q / WORD_BITS == w;
    forall p: nat | start <= p < next && IsAligned(p, mul, offset)
      ensures !IsRun(ws, p, count)
    {
      if cur <= p {
        ContainsUnset(ws, cur, count, q, p);
      }
    }
  }

  /** The least multiple of `m` that is not below `a`. */
  function NextMultipleOf(a: nat, m: nat): (r: nat)
    requires m > 0
    ensures a <= r < a + m && r % m == 0
  {
    if a % m == 0 then a else
      var k := a / m;
      assert a == m * k + a % m;
      Distribute(m, k, 1);
      ModIs(m * (k + 1), k + 1, 0, m);
      m * (k + 1)
  }

  /** The first aligned position at `start` or later. */
  method FirstAligned(ws: Words, start: nat, count: nat, mul: nat, offset: nat) returns (cur: nat)
    requires ws.Valid() && offset < mul
    ensures start <= cur && IsAligned(cur, mul, offset) && NoRun(ws, start, cur, count, mul, offset)
  {
    hide IsRun;
    if start < offset {
      cur := offset;
      SmallMod(offset, mul);
      forall p: nat | start <= p < cur
        ensures !IsAligned(p, mul, offset)
      {
        SmallMod(p, mul);
      }
    } else {
      cur := NextMultipleOf(start - offset, mul) + offset;
      ModAdd(cur - offset, offset, mul);
      forall p: nat | start <= p < cur
        ensures !IsAligned(p, mul, offset)
      {
        NoneBetween(cur, p, mul, offset);
      }
    }
  }

  lemma NoneBetween(cur: nat, p: nat, mul: nat, offset: nat)
    requires mul > 0 && cur % mul == offset && p < cur < p + mul
    ensures p % mul != offset
  {
    if p % mul == offset {
      NotAligned(p, cur, mul, offset);
    }
  }

  method FindLargeAlignedSetRange(ws: Words, start: BitIndex, count: nat, mul: nat, offset: nat) returns (r: Option<BitIndex>)
    requires ws.Valid() && start.Valid() && WORD_BITS <= mul && mul % WORD_BITS == 0 && 0 < count && offset < mul
    ensures IsLeast(ws, start.Flatten(), count, mul, offset, Flat(r)) && (r.Some? ==> r.value.Valid())
  {
    hide IsRun, NoRun, CheckOk;
    var first := FirstAligned(ws, start.Flatten(), count, mul, offset);
    var wordStride := mul / WORD_BITS;
    var cur := FromFlat(first);
    while true
      invariant cur.Valid() && start.Flatten() <= cur.Flatten() && IsAligned(cur.Flatten(), mul, offset)
      invariant NoRun(ws, start.Flatten(), cur.Flatten(), count, mul, offset)
      decreases |ws.words| * WORD_BITS - cur.Flatten()
    {
      var check := CheckRange(ws, cur, count);
      match check
      case AllSet =>
        FoundRun(ws, start.Flatten(), cur.Flatten(), count, mul, offset);
        return Some(cur);
      case PastEnd =>
        FoundNone(ws, start.Flatten(), cur.Flatten(), count, mul, offset);
        return None;
      case FailAt(failWord) =>
        FailsInside(ws, cur.Flatten(), count, failWord);
        ghost var failed := cur.Flatten();
        ghost var steps;
        cur, steps := SkipWords(cur, failWord, wordStride, mul);
        AlignedStep(failed, mul, offset, steps);
        CandidatesSkipped(failed, cur, steps, mul, offset, failWord);
        SkipToFail(ws, start.Flatten(), failed, cur.Flatten(), count, mul, offset, failWord);
    }
  }

  /** At least one step, and on to the word that failed. */
  method SkipWords(cur0: BitIndex, failWord: nat, wordStride: nat, ghost mul: nat) returns (cur: BitIndex, ghost steps: nat)
    requires cur0.Valid() && wordStride > 0 && mul == wordStride * WORD_BITS
    ensures cur.Valid() && steps > 0 && cur.Flatten() == cur0.Flatten() + mul * steps && (steps == 1 || cur.word < failWord + wordStride)
  {
    cur, steps := BitIndex(cur0.word + wordStride, cur0.bit), 1;
    while cur.word < failWord
      invariant cur.Valid() && cur.Flatten() == cur0.Flatten() + mul * steps && steps > 0
      invariant steps == 1 || cur.word < failWord + wordStride
      decreases failWord - cur.word
    {
      Distribute(mul, steps, 1);
      cur := BitIndex(cur.word + wordStride, cur.bit);
      steps := steps + 1;
    }
  }

  lemma FoundRun(ws: Words, start: nat, cur: nat, count: nat, mul: nat, offset: nat)
    requires ws.Valid() && mul > 0 && start <= cur && IsAligned(cur, mul, offset) && NoRun(ws, start, cur, count, mul, offset)
    requires CheckOk(ws, cur, count, AllSet)
    ensures IsLeast(ws, start, count, mul, offset, Some(cur))
  {
  }

  lemma FoundNone(ws: Words, start: nat, cur: nat, count: nat, mul: nat, offset: nat)
    requires ws.Valid() && mul > 0 && 0 < count && start <= cur && NoRun(ws, start, cur, count, mul, offset) && CheckOk(ws, cur, count, PastEnd)
    ensures IsLeast(ws, start, count, mul, offset, None)
  {
    hide IsRun;
    NothingBehind(ws, cur, count, mul, offset);
  }

  lemma FailsInside(ws: Words, cur: nat, count: nat, w: nat)
    requires ws.Valid() && CheckOk(ws, cur, count, FailAt(w))
    ensures cur < |ws.words| * WORD_BITS
  {
    var q: nat :| UnsetAt(ws, cur, cur + count, q) && q / WORD_BITS == w;
  }

  lemma AlignedStep(p: nat, mul: nat, offset: nat, steps: nat)
    requires mul > 0 && p % mul == offset
    ensures (p + mul * steps) % mul == offset
  {
    var k := p / mul;
    assert p == mul * k + offset;
    Distribute(mul, k, steps);
    ModIs(p + mul * steps, k + steps, offset, mul);
  }

  /** Whole words are skipped: every candidate before the last step starts in an earlier word. */
  lemma CandidatesSkipped(failed: nat, cur: BitIndex, steps: nat, mul: nat, offset: nat, w: nat)
    requires cur.Valid() && mul > 0 && failed % mul == offset && steps > 0 && cur.Flatten() == failed + mul * steps
    requires mul % WORD_BITS == 0 && (steps == 1 || cur.word < w + mul / WORD_BITS)
    ensures forall p :: failed < p < cur.Flatten() && IsAligned(p, mul, offset) ==> p < w * WORD_BITS
  {
    forall p: nat | failed < p < cur.Flatten() && IsAligned(p, mul, offset)
      ensures p < w * WORD_BITS
    {
      if p + mul > cur.Flatten() {
        AlignedStep(failed, mul, offset, steps);
        NoneBetween(cur.Flatten(), p, mul, offset);
      }
    }
  }

  // ----- Any alignment -----

  /** A power of two less than a word, or whole words. */
  predicate IsAlignment(mul: nat) {
    SmallMul(mul) || (WORD_BITS <= mul && mul % WORD_BITS == 0)
  }

  lemma ShorterRuns(ws: Words, from: nat, to: nat, few: nat, count: nat, mul: nat, offset: nat)
    requires ws.Valid() && mul > 0 && few <= count
    ensures NoRun(ws, from, to, few, mul, offset) ==> NoRun(ws, from, to, count, mul, offset)
    ensures NoRunAtAll(ws, from, few, mul, offset) ==> NoRunAtAll(ws, from, count, mul, offset)
  {
    hide IsRun;
    forall p: nat
      ensures IsRun(ws, p, count) ==> IsRun(ws, p, few)
    {
      RunsAreRuns(ws, p, few, count);
    }
  }

  lemma RunsAreRuns(ws: Words, p: nat, few: nat, count: nat)
    requires ws.Valid() && few <= count
    ensures IsRun(ws, p, count) ==> IsRun(ws, p, few)
  {
  }

  /** Runs that go on in the next block: the rest of the first block is searched for, then the whole run is
      checked. */
  method FindAcrossBlocks(ws: Words, start: BitIndex, count: nat, mul: nat, offset: nat) returns (r: Option<BitIndex>)
    requires ws.Valid() && start.Valid() && SmallMul(mul) && offset < mul < offset + count
    ensures IsLeast(ws, start.Flatten(), count, mul, offset, Flat(r)) && (r.Some? ==> r.value.Valid())
  {
    hide IsRun, NoRun, NoRunAtAll, CheckOk, IsLeast;
    var searchCount := mul - offset;
    var cur := start;
    NoRunYet(ws, start.Flatten(), count, mul, offset);
    while true
      invariant cur.Valid() && start.Flatten() <= cur.Flatten() && NoRun(ws, start.Flatten(), cur.Flatten(), count, mul, offset)
      decreases |ws.words| * WORD_BITS - cur.Flatten()
    {
      var found := FindSmallAlignedSetRange(ws, cur, searchCount, mul, offset);
      if found.None? {
        NoneFound(ws, start.Flatten(), cur.Flatten(), searchCount, count, mul, offset);
        return None;
      }
      var idx := found.value;
      NoneBefore(ws, start.Flatten(), cur.Flatten(), idx.Flatten(), searchCount, count, mul, offset);
      var check := CheckRange(ws, idx, count);
      match check
      case AllSet =>
        FoundRun(ws, start.Flatten(), idx.Flatten(), count, mul, offset);
        return Some(idx);
      case PastEnd =>
        FoundNone(ws, start.Flatten(), idx.Flatten(), count, mul, offset);
        return None;
      case FailAt(failWord) =>
        FailsInside(ws, idx.Flatten(), count, failWord);
        cur := idx.Plus(mul);
        if cur.word < failWord {
          cur := BitIndex(failWord, offset);
        }
        BlocksSkipped(idx.Flatten(), cur, mul, offset, failWord);
        SkipToFail(ws, start.Flatten(), idx.Flatten(), cur.Flatten(), count, mul, offset, failWord);
    }
  }

  lemma NoneFound(ws: Words, start: nat, cur: nat, few: nat, count: nat, mul: nat, offset: nat)
    requires ws.Valid() && mul > 0 && few <= count && start <= cur && NoRun(ws, start, cur, count, mul, offset)
    requires IsLeast(ws, cur, few, mul, offset, None)
    ensures IsLeast(ws, start, count, mul, offset, None)
  {
    hide IsRun, NoRun, NoRunAtAll;
    ShorterRuns(ws, cur, cur, few, count, mul, offset);
    LeastFrom(ws, start, cur, count, mul, offset, None);
  }

  lemma NoneBefore(ws: Words, start: nat, cur: nat, idx: nat, few: nat, count: nat, mul: nat, offset: nat)
    requires ws.Valid() && mul > 0 && few <= count && start <= cur && NoRun(ws, start, cur, count, mul, offset)
    requires IsLeast(ws, cur, few, mul, offset, Some(idx))
    ensures cur <= idx && IsAligned(idx, mul, offset) && NoRun(ws, start, idx, count, mul, offset)
  {
    hide IsRun, NoRun;
    ShorterRuns(ws, cur, idx, few, count, mul, offset);
    NoRunJoin(ws, start, cur, idx, count, mul, offset);
  }

  /** The next candidate in the word that failed is the first one there, or the next one of all. */
  lemma BlocksSkipped(idx: nat, cur: BitIndex, mul: nat, offset: nat, w: nat)
    requires SmallMul(mul) && offset < mul && idx % mul == offset && cur.Valid()
    requires cur.Flatten() == idx + mul || (cur == BitIndex(w, offset) && (idx + mul) / WORD_BITS < w)
    ensures cur.Flatten() > idx && forall p :: idx < p < cur.Flatten() && IsAligned(p, mul, offset) ==> p < w * WORD_BITS
  {
    forall p: nat | idx < p < cur.Flatten() && IsAligned(p, mul, offset)
      ensures p < w * WORD_BITS
    {
      if cur.Flatten() == idx + mul {
        NotAligned(idx, p, mul, offset);
      } else if p >= w * WORD_BITS {
        AlignedInWord(w, p - w * WORD_BITS, mul);
        SmallMod(p - w * WORD_BITS, mul);
      }
    }
  }

  method FindAlignedRange(ws: Words, start: BitIndex, count: nat, mul: nat, offset: nat) returns (r: Option<BitIndex>)
    requires ws.Valid() && start.Valid() && IsAlignment(mul) && 0 < count && offset < mul
    ensures IsLeast(ws, start.Flatten(), count, mul, offset, Flat(r)) && (r.Some? ==> r.value.Valid())
  {
    if mul >= WORD_BITS {
      r := FindLargeAlignedSetRange(ws, start, count, mul, offset);
    } else if offset + count <= mul {
      r := FindSmallAlignedSetRange(ws, start, count, mul, offset);
    } else {
      r := FindAcrossBlocks(ws, start, count, mul, offset);
    }
  }

  // ----- The two searches of a set -----

  predicate AreWords(words: seq<Bits>) {
    forall i :: 0 <= i < |words| ==> IsWord(words[i])
  }

  /** The least aligned run of elements at `start` or later. */
  method FindAlignedSetRange(words: seq<Bits>, start: nat, count: nat, mul: nat, offset: nat) returns (r: Option<nat>)
    requires AreWords(words) && IsAlignment(mul) && 0 < count && offset < mul
    ensures IsLeast(Words(words, false), start, count, mul, offset, r)
  {
    var found := FindAlignedRange(Words(words, false), FromFlat(start), count, mul, offset);
    r := Flat(found);
  }

  function Complement(words: seq<Bits>): seq<Bits> {
    seq(|words|, i requires 0 <= i < |words| => Not(words[i]))
  }

  /** Whether the set has an element; behind its words there are none. */
  predicate HasElement(words: seq<Bits>, p: nat)
    requires AreWords(words)
  {
    p / WORD_BITS < |words| && words[p / WORD_BITS][p % WORD_BITS]
  }

  ghost predicate IsGap(words: seq<Bits>, p: nat, count: nat)
    requires AreWords(words)
  {
    forall q :: p <= q < p + count ==> !HasElement(words, q)
  }

  ghost predicate IsLeastGap(words: seq<Bits>, start: nat, count: nat, mul: nat, offset: nat, r: nat)
    requires AreWords(words) && mul > 0
  {
    && start <= r && IsAligned(r, mul, offset) && IsGap(words, r, count)
    && forall p {:trigger IsGap(words, p, count)} :: start <= p < r && IsAligned(p, mul, offset) ==> !IsGap(words, p, count)
  }

  lemma GapsAreRuns(words: seq<Bits>, p: nat, count: nat)
    requires AreWords(words)
    ensures Words(Complement(words), true).Valid() && (IsGap(words, p, count) <==> IsRun(Words(Complement(words), true), p, count))
  {
    var ws := Words(Complement(words), true);
    forall q: nat
      ensures ws.Has(q) == !HasElement(words, q)
    {
    }
  }

  lemma NeverNone(ws: Words, start: nat, count: nat, mul: nat, offset: nat)
    requires ws.Valid() && ws.endless && offset < mul
    ensures !IsLeast(ws, start, count, mul, offset, None)
  {
    var p := NextMultipleOf(start + |ws.words| * WORD_BITS, mul) + offset;
    ModAdd(p - offset, offset, mul);
    EverythingBehind(ws, p, count);
    assert IsAligned(p, mul, offset);
  }

  /** The least aligned gap at `start` or later; there always is one. */
  method FindAlignedUnsetRange(words: seq<Bits>, start: nat, count: nat, mul: nat, offset: nat) returns (r: nat)
    requires AreWords(words) && IsAlignment(mul) && 0 < count && offset < mul
    ensures IsLeastGap(words, start, count, mul, offset, r)
  {
    hide IsRun, IsGap;
    var ws := Words(Complement(words), true);
    GapsAreRuns(words, start, count);
    var found := FindAlignedRange(ws, FromFlat(start), count, mul, offset);
    NeverNone(ws, start, count, mul, offset);
    r := found.value.Flatten();
    forall p: nat
      ensures IsGap(words, p, count) <==> IsRun(ws, p, count)
    {
      GapsAreRuns(words, p, count);
    }
  }

  // ----- The search position by position -----

  lemma GapBehind(words: seq<Bits>, p: nat, count: nat)
    requires AreWords(words) && |words| * WORD_BITS <= p
    ensures IsGap(words, p, count)
  {
    forall q | p <= q < p + count
      ensures !HasElement(words, q)
    {
      assert q / WORD_BITS >= |words|;
    }
  }

  method IsAllUnset(words: seq<Bits>, p: nat, count: nat) returns (b: bool)
    requires AreWords(words)
    ensures b <==> IsGap(words, p, count)
  {
    for q := p to p + count
      invariant forall i :: p <= i < q ==> !HasElement(words, i)
    {
      if HasElement(words, q) {
        return false;
      }
    }
    return true;
  }

  method SlowFindAlignedUnsetRange(words: seq<Bits>, start: nat, count: nat, mul: nat, offset: nat) returns (r: nat)
    requires AreWords(words) && offset < mul
    ensures IsLeastGap(words, start, count, mul, offset, r)
  {
    hide IsGap, IsAligned;
    var cur := SlowStart(start, mul, offset);
    FirstIsFirst(start, cur, mul, offset);
    while true
      invariant start <= cur && IsAligned(cur, mul, offset)
      invariant forall p {:trigger IsGap(words, p, count)} :: start <= p < cur && IsAligned(p, mul, offset) ==> !IsGap(words, p, count)
      decreases |words| * WORD_BITS - cur
    {
      var unset := IsAllUnset(words, cur, count);
      if unset {
        return cur;
      }
      if cur >= |words| * WORD_BITS {
        GapBehind(words, cur, count);
      }
      NextAligned(cur, mul, offset);
      cur := cur + mul;
    }
  }

  lemma NextAligned(cur: nat, mul: nat, offset: nat)
    requires mul > 0 && IsAligned(cur, mul, offset)
    ensures IsAligned(cur + mul, mul, offset) && forall p: nat :: cur < p < cur + mul ==> !IsAligned(p, mul, offset)
  {
    AlignedStep(cur, mul, offset, 1);
    forall p: nat | cur < p < cur + mul
      ensures !IsAligned(p, mul, offset)
    {
      NotAligned(cur, p, mul, offset);
    }
  }

  method SlowStart(start: nat, mul: nat, offset: nat) returns (cur: nat)
    requires offset < mul
    ensures IsAligned(cur, mul, offset) && start <= cur < start + mul
  {
    var k := start / mul;
    assert start == mul * k + start % mul;
    cur := k * mul + offset;
    ModIs(cur, k, offset, mul);
    if cur < start {
      AlignedStep(cur, mul, offset, 1);
      cur := cur + mul;
    }
  }

  lemma FirstIsFirst(start: nat, cur: nat, mul: nat, offset: nat)
    requires offset < mul && IsAligned(cur, mul, offset) && start <= cur < start + mul
    ensures forall p: nat :: start <= p < cur ==> !IsAligned(p, mul, offset)
  {
    forall p: nat | start <= p < cur
      ensures !IsAligned(p, mul, offset)
    {
      NoneBetween(cur, p, mul, offset);
    }
  }

  /** The fast search and the slow one find the same. */
  lemma OneLeastGap(words: seq<Bits>, start: nat, count: nat, mul: nat, offset: nat, a: nat, b: nat)
    requires AreWords(words) && mul > 0 && IsLeastGap(words, start, count, mul, offset, a) && IsLeastGap(words, start, count, mul, offset, b)
    ensures a == b
  {
    hide IsGap;
  }
}
