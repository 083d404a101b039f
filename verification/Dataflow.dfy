/** The worklist solver for dataflow problems (crates/deko-compiler-utils/src/dataflow.rs). */
module Dataflow {

  // ----- FIFO with unique items -----

  class FifoSet {
    var queue: seq<nat>
    var bits: set<nat>

    ghost predicate Valid()
      reads this
    {
      && (forall x :: x in queue <==> x in bits)
      && (forall i, j :: 0 <= i < j < |queue| ==> queue[i] != queue[j])
    }

    constructor ()
      ensures Valid() && queue == []
    {
      queue, bits := [], {};
    }

    method PushBack(x: nat)
      requires Valid()
      modifies this
      ensures Valid()
      ensures queue == if x in old(queue) then old(queue) else old(queue) + [x]
    {
      if x !in bits {
        bits := bits + {x};
        queue := queue + [x];
      }
    }

    method PopFront() returns (x: nat)
      requires Valid() && queue != []
      modifies this
      ensures Valid() && [x] + queue == old(queue) && x !in queue
    {
      x := queue[0];
      queue := queue[1..];
      bits := bits - {x};
      assert old(queue) == [x] + queue;
    }
  }

  // ----- Dataflow problems -----

  /** `transfer(b, in, out)` recomputes the in-state of block `b` and says whether it changed in a
      way the neighbours have to hear about; `join(out, in)` merges a neighbour's in-state. */
  datatype Problem<!I, !O> = Problem(transfer: (nat, I, O) -> (I, bool), join: (O, I) -> O)

  /** What a client promises about its problem.  `covers(o, i)`: joining `i` into `o` has taken
      effect.  `rank` measures how often an out-state can still change.  `goodIn`/`goodOut` are
      invariants of the states, maintained by the client's functions. */
  datatype Laws<!I, !O> = Laws(
    covers: (O, I) -> bool,
    rank: O -> (nat, nat),
    goodIn: (nat, I) -> bool,
    goodOut: (nat, O) -> bool)

  ghost predicate Below(a: (nat, nat), b: (nat, nat)) {
    a.0 < b.0 || (a.0 == b.0 && a.1 < b.1)
  }

  /** Recomputing with an unchanged out-state changes nothing any more. */
  ghost predicate TransferOk<I(!new), O(!new)>(p: Problem<I, O>, l: Laws<I, O>, n: nat) {
    forall b: nat, i, o {:trigger p.transfer(b, i, o)} :: b < n && l.goodIn(b, i) && l.goodOut(b, o) ==>
      var (i', changed) := p.transfer(b, i, o);
      && l.goodIn(b, i')
      && p.transfer(b, i', o) == (i', false)
      && (!changed ==> forall o' :: l.covers(o', i) ==> l.covers(o', i'))
  }

  /** Joining takes effect, undoes no earlier join, and can change a state only finitely often. */
  ghost predicate JoinOk<I(!new), O(!new)>(p: Problem<I, O>, l: Laws<I, O>, next: seq<seq<nat>>) {
    forall b: nat, q, i, o {:trigger p.join(o, i), l.goodIn(b, i), l.goodOut(q, o)} ::
      b < |next| && q in next[b] && l.goodIn(b, i) && l.goodOut(q, o) ==>
        && l.goodOut(q, p.join(o, i))
        && l.covers(p.join(o, i), i)
        && (forall j :: l.covers(o, j) ==> l.covers(p.join(o, i), j))
        && (p.join(o, i) == o || Below(l.rank(p.join(o, i)), l.rank(o)))
  }

  ghost predicate WellFormed(next: seq<seq<nat>>) {
    forall b, q {:trigger q in next[b]} :: 0 <= b < |next| && q in next[b] ==> q < |next|
  }

  ghost predicate AllGood<I, O>(l: Laws<I, O>, ins: seq<I>, outs: seq<O>) {
    && |ins| == |outs|
    && (forall b: nat :: b < |ins| ==> l.goodIn(b, ins[b]))
    && (forall b: nat :: b < |outs| ==> l.goodOut(b, outs[b]))
  }

  ghost predicate Stable<I, O>(p: Problem<I, O>, ins: seq<I>, outs: seq<O>, b: nat)
    requires b < |ins| == |outs|
  {
    p.transfer(b, ins[b], outs[b]) == (ins[b], false)
  }

  ghost predicate Covered<I, O>(l: Laws<I, O>, ins: seq<I>, outs: seq<O>, b: nat, q: nat)
    requires b < |ins| == |outs| && q < |outs|
  {
    l.covers(outs[q], ins[b])
  }

  /** The solved state: every block is stable and every edge has been joined since its last change. */
  ghost predicate Solved<I, O>(p: Problem<I, O>, l: Laws<I, O>, next: seq<seq<nat>>, ins: seq<I>, outs: seq<O>)
    requires WellFormed(next)
  {
    && |ins| == |outs| == |next|
    && (forall b: nat :: b < |next| ==> Stable(p, ins, outs, b))
    && (forall b: nat, q: nat {:trigger Covered(l, ins, outs, b, q)} :: b < |next| && q in next[b] ==>
          Covered(l, ins, outs, b, q))
  }

  // ----- Termination measure -----

  ghost function Sum<O>(f: O -> nat, outs: seq<O>): nat {
    if outs == [] then 0 else f(outs[0]) + Sum(f, outs[1..])
  }

  lemma {:induction false} SumUpdate<O>(f: O -> nat, outs: seq<O>, q: nat, o: O)
    requires q < |outs|
    ensures Sum(f, outs[q := o]) == Sum(f, outs) - f(outs[q]) + f(o)
  {
    if q == 0 {
      assert outs[q := o][1..] == outs[1..];
    } else {
      assert outs[q := o][1..] == outs[1..][q - 1 := o];
      SumUpdate(f, outs[1..], q - 1, o);
    }
  }

  /** The ranks of all out-states together, compared lexicographically. */
  ghost function TotalRank<I, O>(l: Laws<I, O>, outs: seq<O>): (nat, nat) {
    (Sum((o: O) => l.rank(o).0, outs), Sum((o: O) => l.rank(o).1, outs))
  }

  lemma RankUpdate<I, O>(l: Laws<I, O>, outs: seq<O>, q: nat, o: O)
    requires q < |outs| && Below(l.rank(o), l.rank(outs[q]))
    ensures Below(TotalRank(l, outs[q := o]), TotalRank(l, outs))
  {
    SumUpdate((o: O) => l.rank(o).0, outs, q, o);
    SumUpdate((o: O) => l.rank(o).1, outs, q, o);
  }

  ghost function Unstable<I, O>(p: Problem<I, O>, ins: seq<I>, outs: seq<O>): set<nat>
    requires |ins| == |outs|
  {
    set b: nat | b < |ins| && !Stable(p, ins, outs, b)
  }

  // ----- The solver -----

  datatype Pass = FirstBackward | FirstForward | Worklist

  /** Whether a neighbour is queued after a join.  In the first pass a neighbour that is still
      going to be visited is not. */
  predicate Pushes(pass: Pass, b: nat, q: nat) {
    match pass
    case FirstBackward => q >= b
    case FirstForward => q <= b
    case Worklist => true
  }

  method JoinNeighbours<I(!new), O(!new)>(next: seq<seq<nat>>, p: Problem<I, O>, blockIn: array<I>, blockOut: array<O>,
                                          b: nat, work: FifoSet, pass: Pass, ghost l: Laws<I, O>)
    requires WellFormed(next) && JoinOk(p, l, next) && blockIn as object != blockOut
    requires |next| == blockIn.Length == blockOut.Length && b < |next| && AllGood(l, blockIn[..], blockOut[..])
    requires work.Valid() && forall x :: x in work.queue ==> x < |next|
    modifies blockOut, work
    ensures AllGood(l, blockIn[..], blockOut[..])
    ensures work.Valid() && forall x :: x in work.queue ==> x < |next|
    ensures forall x :: x in old(work.queue) ==> x in work.queue
    ensures forall q :: q in next[b] && Pushes(pass, b, q) ==> q in work.queue
    ensures forall q :: 0 <= q < |next| && q !in next[b] ==> blockOut[q] == old(blockOut[q])
    ensures forall q: nat :: q in next[b] ==> Covered(l, blockIn[..], blockOut[..], b, q)
    ensures forall c: nat, q: nat :: c < |next| && q < |next| && Covered(l, blockIn[..], old(blockOut[..]), c, q) ==>
              Covered(l, blockIn[..], blockOut[..], c, q)
    ensures blockOut[..] == old(blockOut[..]) || Below(TotalRank(l, blockOut[..]), TotalRank(l, old(blockOut[..])))
  {
    for k := 0 to |next[b]|
      invariant AllGood(l, blockIn[..], blockOut[..])
      invariant work.Valid() && forall x :: x in work.queue ==> x < |next|
      invariant forall x :: x in old(work.queue) ==> x in work.queue
      invariant forall j :: 0 <= j < k && Pushes(pass, b, next[b][j]) ==> next[b][j] in work.queue
      invariant forall q :: 0 <= q < |next| && q !in next[b] ==> blockOut[q] == old(blockOut[q])
      invariant forall q: nat :: q in next[b][..k] && q < |next| ==> Covered(l, blockIn[..], blockOut[..], b, q)
      invariant forall c: nat, q: nat :: c < |next| && q < |next| && Covered(l, blockIn[..], old(blockOut[..]), c, q) ==>
                  Covered(l, blockIn[..], blockOut[..], c, q)
      invariant blockOut[..] == old(blockOut[..]) || Below(TotalRank(l, blockOut[..]), TotalRank(l, old(blockOut[..])))
    {
      var q := next[b][k];
      assert next[b][..k + 1] == next[b][..k] + [q] && q in next[b];
      ghost var outs := blockOut[..];
      JoinOne(next, p, l, blockIn[..], outs, b, q);
      blockOut[q] := p.join(blockOut[q], blockIn[b]);
      assert blockOut[..] == outs[q := p.join(outs[q], blockIn[b])];
      if Pushes(pass, b, q) {
        work.PushBack(q);
      }
    }
  }

  lemma JoinOne<I(!new), O(!new)>(next: seq<seq<nat>>, p: Problem<I, O>, l: Laws<I, O>, ins: seq<I>, outs: seq<O>,
                                  b: nat, q: nat)
    requires WellFormed(next) && JoinOk(p, l, next) && |next| == |ins| && AllGood(l, ins, outs)
    requires b < |next| && q in next[b]
    ensures var outs' := outs[q := p.join(outs[q], ins[b])];
            && AllGood(l, ins, outs')
            && Covered(l, ins, outs', b, q)
            && (forall c: nat, r: nat :: c < |next| && r < |next| && Covered(l, ins, outs, c, r) ==> Covered(l, ins, outs', c, r))
            && (outs' == outs || Below(TotalRank(l, outs'), TotalRank(l, outs)))
  {
    var o := p.join(outs[q], ins[b]);
    assert l.goodIn(b, ins[b]) && l.goodOut(q, outs[q]);
    if o != outs[q] {
      RankUpdate(l, outs, q, o);
    }
  }

  lemma TransferOne<I(!new), O(!new)>(next: seq<seq<nat>>, p: Problem<I, O>, l: Laws<I, O>, ins: seq<I>, outs: seq<O>,
                                      b: nat)
    requires TransferOk(p, l, |next|) && |next| == |ins| && AllGood(l, ins, outs) && b < |next|
    ensures var (state, changed) := p.transfer(b, ins[b], outs[b]);
            var ins' := ins[b := state];
            && AllGood(l, ins', outs)
            && Unstable(p, ins', outs) == Unstable(p, ins, outs) - {b}
            && (changed ==> b in Unstable(p, ins, outs))
            && (forall c: nat, q: nat :: c < |next| && q < |next| && (c != b || !changed) && Covered(l, ins, outs, c, q) ==>
                  Covered(l, ins', outs, c, q))
  {
    assert l.goodIn(b, ins[b]) && l.goodOut(b, outs[b]);
    var (state, changed) := p.transfer(b, ins[b], outs[b]);
    var ins' := ins[b := state];
    forall c: nat | c < |next| && c != b
      ensures Stable(p, ins', outs, c) <==> Stable(p, ins, outs, c)
    {
    }
  }

  /** Processes the worklist until it is empty. */
  method Drain<I(!new), O(!new)>(next: seq<seq<nat>>, p: Problem<I, O>, blockIn: array<I>, blockOut: array<O>,
                                 work: FifoSet, ghost l: Laws<I, O>)
    requires WellFormed(next) && TransferOk(p, l, |next|) && JoinOk(p, l, next) && blockIn as object != blockOut
    requires |next| == blockIn.Length == blockOut.Length && AllGood(l, blockIn[..], blockOut[..])
    requires work.Valid() && forall x :: x in work.queue ==> x < |next|
    requires forall b: nat :: b < |next| ==> b in work.queue || Stable(p, blockIn[..], blockOut[..], b)
    requires forall b: nat, q: nat :: b < |next| && q in next[b] ==> Covered(l, blockIn[..], blockOut[..], b, q)
    modifies blockIn, blockOut, work
    ensures AllGood(l, blockIn[..], blockOut[..])
    ensures Solved(p, l, next, blockIn[..], blockOut[..])
  {
    while work.queue != []
      invariant AllGood(l, blockIn[..], blockOut[..])
      invariant work.Valid() && forall x :: x in work.queue ==> x < |next|
      invariant forall b: nat :: b < |next| ==> b in work.queue || Stable(p, blockIn[..], blockOut[..], b)
      invariant forall b: nat, q: nat :: b < |next| && q in next[b] ==> Covered(l, blockIn[..], blockOut[..], b, q)
      decreases TotalRank(l, blockOut[..]).0, TotalRank(l, blockOut[..]).1,
                Unstable(p, blockIn[..], blockOut[..]), |work.queue|
    {
      ProcessNext(next, p, blockIn, blockOut, work, l);
    }
  }

  method ProcessNext<I(!new), O(!new)>(next: seq<seq<nat>>, p: Problem<I, O>, blockIn: array<I>, blockOut: array<O>,
                                       work: FifoSet, ghost l: Laws<I, O>)
    requires WellFormed(next) && TransferOk(p, l, |next|) && JoinOk(p, l, next) && blockIn as object != blockOut
    requires |next| == blockIn.Length == blockOut.Length && AllGood(l, blockIn[..], blockOut[..])
    requires work.Valid() && forall x :: x in work.queue ==> x < |next|
    requires work.queue != []
    requires forall b: nat :: b < |next| ==> b in work.queue || Stable(p, blockIn[..], blockOut[..], b)
    requires forall b: nat, q: nat :: b < |next| && q in next[b] ==> Covered(l, blockIn[..], blockOut[..], b, q)
    modifies blockIn, blockOut, work
    ensures AllGood(l, blockIn[..], blockOut[..])
    ensures work.Valid() && forall x :: x in work.queue ==> x < |next|
    ensures forall b: nat :: b < |next| ==> b in work.queue || Stable(p, blockIn[..], blockOut[..], b)
    ensures forall b: nat, q: nat :: b < |next| && q in next[b] ==> Covered(l, blockIn[..], blockOut[..], b, q)
    ensures
      || Below(TotalRank(l, blockOut[..]), TotalRank(l, old(blockOut[..])))
      || (blockOut[..] == old(blockOut[..])
          && (Unstable(p, blockIn[..], blockOut[..]) < Unstable(p, old(blockIn[..]), old(blockOut[..]))
              || (Unstable(p, blockIn[..], blockOut[..]) == Unstable(p, old(blockIn[..]), old(blockOut[..]))
                  && |work.queue| < |old(work.queue)|)))
  {
    var b := work.PopFront();
    ghost var ins, outs := blockIn[..], blockOut[..];
    assert forall x :: x in old(work.queue) <==> x == b || x in work.queue;
    assert l.goodIn(b, ins[b]) && l.goodOut(b, outs[b]);
    var (state, changed) := p.transfer(b, blockIn[b], blockOut[b]);
    blockIn[b] := state;
    ghost var ins1 := blockIn[..];
    assert ins1 == ins[b := state];
    TransferOne(next, p, l, ins, outs, b);
    if changed {
      JoinNeighbours(next, p, blockIn, blockOut, b, work, Worklist, l);
      StableUnlessJoined(p, ins1, outs, blockOut[..], next[b]);
    }
  }

  lemma StableUnlessJoined<I, O>(p: Problem<I, O>, ins: seq<I>, outs: seq<O>, outs': seq<O>, joined: seq<nat>)
    requires |ins| == |outs| == |outs'|
    requires forall q :: 0 <= q < |outs| && q !in joined ==> outs'[q] == outs[q]
    ensures forall b: nat :: b < |ins| && b !in joined ==> (Stable(p, ins, outs', b) <==> Stable(p, ins, outs, b))
  {
  }

  /** Visits one block of the first pass: transfers it and joins it into all its neighbours. */
  method VisitFirst<I(!new), O(!new)>(next: seq<seq<nat>>, p: Problem<I, O>, blockIn: array<I>, blockOut: array<O>,
                                      b: nat, work: FifoSet, pass: Pass, ghost lo: nat, ghost hi: nat, ghost l: Laws<I, O>)
    requires WellFormed(next) && TransferOk(p, l, |next|) && JoinOk(p, l, next) && blockIn as object != blockOut
    requires |next| == blockIn.Length == blockOut.Length && AllGood(l, blockIn[..], blockOut[..])
    requires work.Valid() && forall x :: x in work.queue ==> x < |next|
    requires b < |next| && hi <= |next| && !(lo <= b < hi)
    requires forall q: nat :: q == b || lo <= q < hi ==> Pushes(pass, b, q)
    requires forall c: nat :: lo <= c < hi ==> c in work.queue || Stable(p, blockIn[..], blockOut[..], c)
    requires forall c: nat, q: nat :: lo <= c < hi && q in next[c] ==> Covered(l, blockIn[..], blockOut[..], c, q)
    modifies blockIn, blockOut, work
    ensures AllGood(l, blockIn[..], blockOut[..])
    ensures work.Valid() && forall x :: x in work.queue ==> x < |next|
    ensures forall c: nat :: c == b || lo <= c < hi ==> c in work.queue || Stable(p, blockIn[..], blockOut[..], c)
    ensures forall c: nat, q: nat :: (c == b || lo <= c < hi) && q in next[c] ==> Covered(l, blockIn[..], blockOut[..], c, q)
  {
    ghost var ins, outs := blockIn[..], blockOut[..];
    var (state, _) := p.transfer(b, blockIn[b], blockOut[b]);
    blockIn[b] := state;
    ghost var ins1 := blockIn[..];
    assert ins1 == ins[b := state];
    TransferOne(next, p, l, ins, outs, b);
    assert b !in Unstable(p, ins1, outs);
    assert forall c: nat :: lo <= c < hi && c in Unstable(p, ins1, outs) ==> c in Unstable(p, ins, outs);
    JoinNeighbours(next, p, blockIn, blockOut, b, work, pass, l);
    StableUnlessJoined(p, ins1, outs, blockOut[..], next[b]);
  }

  /** Solves a backward problem: `pred` lists the predecessors of every block. */
  method SolveBackward<I(!new), O(!new)>(pred: seq<seq<nat>>, p: Problem<I, O>, blockIn: array<I>, blockOut: array<O>,
                                         ghost l: Laws<I, O>)
    requires WellFormed(pred) && TransferOk(p, l, |pred|) && JoinOk(p, l, pred) && blockIn as object != blockOut
    requires |pred| == blockIn.Length == blockOut.Length && AllGood(l, blockIn[..], blockOut[..])
    modifies blockIn, blockOut
    ensures AllGood(l, blockIn[..], blockOut[..])
    ensures Solved(p, l, pred, blockIn[..], blockOut[..])
  {
    var work := new FifoSet();
    for b := |pred| downto 0
      invariant AllGood(l, blockIn[..], blockOut[..])
      invariant work.Valid() && forall x :: x in work.queue ==> x < |pred|
      invariant forall c: nat :: b <= c < |pred| ==> c in work.queue || Stable(p, blockIn[..], blockOut[..], c)
      invariant forall c: nat, q: nat :: b <= c < |pred| && q in pred[c] ==> Covered(l, blockIn[..], blockOut[..], c, q)
    {
      VisitFirst(pred, p, blockIn, blockOut, b, work, FirstBackward, b + 1, |pred|, l);
    }
    Drain(pred, p, blockIn, blockOut, work, l);
  }

  /** Solves a forward problem: `succ` lists the successors of every block.  The roles of in and
      out are swapped: `blockIn` holds what a block passes on. */
  method SolveForward<I(!new), O(!new)>(succ: seq<seq<nat>>, p: Problem<I, O>, blockOut: array<I>, blockIn: array<O>,
                                        ghost l: Laws<I, O>)
    requires WellFormed(succ) && TransferOk(p, l, |succ|) && JoinOk(p, l, succ) && blockOut as object != blockIn
    requires |succ| == blockOut.Length == blockIn.Length && AllGood(l, blockOut[..], blockIn[..])
    modifies blockOut, blockIn
    ensures AllGood(l, blockOut[..], blockIn[..])
    ensures Solved(p, l, succ, blockOut[..], blockIn[..])
  {
    var work := new FifoSet();
    for b := 0 to |succ|
      invariant AllGood(l, blockOut[..], blockIn[..])
      invariant work.Valid() && forall x :: x in work.queue ==> x < |succ|
      invariant forall c: nat :: 0 <= c < b ==> c in work.queue || Stable(p, blockOut[..], blockIn[..], c)
      invariant forall c: nat, q: nat :: 0 <= c < b && q in succ[c] ==> Covered(l, blockOut[..], blockIn[..], c, q)
    {
      VisitFirst(succ, p, blockOut, blockIn, b, work, FirstForward, 0, b, l);
    }
    Drain(succ, p, blockOut, blockIn, work, l);
  }
}
