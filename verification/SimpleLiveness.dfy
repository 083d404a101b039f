/** Which values are live where (crates/deko-nak/src/liveness.rs). */
module SimpleLiveness {
  import opened Flow
  import opened Dataflow

  /** The per-block summary: values defined, values used, and where a value is used last. */
  datatype BlockSummary = BlockSummary(defs: set<Ssa>, uses: set<Ssa>, lastUse: map<Ssa, nat>)

  ghost predicate Summarizes(f: Function, b: nat, s: BlockSummary)
    requires b < |f.blocks|
  {
    && (forall v :: v in s.defs <==> f.DefinedIn(b, v))
    && (forall v :: v in s.uses <==> exists ip: nat :: f.UsedAt(b, ip, v))
    && s.lastUse.Keys == s.uses
    && (forall v :: v in s.lastUse ==> f.UsedAt(b, s.lastUse[v], v))
    && (forall v, ip: nat {:trigger f.UsedAt(b, ip, v)} :: f.UsedAt(b, ip, v) ==> v in s.uses && ip <= s.lastUse[v])
  }

  /** `s` summarizes the instructions of block `b` before `end`. */
  ghost predicate SummarizesUpTo(f: Function, b: nat, s: BlockSummary, end: nat)
    requires b < |f.blocks|
  {
    && (forall v :: v in s.defs <==> exists ip: nat :: ip < end && f.DefinedAt(b, ip, v))
    && (forall v :: v in s.uses <==> exists ip: nat :: ip < end && f.UsedAt(b, ip, v))
    && s.lastUse.Keys == s.uses
    && (forall v :: v in s.lastUse ==> s.lastUse[v] < end && f.UsedAt(b, s.lastUse[v], v))
    && (forall v, ip: nat {:trigger f.UsedAt(b, ip, v)} :: ip < end && f.UsedAt(b, ip, v) ==> v in s.uses && ip <= s.lastUse[v])
  }

  method Summarize(f: Function, b: nat) returns (s: BlockSummary)
    requires b < |f.blocks|
    ensures Summarizes(f, b, s)
  {
    s := BlockSummary({}, {}, map[]);
    for ip := 0 to |f.blocks[b]|
      invariant SummarizesUpTo(f, b, s, ip)
    {
      var instr := f.blocks[b][ip];
      ghost var s0 := s;
      s := AddUses(instr, ip, s);
      s := AddDefs(instr, s);
      SummaryStep(f, b, s0, s, ip);
    }
  }

  method AddUses(instr: Instr, ip: nat, s0: BlockSummary) returns (s: BlockSummary)
    requires s0.lastUse.Keys == s0.uses
    ensures s.defs == s0.defs && s.lastUse.Keys == s.uses
    ensures forall v :: v in s.uses <==> v in s0.uses || v in instr.uses
    ensures forall v :: v in s.uses ==> s.lastUse[v] == if v in instr.uses then ip else s0.lastUse[v]
  {
    s := s0;
    for k := 0 to |instr.uses|
      invariant s.defs == s0.defs && s.lastUse.Keys == s.uses
      invariant forall v :: v in s.uses <==> v in s0.uses || v in instr.uses[..k]
      invariant forall v :: v in s.uses ==> s.lastUse[v] == if v in instr.uses[..k] then ip else s0.lastUse[v]
    {
      var v := instr.uses[k];
      assert instr.uses[..k + 1] == instr.uses[..k] + [v];
      s := s.(uses := s.uses + {v}, lastUse := s.lastUse[v := ip]);
    }
    assert instr.uses[..|instr.uses|] == instr.uses;
  }

  method AddDefs(instr: Instr, s0: BlockSummary) returns (s: BlockSummary)
    ensures s == s0.(defs := s.defs)
    ensures forall v :: v in s.defs <==> v in s0.defs || v in instr.defs
  {
    s := s0;
    for k := 0 to |instr.defs|
      invariant s == s0.(defs := s.defs)
      invariant forall v :: v in s.defs <==> v in s0.defs || v in instr.defs[..k]
    {
      assert instr.defs[..k + 1] == instr.defs[..k] + [instr.defs[k]];
      s := s.(defs := s.defs + {instr.defs[k]});
    }
    assert instr.defs[..|instr.defs|] == instr.defs;
  }

  lemma SummaryStep(f: Function, b: nat, s0: BlockSummary, s: BlockSummary, ip: nat)
    requires b < |f.blocks| && ip < |f.blocks[b]| && SummarizesUpTo(f, b, s0, ip)
    requires s.lastUse.Keys == s.uses
    requires forall v :: v in s.defs <==> v in s0.defs || f.DefinedAt(b, ip, v)
    requires forall v :: v in s.uses <==> v in s0.uses || f.UsedAt(b, ip, v)
    requires forall v :: v in s.uses ==> s.lastUse[v] == if f.UsedAt(b, ip, v) then ip else s0.lastUse[v]
    ensures SummarizesUpTo(f, b, s, ip + 1)
  {
    forall v
      ensures v in s.defs <==> exists j: nat :: j < ip + 1 && f.DefinedAt(b, j, v)
      ensures v in s.uses <==> exists j: nat :: j < ip + 1 && f.UsedAt(b, j, v)
    {
      OneMore(f, b, ip, v);
    }
  }

  lemma OneMore(f: Function, b: nat, ip: nat, v: Ssa)
    requires b < |f.blocks|
    ensures (exists j: nat :: j < ip + 1 && f.DefinedAt(b, j, v)) <==> f.DefinedAt(b, ip, v) || exists j: nat :: j < ip && f.DefinedAt(b, j, v)
    ensures (exists j: nat :: j < ip + 1 && f.UsedAt(b, j, v)) <==> f.UsedAt(b, ip, v) || exists j: nat :: j < ip && f.UsedAt(b, j, v)
  {
    hide Function.DefinedAt, Function.UsedAt;
    if j: nat :| j < ip + 1 && f.DefinedAt(b, j, v) {
      assert j < ip || f.DefinedAt(b, ip, v);
    }
    if j: nat :| j < ip + 1 && f.UsedAt(b, j, v) {
      assert j < ip || f.UsedAt(b, ip, v);
    }
  }

  // ----- The dataflow problem -----

  function Transfer(s: seq<BlockSummary>, b: nat, liveIn: set<Ssa>, liveOut: set<Ssa>): (set<Ssa>, bool) {
    if b < |s| then
      var more := liveIn + ((liveOut + s[b].uses) - s[b].defs);
      (more, more != liveIn)
    else (liveIn, false)
  }

  /** All values used anywhere; the sets the solver computes cannot grow beyond it. */
  function Values(s: seq<BlockSummary>): (all: set<Ssa>)
    ensures UsesWithin(s, all)
  {
    set b, v | 0 <= b < |s| && v in s[b].uses :: v
  }

  ghost predicate UsesWithin(s: seq<BlockSummary>, all: set<Ssa>) {
    forall b :: 0 <= b < |s| ==> s[b].uses <= all
  }

  /** Soundness, which the solver maintains: whatever is marked live has a witness. */
  ghost predicate InSound(f: Function, b: nat, liveIn: set<Ssa>) {
    b < |f.blocks| && forall v :: v in liveIn ==> exists path, ip :: f.ReachesUse(path, ip, v) && path[0] == b
  }

  ghost predicate OutSound(f: Function, all: set<Ssa>, q: nat, liveOut: set<Ssa>) {
    && q < |f.succ| && liveOut <= all
    && forall v :: v in liveOut ==> exists path, ip :: f.ReachesUse(path, ip, v) && path[0] in f.succ[q]
  }

  ghost function LivenessLaws(f: Function, all: set<Ssa>): Laws<set<Ssa>, set<Ssa>>
    requires f.Valid()
  {
    Laws(
      (liveOut, liveIn) => liveIn <= liveOut,
      liveOut => (|all - liveOut|, 0),
      (b: nat, liveIn) => InSound(f, b, liveIn) && liveIn <= all,
      (q: nat, liveOut) => OutSound(f, all, q, liveOut))
  }

  function LivenessProblem(s: seq<BlockSummary>): Problem<set<Ssa>, set<Ssa>> {
    Problem((b: nat, liveIn, liveOut) => Transfer(s, b, liveIn, liveOut), (liveOut, liveIn) => liveOut + liveIn)
  }

  lemma TransferIsSound(f: Function, s: seq<BlockSummary>, b: nat, liveIn: set<Ssa>, liveOut: set<Ssa>)
    requires f.Valid() && f.Strict() && |s| == |f.blocks| && b < |s| && Summarizes(f, b, s[b])
    requires InSound(f, b, liveIn) && OutSound(f, liveOut, b, liveOut)
    ensures InSound(f, b, Transfer(s, b, liveIn, liveOut).0)
  {
    forall v | v in (liveOut + s[b].uses) - s[b].defs
      ensures exists path, ip :: f.ReachesUse(path, ip, v) && path[0] == b
    {
      if v in liveOut {
        var path, ip :| f.ReachesUse(path, ip, v) && path[0] in f.succ[b];
        ExtendPath(f, b, path, ip, v);
        assert ([b] + path)[0] == b;
      } else {
        var ip: nat :| f.UsedAt(b, ip, v);
        assert [b][0] == b && f.ReachesUse([b], ip, v);
      }
    }
  }

  lemma TransferLaw(f: Function, s: seq<BlockSummary>, all: set<Ssa>)
    requires f.Valid() && f.Strict() && |s| == |f.blocks| && UsesWithin(s, all)
    requires forall b: nat :: b < |s| ==> Summarizes(f, b, s[b])
    ensures TransferOk(LivenessProblem(s), LivenessLaws(f, all), |f.pred|)
  {
    var l := LivenessLaws(f, all);
    forall b: nat, i, o | b < |s| && l.goodIn(b, i) && l.goodOut(b, o)
      ensures l.goodIn(b, Transfer(s, b, i, o).0)
    {
      TransferIsSound(f, s, b, i, o);
    }
    assert forall b: nat, i, o :: Transfer(s, b, Transfer(s, b, i, o).0, o) == (Transfer(s, b, i, o).0, false);
  }

  lemma JoinIsSound(f: Function, all: set<Ssa>, b: nat, q: nat, liveIn: set<Ssa>, liveOut: set<Ssa>)
    requires f.Valid() && b < |f.blocks| && q in f.pred[b]
    requires InSound(f, b, liveIn) && liveIn <= all && OutSound(f, all, q, liveOut)
    ensures OutSound(f, all, q, liveOut + liveIn)
    ensures liveOut + liveIn == liveOut || |all - (liveOut + liveIn)| < |all - liveOut|
  {
    assert b in f.succ[q];
    forall v | v in liveIn
      ensures exists path, ip :: f.ReachesUse(path, ip, v) && path[0] in f.succ[q]
    {
      var path, ip :| f.ReachesUse(path, ip, v) && path[0] == b;
    }
    if liveOut + liveIn != liveOut {
      SmallerSet(all - (liveOut + liveIn), all - liveOut);
    }
  }

  lemma JoinLaw(f: Function, s: seq<BlockSummary>, all: set<Ssa>)
    requires f.Valid()
    ensures JoinOk(LivenessProblem(s), LivenessLaws(f, all), f.pred)
  {
    var l := LivenessLaws(f, all);
    forall b: nat, q, i, o | b < |f.pred| && q in f.pred[b] && l.goodIn(b, i) && l.goodOut(q, o)
      ensures l.goodOut(q, o + i)
      ensures o + i == o || Below(l.rank(o + i), l.rank(o))
    {
      JoinIsSound(f, all, b, q, i, o);
    }
  }

  lemma {:induction false} SmallerSet<T>(a: set<T>, b: set<T>)
    requires a < b
    ensures |a| < |b|
  {
    if a == {} {
    } else {
      var x :| x in a;
      SmallerSet(a - {x}, b - {x});
    }
  }

  /** Completeness of any solution: a reachable use makes the value live. */
  lemma {:induction false} SolvedIsComplete(f: Function, s: seq<BlockSummary>, all: set<Ssa>,
                                            ins: seq<set<Ssa>>, outs: seq<set<Ssa>>, path: seq<nat>, ip: nat, v: Ssa)
    requires f.Valid() && f.Strict() && |s| == |f.blocks|
    requires forall b: nat :: b < |s| ==> Summarizes(f, b, s[b])
    requires Solved(LivenessProblem(s), LivenessLaws(f, all), f.pred, ins, outs)
    requires f.ReachesUse(path, ip, v)
    ensures v in ins[path[0]]
    decreases |path|
  {
    var b := path[0];
    assert Stable(LivenessProblem(s), ins, outs, b) && Summarizes(f, b, s[b]);
    if |path| == 1 {
      assert f.ExposedUse(b, ip, v) && f.UsedAt(b, ip, v);
    } else {
      TailPath(f, path, ip, v);
      SolvedIsComplete(f, s, all, ins, outs, path[1..], ip, v);
      assert Covered(LivenessLaws(f, all), ins, outs, path[1], b);
      assert !f.DefinedIn(b, v);
    }
  }

  /** The result: summaries with exact live-in and live-out sets. */
  datatype Live = Live(blocks: seq<BlockSummary>, liveIn: seq<set<Ssa>>, liveOut: seq<set<Ssa>>)
  {
    predicate IsLiveAfterIp(b: nat, v: Ssa, ip: nat)
      requires b < |blocks| == |liveOut|
    {
      v in liveOut[b] || (v in blocks[b].lastUse && blocks[b].lastUse[v] > ip)
    }
  }

  /** The summaries are right, and a value is live into or out of a block exactly if a use of it can be
      reached. */
  ghost predicate IsExact(f: Function, live: Live) {
    && |live.blocks| == |live.liveIn| == |live.liveOut| == |f.blocks| == |f.succ|
    && (forall b: nat :: b < |f.blocks| ==> Summarizes(f, b, live.blocks[b]))
    && (forall b: nat, v: Ssa :: b < |f.blocks| ==> (v in live.liveIn[b] <==> exists path, ip :: f.ReachesUse(path, ip, v) && path[0] == b))
    && (forall b: nat, v: Ssa :: b < |f.blocks| ==> (v in live.liveOut[b] <==> f.LiveOut(b, v)))
  }

  method ForFunction(f: Function) returns (live: Live)
    requires f.Valid() && f.Strict()
    ensures IsExact(f, live)
  {
    var n := |f.blocks|;
    var s: seq<BlockSummary> := [];
    for b := 0 to n
      invariant |s| == b
      invariant forall c: nat :: c < b ==> Summarizes(f, c, s[c])
    {
      var summary := Summarize(f, b);
      s := s + [summary];
    }
    var liveIn := new set<Ssa>[n](_ => {});
    var liveOut := new set<Ssa>[n](_ => {});
    ghost var all := Values(s);
    TransferLaw(f, s, all);
    JoinLaw(f, s, all);
    SolveBackward(f.pred, LivenessProblem(s), liveIn, liveOut, LivenessLaws(f, all));
    hide IsExact;
    live := Live(s, liveIn[..], liveOut[..]);
    SolvedIsExact(f, s, all, live.liveIn, live.liveOut);
  }

  /** Soundness of any solution: what is live has a witness. */
  lemma SolvedSound(f: Function, all: set<Ssa>, ins: seq<set<Ssa>>, outs: seq<set<Ssa>>)
    requires f.Valid() && |ins| == |outs| == |f.blocks| && AllGood(LivenessLaws(f, all), ins, outs)
    ensures forall b: nat, v: Ssa :: b < |ins| && v in ins[b] ==> exists path, ip :: f.ReachesUse(path, ip, v) && path[0] == b
    ensures forall b: nat, v: Ssa :: b < |ins| && v in outs[b] ==> f.LiveOut(b, v)
  {
    hide Function.ReachesUse;
    forall b: nat | b < |ins|
      ensures InSound(f, b, ins[b]) && OutSound(f, all, b, outs[b])
    {
      assert LivenessLaws(f, all).goodIn(b, ins[b]) && LivenessLaws(f, all).goodOut(b, outs[b]);
    }
  }

  lemma SolvedIsExact(f: Function, s: seq<BlockSummary>, all: set<Ssa>, ins: seq<set<Ssa>>, outs: seq<set<Ssa>>)
    requires f.Valid() && f.Strict() && |s| == |f.blocks|
    requires forall b: nat :: b < |s| ==> Summarizes(f, b, s[b])
    requires Solved(LivenessProblem(s), LivenessLaws(f, all), f.pred, ins, outs)
    requires AllGood(LivenessLaws(f, all), ins, outs)
    ensures IsExact(f, Live(s, ins, outs))
  {
    hide Summarizes, OutSound, InSound, Function.Strict;
    SolvedSound(f, all, ins, outs);
    forall b: nat, path, ip, v | b < |s| && f.ReachesUse(path, ip, v)
      ensures path[0] == b ==> v in ins[b]
      ensures path[0] in f.succ[b] ==> v in outs[b]
    {
      SolvedIsComplete(f, s, all, ins, outs, path, ip, v);
      if path[0] in f.succ[b] {
        assert b in f.pred[path[0]];
        assert Covered(LivenessLaws(f, all), ins, outs, path[0], b);
      }
    }
  }

  // ----- The query -----

  /** The query about a value that the block has used or defined by then is exact. */
  lemma QueryIsExact(f: Function, live: Live, b: nat, v: Ssa, ip: nat)
    requires f.Valid() && f.Strict() && f.DefinedOnce() && IsExact(f, live) && b < |f.blocks|
    requires exists j: nat :: j <= ip && (f.UsedAt(b, j, v) || f.DefinedAt(b, j, v))
    ensures live.IsLiveAfterIp(b, v, ip) <==> f.LiveAfter(b, ip, v)
  {
    var j: nat :| j <= ip && (f.UsedAt(b, j, v) || f.DefinedAt(b, j, v));
    forall i: nat | ip < i
      ensures !f.DefinedAt(b, i, v)
    {
      if f.UsedAt(b, j, v) && (forall d: nat :: d < j ==> !f.DefinedAt(b, d, v)) {
        assert f.ExposedUse(b, j, v);
      }
    }
    assert Summarizes(f, b, live.blocks[b]);
  }

  // ----- From one instruction to the next -----

  function Elements(vs: seq<Ssa>): set<Ssa> {
    set v | v in vs
  }

  /** The values defined by the first `n` instructions of a block. */
  function DefsUpTo(f: Function, b: nat, n: nat): set<Ssa>
    requires b < |f.blocks|
  {
    if n == 0 then {}
    else if n <= |f.blocks[b]| then DefsUpTo(f, b, n - 1) + Elements(f.blocks[b][n - 1].defs)
    else DefsUpTo(f, b, n - 1)
  }

  lemma {:induction false} DefsAre(f: Function, b: nat, n: nat, v: Ssa)
    requires b < |f.blocks|
    ensures v in DefsUpTo(f, b, n) <==> exists i: nat :: i < n && f.DefinedAt(b, i, v)
  {
    if n > 0 {
      DefsAre(f, b, n - 1, v);
      assert n <= |f.blocks[b]| ==> (v in Elements(f.blocks[b][n - 1].defs) <==> f.DefinedAt(b, n - 1, v));
      if i: nat :| i < n && f.DefinedAt(b, i, v) {
        assert i < n - 1 || f.DefinedAt(b, n - 1, v);
      }
    }
  }

  /** The values that the query calls live before instruction `n`, among those that there are by then. */
  function LiveBefore(f: Function, live: Live, b: nat, n: nat): set<Ssa>
    requires b < |f.blocks| == |live.blocks| == |live.liveIn| == |live.liveOut|
  {
    if n == 0 then live.liveIn[b] else set v | v in live.liveIn[b] + DefsUpTo(f, b, n) && live.IsLiveAfterIp(b, v, n - 1)
  }

  /** What an instruction uses is live before it and what it defines is new; otherwise nothing becomes live,
      and nothing dies that it does not use. */
  ghost predicate IsLiveStep(instr: Instr, before: set<Ssa>, after: set<Ssa>) {
    && (forall v :: v in instr.uses ==> v in before)
    && (forall v :: v in instr.defs ==> v !in before)
    && (forall v :: v in after ==> v in before || v in instr.defs)
    && (forall v :: v in before && v !in instr.uses ==> v in after)
  }

  /** A value live into a block is not defined there; it is used there or live out. */
  lemma LiveInFacts(f: Function, live: Live, b: nat, v: Ssa)
    requires f.Valid() && f.Strict() && IsExact(f, live) && b < |f.blocks| && v in live.liveIn[b]
    ensures !f.DefinedIn(b, v) && (v in live.liveOut[b] || v in live.blocks[b].lastUse)
  {
    var path, ip :| f.ReachesUse(path, ip, v) && path[0] == b;
    if |path| > 1 {
      TailPath(f, path, ip, v);
      assert f.LiveOut(b, v);
    } else {
      assert Summarizes(f, b, live.blocks[b]) && f.UsedAt(b, ip, v);
    }
  }

  lemma UsedIsLive(f: Function, live: Live, b: nat, n: nat, v: Ssa)
    requires f.Valid() && f.Strict() && IsExact(f, live) && b < |f.blocks| && f.UsedAt(b, n, v)
    ensures v in LiveBefore(f, live, b, n)
  {
    hide Function.LiveOut, DefsUpTo;
    assert Summarizes(f, b, live.blocks[b]);
    DefsAre(f, b, n, v);
    if v !in DefsUpTo(f, b, n) {
      assert f.ExposedUse(b, n, v);
      assert f.ReachesUse([b], n, v) && [b][0] == b;
      assert v in live.liveIn[b];
    }
    if n > 0 {
      assert live.IsLiveAfterIp(b, v, n - 1);
    }
  }

  lemma DefinedIsNew(f: Function, live: Live, b: nat, n: nat, v: Ssa)
    requires f.Valid() && f.Strict() && f.DefinedOnce() && IsExact(f, live) && b < |f.blocks| && f.DefinedAt(b, n, v)
    ensures v !in LiveBefore(f, live, b, n)
  {
    DefsAre(f, b, n, v);
    if v in live.liveIn[b] {
      LiveInFacts(f, live, b, v);
    }
  }

  /** Liveness is right from every instruction to the next. */
  lemma LiveSteps(f: Function, live: Live, b: nat, n: nat)
    requires f.Valid() && f.Strict() && f.DefinedOnce() && IsExact(f, live) && b < |f.blocks| && n < |f.blocks[b]|
    ensures IsLiveStep(f.blocks[b][n], LiveBefore(f, live, b, n), LiveBefore(f, live, b, n + 1))
  {
    hide Summarizes, Function.LiveOut, LiveBefore, Live.IsLiveAfterIp;
    var instr, before, after := f.blocks[b][n], LiveBefore(f, live, b, n), LiveBefore(f, live, b, n + 1);
    forall v
      ensures v in instr.uses ==> v in before
      ensures v in instr.defs ==> v !in before
      ensures v in after ==> v in before || v in instr.defs
      ensures v in before && v !in instr.uses ==> v in after
    {
      if v in instr.uses {
        UsedIsLive(f, live, b, n, v);
      }
      if v in instr.defs {
        DefinedIsNew(f, live, b, n, v);
      }
      StaysLive(f, live, b, n, v);
    }
  }

  lemma StaysLive(f: Function, live: Live, b: nat, n: nat, v: Ssa)
    requires f.Valid() && f.Strict() && IsExact(f, live) && b < |f.blocks| && n < |f.blocks[b]|
    ensures v in LiveBefore(f, live, b, n + 1) ==> v in LiveBefore(f, live, b, n) || v in f.blocks[b][n].defs
    ensures v in LiveBefore(f, live, b, n) && v !in f.blocks[b][n].uses ==> v in LiveBefore(f, live, b, n + 1)
  {
    hide Function.LiveOut, Function.Strict, DefsUpTo;
    assert Summarizes(f, b, live.blocks[b]);
    assert DefsUpTo(f, b, n + 1) == DefsUpTo(f, b, n) + Elements(f.blocks[b][n].defs) by { DefsStep(f, b, n); }
    if n == 0 {
      assert DefsUpTo(f, b, 0) == {} by { DefsStep(f, b, 0); }
      if v in live.liveIn[b] {
        LiveInFacts(f, live, b, v);
      }
    }
    if v in live.blocks[b].lastUse && live.blocks[b].lastUse[v] == n {
      assert f.UsedAt(b, n, v);
    }
  }

  lemma DefsStep(f: Function, b: nat, n: nat)
    requires b < |f.blocks| && n < |f.blocks[b]|
    ensures DefsUpTo(f, b, n + 1) == DefsUpTo(f, b, n) + Elements(f.blocks[b][n].defs) && DefsUpTo(f, b, 0) == {}
  {
  }

  /** A value that is live out of a block is live from its definition on. */
  lemma LiveOutStays(f: Function, live: Live, b: nat, n: nat, v: Ssa)
    requires f.Valid() && f.Strict() && IsExact(f, live) && b < |f.blocks| && v in live.liveOut[b]
    requires forall i: nat :: n <= i ==> !f.DefinedAt(b, i, v)
    ensures v in LiveBefore(f, live, b, n)
  {
    var path, ip :| f.ReachesUse(path, ip, v) && path[0] in f.succ[b];
    DefsAre(f, b, n, v);
    if f.DefinedIn(b, v) {
      var i: nat :| f.DefinedAt(b, i, v);
      assert i < n;
    } else {
      ExtendPath(f, b, path, ip, v);
      assert ([b] + path)[0] == b;
    }
  }

  /** What is live into a block is live out of those before it. */
  lemma LiveAcrossEdge(f: Function, live: Live, b: nat, c: nat, v: Ssa)
    requires f.Valid() && IsExact(f, live) && b < |f.blocks| && c < |f.blocks| && c in f.succ[b] && v in live.liveIn[c]
    ensures v in live.liveOut[b]
  {
    var path, ip :| f.ReachesUse(path, ip, v) && path[0] == c;
    assert f.LiveOut(b, v);
  }
}
