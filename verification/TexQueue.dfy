/** Texture barriers: a simulation of the hardware's FIFO of texture fetches decides where an
    instruction must wait (crates/deko-nak/src/calc_instr_deps.rs). */
module TexQueue {
  import opened Machine
  import opened Dataflow

  const MAX_TEXTURES_LEFT := 62

  /** A register reference by index; the pass does not distinguish register files. */
  datatype RegRef = RegRef(base: nat, comps: nat)
  {
    /** What the pass asserts: the reference fits in one aligned group of four. */
    predicate Valid() {
      base + comps <= 256 && base % 4 + comps <= 4
    }

    predicate Has(r: nat) {
      base <= r < base + comps
    }
  }

  /** `dsts[0]` of a texture instruction is written when its fetch retires. */
  datatype Instr = Instr(srcs: seq<RegRef>, dsts: seq<RegRef>, isTex: bool)
  {
    predicate Valid() {
      && (forall x :: x in srcs + dsts ==> x.Valid())
      && (isTex ==> dsts != [])
    }

    predicate Touches(r: nat) {
      exists x :: x in srcs + dsts && x.Has(r)
    }
  }

  // ----- The simulation -----

  /** `pos[r]` is the least position at which register `r` may sit in the queue; registers that
      cannot be in the queue have no entry.  The queue holds at most `maxLen` fetches. */
  datatype Sim = Sim(pos: map<nat, nat>, maxLen: nat)
  {
    ghost predicate Valid() {
      && maxLen <= MAX_TEXTURES_LEFT + 1
      && forall r :: r in pos ==> r < 256 && pos[r] < maxLen
    }

    predicate IsQueueFull() {
      maxLen > MAX_TEXTURES_LEFT
    }

    function FlushAfter(p: nat): Sim {
      Sim(map r | r in pos && pos[r] < p :: pos[r], if maxLen < p then maxLen else p)
    }
  }

  const NEW_SIM := Sim(map[], 0)

  function Min(a: Option<nat>, b: Option<nat>): Option<nat> {
    if a.None? then b else if b.None? then a
    else if a.value <= b.value then a else b
  }

  /** The least tracked position of the `n` registers from `base` on. */
  function MinPos(sim: Sim, base: nat, n: nat): (p: Option<nat>)
    ensures p.None? ==> forall r :: base <= r < base + n ==> r !in sim.pos
    ensures p.Some? ==> forall r :: base <= r < base + n && r in sim.pos ==> p.value <= sim.pos[r]
    ensures p.Some? ==> exists r :: base <= r < base + n && r in sim.pos && p.value == sim.pos[r]
  {
    if n == 0 then None else
      Min(MinPos(sim, base, n - 1), if base + n - 1 in sim.pos then Some(sim.pos[base + n - 1]) else None)
  }

  /** Waits for `x`: cuts the queue in front of its youngest possible position. */
  function Flush(sim: Sim, x: RegRef): (Sim, Option<nat>) {
    var p := MinPos(sim, x.base, x.comps);
    if p.None? then (sim, None) else (sim.FlushAfter(p.value), p)
  }

  function FlushAll(sim: Sim, xs: seq<RegRef>): (Sim, Option<nat>)
    decreases xs
  {
    if xs == [] then (sim, None) else
      var (sim1, p) := Flush(sim, xs[0]);
      var (sim2, q) := FlushAll(sim1, xs[1..]);
      (sim2, Min(p, q))
  }

  /** Appends a fetch into `x`, after making room if the queue may be full. */
  function Push(sim: Sim, x: RegRef): (Sim, Option<nat>) {
    var full := sim.IsQueueFull();
    var sim1 := if full then sim.FlushAfter(MAX_TEXTURES_LEFT) else sim;
    (Sim(map r: nat | r < 256 && (x.Has(r) || r in sim1.pos) ::
           if x.Has(r) then 0 else sim1.pos[r] + 1,
         sim1.maxLen + 1),
     if full then Some(MAX_TEXTURES_LEFT) else None)
  }

  function Merge(a: Sim, b: Sim): Sim {
    Sim(map r | r in a.pos.Keys + b.pos.Keys ::
          if r !in b.pos || (r in a.pos && a.pos[r] <= b.pos[r]) then a.pos[r] else b.pos[r],
        if a.maxLen >= b.maxLen then a.maxLen else b.maxLen)
  }

  /** Simulates one instruction; the second component is the barrier it needs in front of it. */
  function VisitInstr(sim: Sim, instr: Instr): (Sim, Option<nat>)
    requires instr.Valid()
  {
    var (sim1, flush) := if sim.pos != map[] then FlushAll(sim, instr.srcs + instr.dsts) else (sim, None);
    var (sim2, push) := if instr.isTex then Push(sim1, instr.dsts[0]) else (sim1, None);
    (sim2, if flush.Some? then flush else push)
  }

  // ----- The hardware -----

  /** The fetches in flight, youngest first. */
  type Queue = seq<RegRef>

  ghost predicate InFlight(q: Queue, r: nat) {
    exists i :: 0 <= i < |q| && q[i].Has(r)
  }

  /** The simulation never places a register later than it is, nor the queue shorter than it is. */
  ghost predicate Sound(sim: Sim, q: Queue) {
    && |q| <= sim.maxLen
    && forall i, r {:trigger q[i].Has(r)} :: 0 <= i < |q| && q[i].Has(r) ==> r in sim.pos && sim.pos[r] <= i
  }

  function Keep(q: Queue, n: nat): Queue {
    if |q| <= n then q else q[..n]
  }

  lemma SoundKeep(sim: Sim, q: Queue, n: nat)
    requires Sound(sim, q)
    ensures Sound(sim, Keep(q, n))
  {
  }

  lemma SoundFlushAfter(sim: Sim, q: Queue, p: nat)
    requires Sound(sim, q)
    ensures Sound(sim.FlushAfter(p), Keep(q, p))
  {
  }

  /** Flushing for several references at once: one barrier at the least level clears them all. */
  lemma {:induction false} SoundFlushAll(sim: Sim, xs: seq<RegRef>, q: Queue)
    requires Sound(sim, q)
    ensures var (sim', p) := FlushAll(sim, xs);
            var q' := if p.Some? then Keep(q, p.value) else q;
            Sound(sim', q') && forall x, r :: x in xs && x.Has(r) ==> r !in sim'.pos
    decreases xs
  {
    if xs != [] {
      var (sim1, p) := Flush(sim, xs[0]);
      var q1 := if p.Some? then Keep(q, p.value) else q;
      SoundFlushAfter(sim, q, if p.Some? then p.value else 0);
      SoundFlushAll(sim1, xs[1..], q1);
      FlushAllShrinks(sim1, xs[1..]);
    }
  }

  lemma {:induction false} FlushAllShrinks(sim: Sim, xs: seq<RegRef>)
    ensures var (sim', p) := FlushAll(sim, xs);
            && sim'.maxLen <= sim.maxLen
            && (forall r :: r in sim'.pos ==> r in sim.pos && sim'.pos[r] == sim.pos[r])
            && (sim.Valid() ==> sim'.Valid())
            && (p.None? ==> sim' == sim)
            && (p.Some? ==> sim'.maxLen <= p.value && exists r :: r in sim.pos && sim.pos[r] == p.value)
    decreases xs
  {
    if xs != [] {
      FlushAllShrinks(Flush(sim, xs[0]).0, xs[1..]);
    }
  }

  // ----- One block -----

  datatype Out = TexDepBar(texturesLeft: nat) | Op(instr: Instr)

  /** One instruction at the hardware.  `keep` bounds what is still in flight afterwards: any number
      of the oldest fetches may have retired by then. */
  function Step(out: Out, q: Queue, keep: nat): Queue {
    match out
    case TexDepBar(n) => Keep(Keep(q, n), keep)
    case Op(i) => Keep(if i.isTex && i.dsts != [] then [i.dsts[0]] + q else q, keep)
  }

  /** No register in flight is touched, and the queue does not overflow. */
  ghost predicate StepOk(out: Out, q: Queue) {
    && (forall r: nat :: out.Op? && out.instr.Touches(r) ==> !InFlight(q, r))
    && (out.Op? && out.instr.isTex ==> |q| <= MAX_TEXTURES_LEFT)
    && |q| <= MAX_TEXTURES_LEFT + 1
  }

  /** The queue after running `code`; `keep` decides how fast the hardware retires fetches. */
  ghost function RunQueue(code: seq<Out>, q: Queue, keep: nat -> nat, t: nat): Queue
    decreases code
  {
    if code == [] then q else RunQueue(code[1..], Step(code[0], q, keep(t)), keep, t + 1)
  }

  ghost predicate RunOk(code: seq<Out>, q: Queue, keep: nat -> nat, t: nat)
    decreases code
  {
    code == [] || (StepOk(code[0], q) && RunOk(code[1..], Step(code[0], q, keep(t)), keep, t + 1))
  }

  /** What the pass puts in place of one instruction. */
  function Guarded(instr: Instr, bar: Option<nat>): seq<Out> {
    if bar.Some? then [TexDepBar(bar.value), Op(instr)] else [Op(instr)]
  }

  /** The simulated state after a block, and the block with its barriers. */
  function Transfer(instrs: seq<Instr>, sim: Sim): Sim
    requires BlockValid(instrs)
  {
    if instrs == [] then sim else VisitInstr(Transfer(instrs[..|instrs| - 1], sim), instrs[|instrs| - 1]).0
  }

  function WithBarriers(instrs: seq<Instr>, sim: Sim): seq<Out>
    requires BlockValid(instrs)
  {
    if instrs == [] then [] else
      var front, last := instrs[..|instrs| - 1], instrs[|instrs| - 1];
      WithBarriers(front, sim) + Guarded(last, VisitInstr(Transfer(front, sim), last).1)
  }

  /** The simulated state after the barrier of `instr` and before the instruction itself. */
  ghost function AfterBarrier(sim: Sim, instr: Instr): Sim {
    var sim1 := FlushAll(sim, instr.srcs + instr.dsts).0;
    if instr.isTex && sim1.IsQueueFull() then sim1.FlushAfter(MAX_TEXTURES_LEFT) else sim1
  }

  lemma {:induction false} NothingToFlush(sim: Sim, xs: seq<RegRef>)
    requires sim.pos == map[]
    ensures FlushAll(sim, xs) == (sim, None)
    decreases xs
  {
    if xs != [] {
      NothingToFlush(sim, xs[1..]);
    }
  }

  /** At most one of the two reasons for a barrier applies, and the barrier takes the hardware to a
      state that `AfterBarrier` bounds. */
  lemma BarrierSuffices(sim: Sim, q: Queue, instr: Instr)
    requires sim.Valid() && instr.Valid() && Sound(sim, q)
    ensures var bar := VisitInstr(sim, instr).1;
            var pre := AfterBarrier(sim, instr);
            && pre.Valid()
            && Sound(pre, if bar.Some? then Keep(q, bar.value) else q)
            && (forall r: nat :: instr.Touches(r) ==> r !in pre.pos)
            && (instr.isTex ==> !pre.IsQueueFull())
            && VisitInstr(sim, instr).0 == if instr.isTex then Push(pre, instr.dsts[0]).0 else pre
  {
    var xs := instr.srcs + instr.dsts;
    if sim.pos == map[] {
      NothingToFlush(sim, xs);
    }
    var (sim1, flush) := FlushAll(sim, xs);
    FlushAllShrinks(sim, xs);
    SoundFlushAll(sim, xs, q);
    if flush.Some? {
      assert flush.value <= MAX_TEXTURES_LEFT && !sim1.IsQueueFull();
    } else if instr.isTex && sim1.IsQueueFull() {
      SoundFlushAfter(sim1, q, MAX_TEXTURES_LEFT);
    }
  }

  lemma SoundPush(sim: Sim, q: Queue, x: RegRef)
    requires sim.Valid() && x.Valid() && !sim.IsQueueFull() && Sound(sim, q)
    ensures Push(sim, x).0.Valid() && Sound(Push(sim, x).0, [x] + q)
  {
    var sim', q' := Push(sim, x).0, [x] + q;
    forall i, r | 0 <= i < |q'| && q'[i].Has(r)
      ensures r in sim'.pos && sim'.pos[r] <= i
    {
      assert i > 0 ==> q[i - 1].Has(r);
    }
  }

  /** An instruction whose registers are not tracked executes safely. */
  lemma OpIsSafe(pre: Sim, q: Queue, instr: Instr, keep: nat)
    requires pre.Valid() && instr.Valid() && Sound(pre, q)
    requires forall r: nat :: instr.Touches(r) ==> r !in pre.pos
    requires instr.isTex ==> !pre.IsQueueFull()
    ensures StepOk(Op(instr), q)
    ensures var sim' := if instr.isTex then Push(pre, instr.dsts[0]).0 else pre;
            sim'.Valid() && Sound(sim', Step(Op(instr), q, keep))
  {
    if instr.isTex {
      assert instr.dsts[0] in instr.srcs + instr.dsts;
      SoundPush(pre, q, instr.dsts[0]);
      SoundKeep(Push(pre, instr.dsts[0]).0, [instr.dsts[0]] + q, keep);
    } else {
      SoundKeep(pre, q, keep);
    }
  }

  /** A barrier in front of the instruction, if the simulation asks for one, makes it safe, and the
      simulation still bounds the queue afterwards. */
  lemma VisitIsSafe(sim: Sim, q: Queue, instr: Instr, keep: nat -> nat, t: nat)
    requires sim.Valid() && instr.Valid() && Sound(sim, q)
    ensures var (sim', bar) := VisitInstr(sim, instr);
            && sim'.Valid()
            && RunOk(Guarded(instr, bar), q, keep, t)
            && Sound(sim', RunQueue(Guarded(instr, bar), q, keep, t))
  {
    var bar := VisitInstr(sim, instr).1;
    var pre := AfterBarrier(sim, instr);
    BarrierSuffices(sim, q, instr);
    var code := Guarded(instr, bar);
    if bar.Some? {
      var q1 := Step(TexDepBar(bar.value), q, keep(t));
      SoundKeep(pre, Keep(q, bar.value), keep(t));
      OpIsSafe(pre, q1, instr, keep(t + 1));
      assert code[1..] == [Op(instr)] && code[1..][1..] == [];
      assert RunOk([Op(instr)], q1, keep, t + 1);
      assert RunQueue([Op(instr)], q1, keep, t + 1) == Step(Op(instr), q1, keep(t + 1));
      assert RunQueue(code, q, keep, t) == RunQueue([Op(instr)], q1, keep, t + 1);
    } else {
      OpIsSafe(pre, q, instr, keep(t));
      assert code[1..] == [];
    }
  }

  lemma {:induction false} RunConcat(a: seq<Out>, b: seq<Out>, q: Queue, keep: nat -> nat, t: nat)
    ensures RunQueue(a + b, q, keep, t) == RunQueue(b, RunQueue(a, q, keep, t), keep, t + |a|)
    ensures RunOk(a, q, keep, t) && RunOk(b, RunQueue(a, q, keep, t), keep, t + |a|) ==> RunOk(a + b, q, keep, t)
    decreases a
  {
    if a == [] {
      assert a + b == b;
    } else {
      assert (a + b)[0] == a[0] && (a + b)[1..] == a[1..] + b;
      RunConcat(a[1..], b, Step(a[0], q, keep(t)), keep, t + 1);
    }
  }

  /** A whole block with its barriers is safe from any queue its simulated in-state bounds. */
  lemma {:induction false} BlockIsSafe(instrs: seq<Instr>, sim: Sim, q: Queue, keep: nat -> nat, t: nat)
    requires sim.Valid() && Sound(sim, q) && BlockValid(instrs)
    ensures Transfer(instrs, sim).Valid()
    ensures RunOk(WithBarriers(instrs, sim), q, keep, t)
    ensures Sound(Transfer(instrs, sim), RunQueue(WithBarriers(instrs, sim), q, keep, t))
    decreases instrs
  {
    if instrs != [] {
      var front, last := instrs[..|instrs| - 1], instrs[|instrs| - 1];
      BlockIsSafe(front, sim, q, keep, t);
      var code, mid := WithBarriers(front, sim), Transfer(front, sim);
      var q1 := RunQueue(code, q, keep, t);
      VisitIsSafe(mid, q1, last, keep, t + |code|);
      RunConcat(code, Guarded(last, VisitInstr(mid, last).1), q, keep, t);
    }
  }

  // ----- The whole function -----

  datatype Function = Function(blocks: seq<seq<Instr>>, succ: seq<seq<nat>>)
  {
    ghost predicate Valid() {
      && |succ| == |blocks| && WellFormed(succ)
      && forall b {:trigger blocks[b]} :: 0 <= b < |blocks| ==> BlockValid(blocks[b])
    }

    /** A path through the function, starting at the entry block. */
    ghost predicate IsPath(path: seq<nat>) {
      && (path != [] ==> path[0] == 0)
      && (forall i :: 0 <= i < |path| ==> path[i] < |blocks| == |succ|)
      && (forall i :: 0 <= i < |path| - 1 ==> path[i + 1] in succ[path[i]])
    }
  }

  predicate BlockValid(instrs: seq<Instr>) {
    forall i :: 0 <= i < |instrs| ==> instrs[i].Valid()
  }

  /** The code executed along a path. */
  ghost function Flatten(blocks: seq<seq<Out>>, path: seq<nat>): seq<Out>
    requires forall i :: 0 <= i < |path| ==> path[i] < |blocks|
  {
    if path == [] then [] else Flatten(blocks, path[..|path| - 1]) + blocks[path[|path| - 1]]
  }

  function WithoutBarriers(code: seq<Out>): seq<Instr> {
    if code == [] then [] else
      WithoutBarriers(code[..|code| - 1]) + (match code[|code| - 1] case Op(i) => [i] case TexDepBar(_) => [])
  }

  /** `a` allows everything `b` allows. */
  ghost predicate Covers(a: Sim, b: Sim) {
    b.maxLen <= a.maxLen && forall r :: r in b.pos ==> r in a.pos && a.pos[r] <= b.pos[r]
  }

  lemma CoveredIsSound(a: Sim, b: Sim, q: Queue)
    requires Covers(a, b) && Sound(b, q)
    ensures Sound(a, q)
  {
  }

  function BlockTransfer(f: Function, b: nat, simOut: Sim, simIn: Sim): (Sim, bool) {
    if b < |f.blocks| && BlockValid(f.blocks[b]) then
      var sim := Transfer(f.blocks[b], simIn);
      (sim, sim != simOut)
    else (simOut, false)
  }

  function QueueProblem(f: Function): Problem<Sim, Sim> {
    Problem((b: nat, simOut, simIn) => BlockTransfer(f, b, simOut, simIn), (simIn, simOut) => Merge(simIn, simOut))
  }

  /** How much a simulated state can still be weakened. */
  ghost function Slack(sim: Sim, n: nat): nat {
    if n == 0 then MAX_TEXTURES_LEFT + 1 - (if sim.maxLen <= MAX_TEXTURES_LEFT + 1 then sim.maxLen else MAX_TEXTURES_LEFT + 1)
    else Slack(sim, n - 1) + if n - 1 !in sim.pos then MAX_TEXTURES_LEFT + 2
                             else if sim.pos[n - 1] <= MAX_TEXTURES_LEFT + 1 then sim.pos[n - 1] else MAX_TEXTURES_LEFT + 1
  }

  ghost function QueueLaws(): Laws<Sim, Sim> {
    Laws((a: Sim, b: Sim) => Covers(a, b), (sim: Sim) => (Slack(sim, 256), 0),
         (b: nat, sim: Sim) => sim.Valid(), (b: nat, sim: Sim) => sim.Valid())
  }

  lemma {:induction false} SlackShrinks(a: Sim, b: Sim, n: nat)
    requires a.Valid() && b.Valid() && Covers(b, a)
    ensures Slack(b, n) <= Slack(a, n)
    ensures Slack(b, n) == Slack(a, n) ==>
              b.maxLen == a.maxLen && forall r :: r < n ==> (r in a.pos <==> r in b.pos) && (r in a.pos ==> b.pos[r] == a.pos[r])
  {
    if n > 0 {
      SlackShrinks(a, b, n - 1);
    }
  }

  lemma MergeLaw(a: Sim, b: Sim)
    requires a.Valid() && b.Valid()
    ensures var m := Merge(a, b);
            && m.Valid() && Covers(m, a) && Covers(m, b)
            && (m == a || Slack(m, 256) < Slack(a, 256))
  {
    var m := Merge(a, b);
    SlackShrinks(a, m, 256);
    if Slack(m, 256) == Slack(a, 256) {
      assert m.pos.Keys == a.pos.Keys;
      assert m.pos == a.pos;
    }
  }

  lemma QueueLawsHold(f: Function)
    requires f.Valid()
    ensures TransferOk(QueueProblem(f), QueueLaws(), |f.succ|)
    ensures JoinOk(QueueProblem(f), QueueLaws(), f.succ)
  {
    forall b: nat, simIn: Sim | b < |f.blocks| && simIn.Valid()
      ensures Transfer(f.blocks[b], simIn).Valid()
    {
      assert BlockValid(f.blocks[b]);
      BlockIsSafe(f.blocks[b], simIn, [], _ => 0, 0);
    }
    forall a: Sim, b: Sim | a.Valid() && b.Valid()
      ensures Merge(a, b).Valid() && Covers(Merge(a, b), b) && Covers(Merge(a, b), a)
      ensures Merge(a, b) == a || Slack(Merge(a, b), 256) < Slack(a, 256)
    {
      MergeLaw(a, b);
    }
  }

  /** The simulated states at the block boundaries fit together, and `code` was emitted from them. */
  ghost predicate Consistent(f: Function, ins: seq<Sim>, outs: seq<Sim>, code: seq<seq<Out>>) {
    && |f.succ| == |f.blocks| == |ins| == |outs| == |code|
    && (forall b: nat :: b < |ins| ==> ins[b].Valid() && BlockValid(f.blocks[b]))
    && (forall b: nat :: b < |ins| ==> BlockOk(f, ins, outs, code, b))
    && (forall a: nat, b: nat :: a < |ins| && b < |ins| && b in f.succ[a] ==> Covers(ins[b], outs[a]))
  }

  ghost predicate BlockOk(f: Function, ins: seq<Sim>, outs: seq<Sim>, code: seq<seq<Out>>, b: nat)
    requires b < |f.blocks| == |ins| == |outs| == |code| && BlockValid(f.blocks[b])
  {
    outs[b] == Transfer(f.blocks[b], ins[b]) && code[b] == WithBarriers(f.blocks[b], ins[b])
  }

  /** Along any path, every block starts in a state that its simulated in-state bounds. */
  lemma {:induction false} PathIsSafe(f: Function, ins: seq<Sim>, outs: seq<Sim>, code: seq<seq<Out>>,
                                      path: seq<nat>, keep: nat -> nat)
    requires f.IsPath(path) && Consistent(f, ins, outs, code)
    ensures RunOk(Flatten(code, path), [], keep, 0)
    ensures path != [] ==> Sound(outs[path[|path| - 1]], RunQueue(Flatten(code, path), [], keep, 0))
    decreases |path|
  {
    if path != [] {
      var front, b := path[..|path| - 1], path[|path| - 1];
      PathIsSafe(f, ins, outs, code, front, keep);
      var q := RunQueue(Flatten(code, front), [], keep, 0);
      if front != [] {
        var a := |path| - 2;
        assert path[a + 1] in f.succ[path[a]] && front[|front| - 1] == path[a];
        CoveredIsSound(ins[b], outs[path[a]], q);
      }
      PathStep(f, ins, outs, code, Flatten(code, front), b, keep);
    }
  }

  lemma PathStep(f: Function, ins: seq<Sim>, outs: seq<Sim>, code: seq<seq<Out>>, before: seq<Out>, b: nat,
                 keep: nat -> nat)
    requires Consistent(f, ins, outs, code) && b < |code|
    requires RunOk(before, [], keep, 0) && Sound(ins[b], RunQueue(before, [], keep, 0))
    ensures RunOk(before + code[b], [], keep, 0)
    ensures Sound(outs[b], RunQueue(before + code[b], [], keep, 0))
  {
    assert BlockOk(f, ins, outs, code, b);
    BlockIsSafe(f.blocks[b], ins[b], RunQueue(before, [], keep, 0), keep, |before|);
    RunConcat(before, code[b], [], keep, 0);
  }

  ghost predicate Emitted(instrs: seq<Instr>, sim: Sim, code: seq<Out>) {
    BlockValid(instrs) && code == WithBarriers(instrs, sim) && WithoutBarriers(code) == instrs
  }

  lemma EmitStep(instrs: seq<Instr>, instr: Instr, sim0: Sim, code: seq<Out>)
    requires Emitted(instrs, sim0, code) && instr.Valid()
    ensures var (sim, bar) := VisitInstr(Transfer(instrs, sim0), instr);
            BlockValid(instrs + [instr]) && sim == Transfer(instrs + [instr], sim0)
            && Emitted(instrs + [instr], sim0, code + Guarded(instr, bar))
  {
    var longer := instrs + [instr];
    assert longer[..|longer| - 1] == instrs && longer[|longer| - 1] == instr;
    StripGuarded(code, instr, VisitInstr(Transfer(instrs, sim0), instr).1);
  }

  /** Emits one block with its barriers. */
  method EmitBlock(instrs: seq<Instr>, sim0: Sim) returns (code: seq<Out>)
    requires BlockValid(instrs)
    ensures Emitted(instrs, sim0, code)
  {
    var sim := sim0;
    code := [];
    ghost var done := [];
    for ip := 0 to |instrs|
      invariant done == instrs[..ip]
      invariant Emitted(done, sim0, code) && sim == Transfer(done, sim0)
    {
      EmitStep(done, instrs[ip], sim0, code);
      done := done + [instrs[ip]];
      var (sim', bar) := VisitInstr(sim, instrs[ip]);
      code, sim := code + Guarded(instrs[ip], bar), sim';
    }
    assert done == instrs;
  }

  lemma StripGuarded(code: seq<Out>, instr: Instr, bar: Option<nat>)
    ensures WithoutBarriers(code + Guarded(instr, bar)) == WithoutBarriers(code) + [instr]
  {
    if bar.Some? {
      var mid := code + [TexDepBar(bar.value)];
      assert mid[..|code|] == code;
      assert code + Guarded(instr, bar) == mid + [Op(instr)];
      assert (mid + [Op(instr)])[..|mid|] == mid;
      assert WithoutBarriers(mid) == WithoutBarriers(code);
    } else {
      assert (code + [Op(instr)])[..|code|] == code;
    }
  }

  method EmitBlocks(f: Function, ins: seq<Sim>) returns (code: seq<seq<Out>>)
    requires f.Valid() && |ins| == |f.blocks|
    ensures |code| == |f.blocks|
    ensures forall b :: 0 <= b < |code| ==> Emitted(f.blocks[b], ins[b], code[b])
  {
    code := [];
    for b := 0 to |f.blocks|
      invariant |code| == b
      invariant forall c :: 0 <= c < b ==> Emitted(f.blocks[c], ins[c], code[c])
    {
      var block := EmitBlock(f.blocks[b], ins[b]);
      code := code + [block];
    }
  }

  lemma SolvedIsConsistent(f: Function, ins: seq<Sim>, outs: seq<Sim>, code: seq<seq<Out>>)
    requires f.Valid() && |code| == |f.blocks|
    requires AllGood(QueueLaws(), outs, ins) && Solved(QueueProblem(f), QueueLaws(), f.succ, outs, ins)
    requires forall b :: 0 <= b < |code| ==> Emitted(f.blocks[b], ins[b], code[b])
    ensures Consistent(f, ins, outs, code)
  {
    forall b: nat | b < |ins|
      ensures ins[b].Valid() && BlockValid(f.blocks[b]) && BlockOk(f, ins, outs, code, b)
    {
      assert Emitted(f.blocks[b], ins[b], code[b]);
      assert QueueLaws().goodOut(b, ins[b]);
      assert Stable(QueueProblem(f), outs, ins, b);
    }
    forall a: nat, b: nat | a < |ins| && b < |ins| && b in f.succ[a]
      ensures Covers(ins[b], outs[a])
    {
      assert Covered(QueueLaws(), outs, ins, a, b);
    }
  }

  /** Inserts texture barriers.  The instructions stay; and on every path from the entry, however
      fast the hardware retires fetches, no instruction touches a register that is still in flight
      and the queue never overflows.  Barriers stand only where the simulation asks for one, and every
      block is simulated from a state that bounds those its predecessors end in. */
  method InsertTextureBarriers(f: Function) returns (code: seq<seq<Out>>)
    requires f.Valid()
    ensures |code| == |f.blocks|
    ensures forall b :: 0 <= b < |code| ==> WithoutBarriers(code[b]) == f.blocks[b]
    ensures forall path, keep: nat -> nat :: f.IsPath(path) ==> RunOk(Flatten(code, path), [], keep, 0)
    ensures exists ins, outs :: Consistent(f, ins, outs, code)
  {
    var n := |f.blocks|;
    var stateIn := new Sim[n](_ => NEW_SIM);
    var stateOut := new Sim[n](_ => NEW_SIM);
    QueueLawsHold(f);
    SolveForward(f.succ, QueueProblem(f), stateOut, stateIn, QueueLaws());
    var ins := stateIn[..];
    code := EmitBlocks(f, ins);
    SolvedIsConsistent(f, ins, stateOut[..], code);
    assert forall b :: 0 <= b < |code| ==> Emitted(f.blocks[b], ins[b], code[b]);
    forall path, keep: nat -> nat | f.IsPath(path)
      ensures RunOk(Flatten(code, path), [], keep, 0)
    {
      PathIsSafe(f, ins, stateOut[..], code, path, keep);
    }
  }
}
