/** How long an instruction has to delay the next one (crates/deko-nak/src/calc_instr_deps.rs).

    Cycles are counted backwards from the end of a block.  A block is scheduled from its last instruction
    to its first, with what the successors still have to do known from a backward dataflow problem. */
module Delays {
  import opened Machine
  import Dataflow

  // ----- Programs -----

  /** Where an instruction meets a register: as one of its destinations, as one of its sources, or as a
      guard.  For a memory barrier on Kepler A all predicate and carry registers are guards. */
  datatype Access = Dst(i: nat) | Src(i: nat) | Guard

  datatype Instr = Instr(op: nat, predicated: bool, guards: seq<Reg>, srcs: seq<seq<Reg>>, dsts: seq<seq<Reg>>,
                         rdBar: Option<nat>, wrBar: Option<nat>, waits: set<nat>, isSrcBar: bool)
  {
    function GuardAccesses(): set<(Reg, Access)> {
      set r | r in guards :: (r, Guard)
    }

    function SrcAccesses(): set<(Reg, Access)> {
      set i, r | 0 <= i < |srcs| && r in srcs[i] :: (r, Src(i))
    }

    function DstAccesses(): set<(Reg, Access)> {
      set i, r | 0 <= i < |dsts| && r in dsts[i] :: (r, Dst(i))
    }

    function Accesses(): set<(Reg, Access)> {
      GuardAccesses() + SrcAccesses() + DstAccesses()
    }

    predicate Writes(r: Reg) {
      exists i :: 0 <= i < |dsts| && r in dsts[i]
    }
  }

  type Block = seq<Instr>

  /** The latencies of a shader model: after writing until a write, a read or a guard, and after reading
      until a write. */
  datatype Sm = Sm(exec: nat -> nat, waw: (nat, nat, bool, nat, nat) -> nat, raw: (nat, nat, nat, nat) -> nat,
                   paw: (nat, nat) -> nat, war: (nat, nat, nat, nat) -> nat, bound: nat, maxDelay: nat)
  {
    ghost predicate Valid() {
      && bound <= U8_MAX && 0 < maxDelay <= U8_MAX
      && (forall o1, d1, p, o2, d2 :: waw(o1, d1, p, o2, d2) <= bound)
      && (forall o1, d1, o2, s2 :: raw(o1, d1, o2, s2) <= bound)
      && (forall o1, d1 :: paw(o1, d1) <= bound)
      && (forall o1, s1, o2, d2 :: war(o1, s1, o2, d2) <= bound)
    }
  }

  const U8_MAX: nat := 255
  const MIN_INSTR_DELAY: nat := 1
  const NUM_BARS: nat := 6

  predicate Conflict(first: Access, second: Access) {
    first.Dst? || (first.Src? && second.Dst?)
  }

  /** How long `one` has to start before an instruction with operation `op` that meets the same register. */
  function Latency(sm: Sm, one: Instr, first: Access, op: nat, second: Access): nat
    requires Conflict(first, second)
  {
    match (first, second)
    case (Dst(i), Dst(j)) => sm.waw(one.op, i, one.predicated, op, j)
    case (Dst(i), Src(j)) => sm.raw(one.op, i, op, j)
    case (Dst(i), Guard) => sm.paw(one.op, i)
    case (Src(i), Dst(j)) => sm.war(one.op, i, op, j)
  }

  // ----- What is still to come -----

  /** An access, and the instruction it belongs to. */
  datatype Key = Key(reg: Reg, block: nat, ip: nat, access: Access)

  /** For the accesses that come next, how long after the end of the block their instruction starts. */
  type Uses = map<Key, nat>

  function OpAt(f: seq<Block>, k: Key): nat {
    if k.block < |f| && k.ip < |f[k.block]| then f[k.block][k.ip].op else 0
  }

  function OwnKeys(accesses: set<(Reg, Access)>, b: nat, ip: nat): set<Key> {
    set x | x in accesses :: Key(x.0, b, ip, x.1)
  }

  /** The uses before an instruction that makes `own` accesses: a write hides what comes after it. */
  function Before(uses: Uses, instr: Instr, own: set<Key>): Uses {
    map k | k in (set k | k in uses && !instr.Writes(k.reg)) + own :: if k in own then 0 else uses[k]
  }

  // ----- Scheduling a block -----

  /** The schedule of the last instructions of a block: when they start, counted from the end of the
      block, what comes next, and when each barrier is next waited on. */
  datatype Sched = Sched(cycles: seq<nat>, uses: Uses, bars: seq<nat>)

  function Current(cycles: seq<nat>): nat {
    if cycles == [] then 0 else cycles[0]
  }

  function Monus(a: nat, b: nat): nat {
    if a < b then 0 else a - b
  }

  /** The start that the access `k` asks for from the instruction at `b`, `ip`, when the instructions after
      that one start at `cycles`. */
  function DependencyToCycle(cycles: seq<nat>, b: nat, ip: nat, k: Key, delay: nat, latency: nat): nat {
    if k.block == b && ip < k.ip <= ip + |cycles| then cycles[k.ip - ip - 1] + latency else Monus(latency, delay)
  }

  /** The starts that one kind of accesses asks for. */
  function Starts(f: seq<Block>, sm: Sm, b: nat, ip: nat, instr: Instr, accesses: set<(Reg, Access)>, cycles: seq<nat>, uses: Uses): set<nat> {
    set x, k | x in accesses && k in uses && k.reg == x.0 && Conflict(x.1, k.access) ::
      DependencyToCycle(cycles, b, ip, k, uses[k], Latency(sm, instr, x.1, OpAt(f, k), k.access))
  }

  function BarStart(bars: seq<nat>, bar: Option<nat>): nat {
    if bar.Some? && bar.value < |bars| then bars[bar.value] + 2 else 0
  }

  function AllStarts(f: seq<Block>, sm: Sm, b: nat, ip: nat, instr: Instr, s: Sched): set<nat> {
    {Current(s.cycles) + sm.exec(instr.op), BarStart(s.bars, instr.rdBar), BarStart(s.bars, instr.wrBar)}
    + Starts(f, sm, b, ip, instr, instr.DstAccesses(), s.cycles, s.uses)
    + Starts(f, sm, b, ip, instr, instr.SrcAccesses(), s.cycles, Before(s.uses, instr, OwnKeys(instr.DstAccesses(), b, ip)))
  }

  function Max(s: set<nat>): (m: nat)
    ensures forall x :: x in s ==> x <= m
    ensures s != {} ==> m in s
  {
    if s == {} then 0 else
      HasMax(s);
      var m :| m in s && IsMax(s, m);
      m
  }

  predicate IsMax(s: set<nat>, m: nat) {
    m in s && forall x :: x in s ==> x <= m
  }

  lemma {:induction false} HasMax(s: set<nat>)
    requires s != {}
    ensures exists m :: IsMax(s, m)
  {
    var a :| a in s;
    var rest := s - {a};
    assert forall x :: x in s <==> x == a || x in rest;
    if rest == {} {
      assert IsMax(s, a);
    } else {
      HasMax(rest);
      var m :| IsMax(rest, m);
      assert IsMax(s, if a < m then m else a);
    }
  }

  function Step(f: seq<Block>, sm: Sm, b: nat, ip: nat, s: Sched): Sched
    requires b < |f| && ip < |f[b]|
  {
    var instr := f[b][ip];
    var start := Max(AllStarts(f, sm, b, ip, instr, s));
    Sched([start] + s.cycles, Before(s.uses, instr, OwnKeys(instr.Accesses(), b, ip)),
          seq(|s.bars|, i requires 0 <= i < |s.bars| => if i in instr.waits then start else s.bars[i]))
  }

  /** The schedule of block `b` from `ip` on, given what comes after the block. */
  function Run(f: seq<Block>, sm: Sm, b: nat, ip: nat, out: Uses): (s: Sched)
    requires b < |f| && ip <= |f[b]|
    ensures |s.cycles| == |f[b]| - ip
    decreases |f[b]| - ip
  {
    if ip == |f[b]| then Sched([], out, seq(NUM_BARS, i => 0)) else Step(f, sm, b, ip, Run(f, sm, b, ip + 1, out))
  }

  /** The time a block adds to the delay of an access behind it, as a byte. */
  function Executed(b: nat, cycles: seq<nat>, k: Key): nat {
    var overcount := if k.block == b && k.ip < |cycles| then cycles[k.ip] else 0;
    Min(Monus(Current(cycles), overcount), U8_MAX)
  }

  function Min(a: nat, b: nat): nat {
    if a < b then a else b
  }

  /** The uses seen from the start of the block; those too far in the future are dropped. */
  function Aged(uses: Uses, b: nat, cycles: seq<nat>, bound: nat): Uses {
    map k | k in uses && uses[k] + Executed(b, cycles, k) <= U8_MAX && uses[k] + Executed(b, cycles, k) <= bound ::
      uses[k] + Executed(b, cycles, k)
  }

  // ----- Scheduling in place -----

  /** The starts that one access asks for. */
  function StartsOf(f: seq<Block>, sm: Sm, b: nat, ip: nat, instr: Instr, x: (Reg, Access), keys: set<Key>, cycles: seq<nat>, uses: Uses): set<nat>
    requires keys <= uses.Keys
  {
    set k | k in keys && k.reg == x.0 && Conflict(x.1, k.access) ::
      DependencyToCycle(cycles, b, ip, k, uses[k], Latency(sm, instr, x.1, OpAt(f, k), k.access))
  }

  /** No register is written twice by one instruction. */
  ghost predicate DstsDistinct(instr: Instr) {
    && (forall x, y :: x in instr.DstAccesses() && y in instr.DstAccesses() && x.0 == y.0 ==> x == y)
    && (forall i, j, k :: 0 <= i < |instr.dsts| && 0 <= j < k < |instr.dsts[i]| ==> instr.dsts[i][j] != instr.dsts[i][k])
  }

  predicate Written(done: set<(Reg, Access)>, r: Reg) {
    exists x :: x in done && x.0 == r
  }

  /** The uses once the writes in `done` have been entered. */
  function WritesEntered(uses: Uses, done: set<(Reg, Access)>, b: nat, ip: nat): Uses {
    map k | k in (set k | k in uses && !Written(done, k.reg)) + OwnKeys(done, b, ip) :: if k in OwnKeys(done, b, ip) then 0 else uses[k]
  }

  function ReadsEntered(uses: Uses, done: set<(Reg, Access)>, b: nat, ip: nat): Uses {
    map k | k in uses.Keys + OwnKeys(done, b, ip) :: if k in OwnKeys(done, b, ip) then 0 else uses[k]
  }

  class BlockDelayScheduler {
    var cycles: seq<nat>
    var uses: Uses
    var bars: seq<nat>

    constructor (out: Uses)
      ensures Schedule() == Sched([], out, seq(NUM_BARS, i => 0))
    {
      cycles, uses, bars := [], out, [0, 0, 0, 0, 0, 0];
    }

    function Schedule(): Sched
      reads this
    {
      Sched(cycles, uses, bars)
    }

    /** Raises the start as far as one access requires. */
    method Raise(f: seq<Block>, sm: Sm, b: nat, ip: nat, instr: Instr, x: (Reg, Access), start0: nat) returns (start: nat)
      ensures start == Max({start0} + StartsOf(f, sm, b, ip, instr, x, uses.Keys, cycles, uses))
    {
      start := start0;
      var rest := uses.Keys;
      while rest != {}
        invariant rest <= uses.Keys
        invariant IsMax({start0} + StartsOf(f, sm, b, ip, instr, x, uses.Keys - rest, cycles, uses), start)
        decreases rest
      {
        var k :| k in rest;
        ghost var before := StartsOf(f, sm, b, ip, instr, x, uses.Keys - rest, cycles, uses);
        rest := rest - {k};
        ghost var after := StartsOf(f, sm, b, ip, instr, x, uses.Keys - rest, cycles, uses);
        if k.reg == x.0 && Conflict(x.1, k.access) {
          var s := DependencyToCycle(cycles, b, ip, k, uses[k], Latency(sm, instr, x.1, OpAt(f, k), k.access));
          assert after == before + {s};
          start := if start < s then s else start;
        } else {
          assert after == before;
        }
      }
      MaxUnique({start0} + StartsOf(f, sm, b, ip, instr, x, uses.Keys, cycles, uses), start);
    }

    /** The destinations: later accesses are waited for and hidden. */
    method VisitDsts(f: seq<Block>, sm: Sm, b: nat, ip: nat, instr: Instr, start0: nat) returns (start: nat)
      requires DstsDistinct(instr)
      modifies this`uses
      ensures start == Max({start0} + Starts(f, sm, b, ip, instr, instr.DstAccesses(), cycles, old(uses)))
      ensures uses == WritesEntered(old(uses), instr.DstAccesses(), b, ip)
    {
      hide StartsOf, Starts, WritesEntered, Max;
      start := start0;
      ghost var done := {};
      NothingEntered(f, sm, b, ip, instr, cycles, uses, start0);
      for i := 0 to |instr.dsts|
        invariant forall x :: x in done <==> x in instr.DstAccesses() && x.1.i < i
        invariant start == Max({start0} + Starts(f, sm, b, ip, instr, done, cycles, old(uses))) && uses == WritesEntered(old(uses), done, b, ip)
      {
        for j := 0 to |instr.dsts[i]|
          invariant forall x :: x in done <==> x in instr.DstAccesses() && (x.1.i < i || (x.1.i == i && x.0 in instr.dsts[i][..j]))
          invariant start == Max({start0} + Starts(f, sm, b, ip, instr, done, cycles, old(uses))) && uses == WritesEntered(old(uses), done, b, ip)
        {
          var r := instr.dsts[i][j];
          var x := (r, Dst(i));
          assert instr.dsts[i][..j + 1] == instr.dsts[i][..j] + [r] && x in instr.DstAccesses();
          EnterWrite(f, sm, b, ip, instr, cycles, old(uses), done, x, start0, start);
          start := Raise(f, sm, b, ip, instr, x, start);
          uses := (map k | k in uses && k.reg != r :: uses[k])[Key(r, b, ip, Dst(i)) := 0];
          done := done + {x};
        }
      }
      assert done == instr.DstAccesses();
    }

    /** The guards, for which nothing has to be waited. */
    method VisitGuards(b: nat, ip: nat, instr: Instr)
      modifies this`uses
      ensures uses == ReadsEntered(old(uses), instr.GuardAccesses(), b, ip)
    {
      hide ReadsEntered;
      ghost var done := {};
      NoReadsEntered(uses, b, ip);
      for j := 0 to |instr.guards|
        invariant forall x: (Reg, Access) :: x in done <==> x.1 == Guard && x.0 in instr.guards[..j]
        invariant uses == ReadsEntered(old(uses), done, b, ip)
      {
        var x := (instr.guards[j], Guard);
        assert instr.guards[..j + 1] == instr.guards[..j] + [x.0];
        EnterRead(old(uses), done, x, b, ip);
        uses := uses[Key(x.0, b, ip, Guard) := 0];
        done := done + {x};
      }
      assert done == instr.GuardAccesses();
    }

    /** The sources: later writes are waited for. */
    method VisitSrcs(f: seq<Block>, sm: Sm, b: nat, ip: nat, instr: Instr, start0: nat) returns (start: nat)
      modifies this`uses
      ensures start == Max({start0} + Starts(f, sm, b, ip, instr, instr.SrcAccesses(), cycles, old(uses)))
      ensures uses == ReadsEntered(old(uses), instr.SrcAccesses(), b, ip)
    {
      hide StartsOf, Starts, ReadsEntered, Max;
      start := start0;
      ghost var done := {};
      NothingEntered(f, sm, b, ip, instr, cycles, uses, start0);
      NoReadsEntered(uses, b, ip);
      for i := 0 to |instr.srcs|
        invariant forall x :: x in done <==> x in instr.SrcAccesses() && x.1.i < i
        invariant start == Max({start0} + Starts(f, sm, b, ip, instr, done, cycles, old(uses))) && uses == ReadsEntered(old(uses), done, b, ip)
      {
        for j := 0 to |instr.srcs[i]|
          invariant forall x :: x in done <==> x in instr.SrcAccesses() && (x.1.i < i || (x.1.i == i && x.0 in instr.srcs[i][..j]))
          invariant start == Max({start0} + Starts(f, sm, b, ip, instr, done, cycles, old(uses))) && uses == ReadsEntered(old(uses), done, b, ip)
        {
          var x := (instr.srcs[i][j], Src(i));
          assert instr.srcs[i][..j + 1] == instr.srcs[i][..j] + [x.0] && x in instr.SrcAccesses();
          ReadStarts(f, sm, b, ip, instr, cycles, old(uses), done, x, start0, start);
          EnterRead(old(uses), done, x, b, ip);
          start := Raise(f, sm, b, ip, instr, x, start);
          uses := uses[Key(x.0, b, ip, Src(i)) := 0];
          done := done + {x};
        }
      }
      assert done == instr.SrcAccesses();
    }

    /** Schedules one more instruction in front of the ones scheduled so far. */
    method ProcessInstr(f: seq<Block>, sm: Sm, b: nat, ip: nat)
      requires b < |f| && ip < |f[b]| && DstsDistinct(f[b][ip])
      modifies this
      ensures Schedule() == Step(f, sm, b, ip, old(Schedule()))
    {
      hide Starts, WritesEntered, ReadsEntered, Max, Before, Instr.Accesses, Instr.DstAccesses, Instr.SrcAccesses, Instr.GuardAccesses;
      var instr := f[b][ip];
      var start0 := MaxOf(MaxOf(Current(cycles) + sm.exec(instr.op), BarStart(bars, instr.rdBar)), BarStart(bars, instr.wrBar));
      var start1 := VisitDsts(f, sm, b, ip, instr, start0);
      VisitGuards(b, ip, instr);
      var start := VisitSrcs(f, sm, b, ip, instr, start1);
      StartsTogether(f, sm, b, ip, instr, old(Schedule()), start0, start1);
      EntriesTogether(old(uses), instr, b, ip);
      cycles := [start] + cycles;
      var bars0 := bars;
      bars := seq(|bars0|, i requires 0 <= i < |bars0| => if i in instr.waits then start else bars0[i]);
    }
  }

  /** One block: the instructions from the last to the first, then the time the block adds. */
  method ScheduleBlock(f: seq<Block>, sm: Sm, b: nat, state: BlockIn, out: Uses) returns (state': BlockIn, changed: bool)
    requires b < |f| && forall ip :: 0 <= ip < |f[b]| ==> DstsDistinct(f[b][ip])
    ensures (state', changed) == Transfer(f, sm, b, state, out)
  {
    hide Step, DstsDistinct;
    var sched := new BlockDelayScheduler(out);
    for ip := |f[b]| downto 0
      invariant fresh(sched) && sched.Schedule() == Run(f, sm, b, ip, out)
    {
      sched.ProcessInstr(f, sm, b, ip);
    }
    var uses := Aged(sched.uses, b, sched.cycles, sm.bound);
    state', changed := BlockIn(sched.cycles, uses), uses != state.uses;
  }

  function MaxOf(a: nat, b: nat): nat {
    if a < b then b else a
  }

  lemma NoReadsEntered(uses: Uses, b: nat, ip: nat)
    ensures ReadsEntered(uses, {}, b, ip) == uses
  {
  }

  lemma EnterRead(uses: Uses, done: set<(Reg, Access)>, x: (Reg, Access), b: nat, ip: nat)
    ensures ReadsEntered(uses, done + {x}, b, ip) == ReadsEntered(uses, done, b, ip)[Key(x.0, b, ip, x.1) := 0]
  {
    assert OwnKeys(done + {x}, b, ip) == OwnKeys(done, b, ip) + {Key(x.0, b, ip, x.1)};
  }

  /** What has been read makes no difference to what a source asks for. */
  lemma ReadStarts(f: seq<Block>, sm: Sm, b: nat, ip: nat, instr: Instr, cycles: seq<nat>, uses: Uses, done: set<(Reg, Access)>, x: (Reg, Access),
                   start0: nat, before: nat)
    requires x.1.Src? && forall y :: y in done ==> !y.1.Dst?
    requires before == Max({start0} + Starts(f, sm, b, ip, instr, done, cycles, uses))
    ensures var now := ReadsEntered(uses, done, b, ip);
            Max({before} + StartsOf(f, sm, b, ip, instr, x, now.Keys, cycles, now)) == Max({start0} + Starts(f, sm, b, ip, instr, done + {x}, cycles, uses))
  {
    hide StartsOf, Starts, Max;
    StartsSame(f, sm, b, ip, instr, cycles, uses, ReadsEntered(uses, done, b, ip), x);
    StartsGrow(f, sm, b, ip, instr, cycles, uses, done, x);
    var a := {start0} + Starts(f, sm, b, ip, instr, done, cycles, uses);
    assert start0 in a;
    MaxMerge(a, StartsOf(f, sm, b, ip, instr, x, uses.Keys, cycles, uses), before);
    assert {start0} + (Starts(f, sm, b, ip, instr, done, cycles, uses) + StartsOf(f, sm, b, ip, instr, x, uses.Keys, cycles, uses))
        == a + StartsOf(f, sm, b, ip, instr, x, uses.Keys, cycles, uses);
  }

  lemma StartsTogether(f: seq<Block>, sm: Sm, b: nat, ip: nat, instr: Instr, s: Sched, start0: nat, start1: nat)
    requires start0 == MaxOf(MaxOf(Current(s.cycles) + sm.exec(instr.op), BarStart(s.bars, instr.rdBar)), BarStart(s.bars, instr.wrBar))
    requires start1 == Max({start0} + Starts(f, sm, b, ip, instr, instr.DstAccesses(), s.cycles, s.uses))
    ensures var mid := ReadsEntered(WritesEntered(s.uses, instr.DstAccesses(), b, ip), instr.GuardAccesses(), b, ip);
            Max({start1} + Starts(f, sm, b, ip, instr, instr.SrcAccesses(), s.cycles, mid)) == Max(AllStarts(f, sm, b, ip, instr, s))
  {
    hide Starts, Before, WritesEntered, ReadsEntered, Max, Current, BarStart, Instr.DstAccesses, Instr.SrcAccesses, Instr.GuardAccesses;
    var a := {Current(s.cycles) + sm.exec(instr.op), BarStart(s.bars, instr.rdBar), BarStart(s.bars, instr.wrBar)};
    var dsts := Starts(f, sm, b, ip, instr, instr.DstAccesses(), s.cycles, s.uses);
    var mid := ReadsEntered(WritesEntered(s.uses, instr.DstAccesses(), b, ip), instr.GuardAccesses(), b, ip);
    var srcs := Starts(f, sm, b, ip, instr, instr.SrcAccesses(), s.cycles, mid);
    assert IsMax(a, start0);
    MaxUnique(a, start0);
    MaxMerge(a, dsts, start0);
    assert start0 in a + dsts;
    MaxMerge(a + dsts, srcs, start1);
    MidSame(f, sm, b, ip, instr, s.cycles, s.uses);
  }

  lemma WrittenByDsts(instr: Instr, r: Reg)
    ensures Written(instr.DstAccesses(), r) <==> instr.Writes(r)
  {
    if instr.Writes(r) {
      var i :| 0 <= i < |instr.dsts| && r in instr.dsts[i];
      assert (r, Dst(i)) in instr.DstAccesses();
    }
  }

  lemma MidSame(f: seq<Block>, sm: Sm, b: nat, ip: nat, instr: Instr, cycles: seq<nat>, uses: Uses)
    ensures var mid := ReadsEntered(WritesEntered(uses, instr.DstAccesses(), b, ip), instr.GuardAccesses(), b, ip);
            Starts(f, sm, b, ip, instr, instr.SrcAccesses(), cycles, mid) ==
            Starts(f, sm, b, ip, instr, instr.SrcAccesses(), cycles, Before(uses, instr, OwnKeys(instr.DstAccesses(), b, ip)))
  {
    hide Instr.DstAccesses, DependencyToCycle, Latency, OpAt;
    forall r
      ensures Written(instr.DstAccesses(), r) <==> instr.Writes(r)
    {
      WrittenByDsts(instr, r);
    }
    assert Before(uses, instr, OwnKeys(instr.DstAccesses(), b, ip)) == WritesEntered(uses, instr.DstAccesses(), b, ip);
  }

  lemma EntriesTogether(uses: Uses, instr: Instr, b: nat, ip: nat)
    ensures ReadsEntered(ReadsEntered(WritesEntered(uses, instr.DstAccesses(), b, ip), instr.GuardAccesses(), b, ip), instr.SrcAccesses(), b, ip) ==
            Before(uses, instr, OwnKeys(instr.Accesses(), b, ip))
  {
    hide Instr.DstAccesses, Instr.SrcAccesses, Instr.GuardAccesses;
    forall r
      ensures Written(instr.DstAccesses(), r) <==> instr.Writes(r)
    {
      WrittenByDsts(instr, r);
    }
    assert OwnKeys(instr.Accesses(), b, ip)
        == OwnKeys(instr.DstAccesses(), b, ip) + OwnKeys(instr.GuardAccesses(), b, ip) + OwnKeys(instr.SrcAccesses(), b, ip);
  }

  lemma NothingEntered(f: seq<Block>, sm: Sm, b: nat, ip: nat, instr: Instr, cycles: seq<nat>, uses: Uses, start: nat)
    ensures WritesEntered(uses, {}, b, ip) == uses && start == Max({start} + Starts(f, sm, b, ip, instr, {}, cycles, uses))
  {
    assert Starts(f, sm, b, ip, instr, {}, cycles, uses) == {};
  }

  lemma MaxMerge(a: set<nat>, b: set<nat>, m: nat)
    requires a != {} && m == Max(a)
    ensures Max({m} + b) == Max(a + b)
  {
    var n := Max({m} + b);
    assert IsMax({m} + b, n);
    assert IsMax(a, m);
    assert IsMax(a + b, n);
  }

  lemma StartsGrow(f: seq<Block>, sm: Sm, b: nat, ip: nat, instr: Instr, cycles: seq<nat>, uses: Uses, done: set<(Reg, Access)>, x: (Reg, Access))
    ensures Starts(f, sm, b, ip, instr, done + {x}, cycles, uses)
         == Starts(f, sm, b, ip, instr, done, cycles, uses) + StartsOf(f, sm, b, ip, instr, x, uses.Keys, cycles, uses)
  {
    hide DependencyToCycle, Latency, OpAt;
  }

  /** Entries of other registers make no difference to what an access asks for. */
  lemma StartsSame(f: seq<Block>, sm: Sm, b: nat, ip: nat, instr: Instr, cycles: seq<nat>, uses: Uses, now: Uses, x: (Reg, Access))
    requires forall k: Key :: k.reg == x.0 && Conflict(x.1, k.access) ==> (k in now <==> k in uses) && (k in now ==> now[k] == uses[k])
    ensures StartsOf(f, sm, b, ip, instr, x, now.Keys, cycles, now) == StartsOf(f, sm, b, ip, instr, x, uses.Keys, cycles, uses)
  {
    hide DependencyToCycle, Latency, OpAt;
  }

  lemma EnterWrite(f: seq<Block>, sm: Sm, b: nat, ip: nat, instr: Instr, cycles: seq<nat>, uses: Uses, done: set<(Reg, Access)>, x: (Reg, Access),
                   start0: nat, before: nat)
    requires DstsDistinct(instr) && done <= instr.DstAccesses() && x in instr.DstAccesses() && x !in done
    requires before == Max({start0} + Starts(f, sm, b, ip, instr, done, cycles, uses))
    ensures var now := WritesEntered(uses, done, b, ip);
            && Max({before} + StartsOf(f, sm, b, ip, instr, x, now.Keys, cycles, now))
               == Max({start0} + Starts(f, sm, b, ip, instr, done + {x}, cycles, uses))
            && WritesEntered(uses, done + {x}, b, ip) == (map k | k in now && k.reg != x.0 :: now[k])[Key(x.0, b, ip, x.1) := 0]
  {
    hide StartsOf, Starts, Max, Conflict;
    var now := WritesEntered(uses, done, b, ip);
    NotYetWritten(instr, done, x);
    EnterOne(uses, done, x, b, ip);
    StartsSame(f, sm, b, ip, instr, cycles, uses, now, x);
    StartsGrow(f, sm, b, ip, instr, cycles, uses, done, x);
    var a := {start0} + Starts(f, sm, b, ip, instr, done, cycles, uses);
    assert start0 in a;
    MaxMerge(a, StartsOf(f, sm, b, ip, instr, x, uses.Keys, cycles, uses), before);
    assert {start0} + (Starts(f, sm, b, ip, instr, done, cycles, uses) + StartsOf(f, sm, b, ip, instr, x, uses.Keys, cycles, uses))
        == a + StartsOf(f, sm, b, ip, instr, x, uses.Keys, cycles, uses);
  }

  lemma NotYetWritten(instr: Instr, done: set<(Reg, Access)>, x: (Reg, Access))
    requires DstsDistinct(instr) && done <= instr.DstAccesses() && x in instr.DstAccesses() && x !in done
    ensures !Written(done, x.0)
  {
    hide Instr.DstAccesses;
  }

  lemma EnterOne(uses: Uses, done: set<(Reg, Access)>, x: (Reg, Access), b: nat, ip: nat)
    requires !Written(done, x.0)
    ensures var now := WritesEntered(uses, done, b, ip);
            && WritesEntered(uses, done + {x}, b, ip) == (map k | k in now && k.reg != x.0 :: now[k])[Key(x.0, b, ip, x.1) := 0]
            && forall k: Key :: k.reg == x.0 ==> (k in now <==> k in uses) && (k in now ==> now[k] == uses[k])
  {
    hide Written;
    assert OwnKeys(done + {x}, b, ip) == OwnKeys(done, b, ip) + {Key(x.0, b, ip, x.1)};
    WrittenToo(done, x);
    forall k | k in OwnKeys(done, b, ip)
      ensures k.reg != x.0
    {
      var y :| y in done && k == Key(y.0, b, ip, y.1);
      InDone(done, y);
    }
  }

  lemma InDone(done: set<(Reg, Access)>, y: (Reg, Access))
    requires y in done
    ensures Written(done, y.0)
  {
  }

  lemma WrittenToo(done: set<(Reg, Access)>, x: (Reg, Access))
    ensures forall r :: Written(done + {x}, r) <==> Written(done, r) || r == x.0
  {
    forall r | Written(done, r)
      ensures Written(done + {x}, r)
    {
      var y :| y in done && y.0 == r;
      InDone(done + {x}, y);
    }
    InDone(done + {x}, x);
  }

  lemma MaxUnique(s: set<nat>, m: nat)
    requires IsMax(s, m)
    ensures Max(s) == m
  {
  }

  // ----- The dataflow problem -----

  /** At the start of a block: its cycles, and what comes next. */
  datatype BlockIn = BlockIn(cycles: seq<nat>, uses: Uses)

  function Transfer(f: seq<Block>, sm: Sm, b: nat, state: BlockIn, out: Uses): (BlockIn, bool) {
    if b < |f| then
      var s := Run(f, sm, b, 0, out);
      var uses := Aged(s.uses, b, s.cycles, sm.bound);
      (BlockIn(s.cycles, uses), uses != state.uses)
    else
      (state, false)
  }

  function Join(out: Uses, state: BlockIn): Uses {
    map k | k in out.Keys + state.uses.Keys ::
      if k !in state.uses then out[k] else if k !in out then state.uses[k] else Min(out[k], state.uses[k])
  }

  function DelayProblem(f: seq<Block>, sm: Sm): Dataflow.Problem<BlockIn, Uses> {
    Dataflow.Problem((b, state, out) => Transfer(f, sm, b, state, out), (out, state) => Join(out, state))
  }

  // ----- The solver applies -----

  ghost predicate Covers(out: Uses, state: BlockIn) {
    forall k :: k in state.uses ==> k in out && out[k] <= state.uses[k]
  }

  ghost function Universe(f: seq<Block>): set<Key> {
    set b: nat, ip: nat, x | b < |f| && ip < |f[b]| && x in f[b][ip].Accesses() :: Key(x.0, b, ip, x.1)
  }

  ghost predicate Good(f: seq<Block>, uses: Uses) {
    uses.Keys <= Universe(f) && forall k :: k in uses ==> uses[k] <= U8_MAX
  }

  /** How an out-state can still change: new accesses, smaller delays. */
  ghost function Changes(f: seq<Block>, out: Uses): set<(Key, nat)> {
    set k, v: nat | k in Universe(f) && v <= U8_MAX && (k !in out || v < out[k]) :: (k, v)
  }

  /** No block comes after `b`. */
  ghost predicate IsLast(pred: seq<seq<nat>>, b: nat) {
    forall c :: 0 <= c < |pred| ==> b !in pred[c]
  }

  /** Nothing comes after the last block. */
  ghost predicate GoodAfter(f: seq<Block>, pred: seq<seq<nat>>, b: nat, out: Uses) {
    Good(f, out) && (IsLast(pred, b) ==> out == map[])
  }

  ghost function DelayLaws(f: seq<Block>, pred: seq<seq<nat>>): Dataflow.Laws<BlockIn, Uses> {
    Dataflow.Laws((out: Uses, state: BlockIn) => Covers(out, state), (out: Uses) => (|Changes(f, out)|, 0),
                  (b: nat, state: BlockIn) => Good(f, state.uses), (b: nat, out: Uses) => GoodAfter(f, pred, b, out))
  }

  lemma JoinLowers(f: seq<Block>, out: Uses, state: BlockIn)
    requires Good(f, out) && Good(f, state.uses)
    ensures Good(f, Join(out, state)) && Covers(Join(out, state), state)
    ensures forall k :: k in out ==> k in Join(out, state) && Join(out, state)[k] <= out[k]
  {
    hide Universe;
  }

  lemma FewerChanges(f: seq<Block>, out: Uses, out': Uses)
    requires Good(f, out) && Good(f, out') && forall k :: k in out ==> k in out' && out'[k] <= out[k]
    ensures out' == out || |Changes(f, out')| < |Changes(f, out)|
  {
    hide Universe;
    if out' != out {
      var k :| k in out' && (k !in out || out'[k] < out[k]);
      assert (k, out'[k]) in Changes(f, out) && (k, out'[k]) !in Changes(f, out');
      assert Changes(f, out') <= Changes(f, out);
      Smaller(Changes(f, out'), Changes(f, out), (k, out'[k]));
    }
  }

  lemma Smaller<T>(a: set<T>, b: set<T>, x: T)
    requires a <= b && x in b && x !in a
    ensures |a| < |b|
  {
    assert |a| <= |b - {x}| by {
      SubsetSize(a, b - {x});
    }
  }

  lemma {:induction false} SubsetSize<T>(a: set<T>, b: set<T>)
    requires a <= b
    ensures |a| <= |b|
  {
    if a != {} {
      var x :| x in a;
      SubsetSize(a - {x}, b - {x});
    }
  }

  lemma IsJoinOk(f: seq<Block>, sm: Sm, pred: seq<seq<nat>>)
    ensures Dataflow.JoinOk(DelayProblem(f, sm), DelayLaws(f, pred), pred)
  {
    hide Good, Covers, Changes, Join;
    var p, l := DelayProblem(f, sm), DelayLaws(f, pred);
    forall b: nat, q: nat, i, o | b < |pred| && q in pred[b] && l.goodIn(b, i) && l.goodOut(q, o)
      ensures l.goodOut(q, p.join(o, i)) && l.covers(p.join(o, i), i)
      ensures forall j :: l.covers(o, j) ==> l.covers(p.join(o, i), j)
      ensures p.join(o, i) == o || Dataflow.Below(l.rank(p.join(o, i)), l.rank(o))
    {
      JoinLowers(f, o, i);
      FewerChanges(f, o, Join(o, i));
      forall j | Covers(o, j)
        ensures Covers(Join(o, i), j)
      {
        JoinKeeps(o, i, j);
      }
    }
  }

  lemma JoinKeeps(o: Uses, i: BlockIn, j: BlockIn)
    requires Covers(o, j)
    ensures Covers(Join(o, i), j)
  {
  }

  lemma RunStep(f: seq<Block>, sm: Sm, b: nat, ip: nat, out: Uses)
    requires b < |f| && ip < |f[b]|
    ensures Run(f, sm, b, ip, out).uses == Before(Run(f, sm, b, ip + 1, out).uses, f[b][ip], OwnKeys(f[b][ip].Accesses(), b, ip))
  {
    hide Before, Max, AllStarts;
  }

  lemma GoodBefore(f: seq<Block>, b: nat, ip: nat, uses: Uses)
    requires b < |f| && ip < |f[b]| && Good(f, uses)
    ensures Good(f, Before(uses, f[b][ip], OwnKeys(f[b][ip].Accesses(), b, ip)))
  {
  }

  lemma {:induction false} RunGood(f: seq<Block>, sm: Sm, b: nat, ip: nat, out: Uses)
    requires b < |f| && ip <= |f[b]| && Good(f, out)
    ensures Good(f, Run(f, sm, b, ip, out).uses)
    decreases |f[b]| - ip
  {
    hide Good, Step;
    if ip < |f[b]| {
      RunGood(f, sm, b, ip + 1, out);
      RunStep(f, sm, b, ip, out);
      GoodBefore(f, b, ip, Run(f, sm, b, ip + 1, out).uses);
    }
  }

  lemma IsTransferOk(f: seq<Block>, sm: Sm, pred: seq<seq<nat>>)
    ensures Dataflow.TransferOk(DelayProblem(f, sm), DelayLaws(f, pred), |f|)
  {
    hide Run, Covers;
    var p, l := DelayProblem(f, sm), DelayLaws(f, pred);
    forall b: nat, i, o | b < |f| && l.goodIn(b, i) && l.goodOut(b, o)
      ensures l.goodIn(b, p.transfer(b, i, o).0)
      ensures p.transfer(b, p.transfer(b, i, o).0, o) == (p.transfer(b, i, o).0, false)
      ensures !p.transfer(b, i, o).1 ==> forall o' :: l.covers(o', i) ==> l.covers(o', p.transfer(b, i, o).0)
    {
      RunGood(f, sm, b, 0, o);
      assert p.transfer(b, i, o) == Transfer(f, sm, b, i, o);
      var i' := Transfer(f, sm, b, i, o).0;
      assert p.transfer(b, i', o) == Transfer(f, sm, b, i', o);
      if !Transfer(f, sm, b, i, o).1 {
        forall o' | Covers(o', i)
          ensures Covers(o', i')
        {
          CoversSame(o', i, i');
        }
      }
    }
  }

  lemma CoversSame(o: Uses, i: BlockIn, j: BlockIn)
    requires Covers(o, i) && i.uses == j.uses
    ensures Covers(o, j)
  {
  }

  // ----- Paths -----

  ghost predicate IsPath(f: seq<Block>, pred: seq<seq<nat>>, path: seq<nat>) {
    && path != [] && |pred| == |f| && (forall j :: 0 <= j < |path| ==> path[j] < |f|)
    && forall j :: 0 <= j < |path| - 1 ==> IsEdge(pred, path[j], path[j + 1])
  }

  ghost predicate IsEdge(pred: seq<seq<nat>>, a: nat, b: nat) {
    b < |pred| && a in pred[b]
  }

  /** No instruction between `from` and `to` writes the register. */
  predicate NoWrites(block: Block, from: nat, to: nat, r: Reg)
    requires to <= |block|
  {
    forall ip :: from <= ip < to ==> !block[ip].Writes(r)
  }

  /** From the start of the path to the instruction `ip` of its last block nobody writes the register. */
  ghost predicate Clear(f: seq<Block>, path: seq<nat>, ip: nat, r: Reg)
    requires path != [] && (forall j :: 0 <= j < |path| ==> path[j] < |f|) && ip <= |f[path[|path| - 1]]|
  {
    if |path| == 1 then NoWrites(f[path[0]], 0, ip, r)
    else NoWrites(f[path[0]], 0, |f[path[0]]|, r) && Clear(f, path[1..], ip, r)
  }

  /** The time from the start of the path to that instruction. */
  ghost function Distance(cycles: seq<seq<nat>>, path: seq<nat>, ip: nat): nat {
    if path == [] || path[0] >= |cycles| then 0
    else if |path| == 1 then Monus(Current(cycles[path[0]]), CycleAt(cycles[path[0]], ip))
    else Current(cycles[path[0]]) + Distance(cycles, path[1..], ip)
  }

  function CycleAt(cycles: seq<nat>, ip: nat): nat {
    if ip < |cycles| then cycles[ip] else 0
  }

  /** The result of the dataflow analysis. */
  ghost predicate Analysed(f: seq<Block>, sm: Sm, pred: seq<seq<nat>>, ins: seq<BlockIn>, outs: seq<Uses>) {
    && |f| == |pred| == |ins| == |outs|
    && (forall b: nat :: b < |f| ==> Transfer(f, sm, b, ins[b], outs[b]).0 == ins[b])
    && (forall a: nat, b: nat :: IsEdge(pred, a, b) && a < |f| ==> Covers(outs[a], ins[b]))
    && (forall b: nat :: b < |f| && IsLast(pred, b) ==> outs[b] == map[])
  }

  ghost function CyclesOf(ins: seq<BlockIn>): seq<seq<nat>> {
    seq(|ins|, b requires 0 <= b < |ins| => ins[b].cycles)
  }

  // ----- Cycles of one block -----

  lemma StartsCovered(f: seq<Block>, sm: Sm, b: nat, ip: nat, s: Sched, x: (Reg, Access), k: Key)
    requires b < |f| && ip < |f[b]| && x in f[b][ip].Accesses() && k in s.uses && k.reg == x.0 && Conflict(x.1, k.access)
    requires x.1.Src? ==> !f[b][ip].Writes(x.0)
    ensures Step(f, sm, b, ip, s).cycles[0] >=
              DependencyToCycle(s.cycles, b, ip, k, s.uses[k], Latency(sm, f[b][ip], x.1, OpAt(f, k), k.access))
  {
    hide Before, DependencyToCycle, Latency;
    var instr := f[b][ip];
    var start := DependencyToCycle(s.cycles, b, ip, k, s.uses[k], Latency(sm, instr, x.1, OpAt(f, k), k.access));
    if x.1.Dst? {
      assert start in Starts(f, sm, b, ip, instr, instr.DstAccesses(), s.cycles, s.uses);
    } else {
      var mid := Before(s.uses, instr, OwnKeys(instr.DstAccesses(), b, ip));
      KeptBefore(s.uses, instr, instr.DstAccesses(), b, ip, k);
      assert start in Starts(f, sm, b, ip, instr, instr.SrcAccesses(), s.cycles, mid);
    }
    assert start in AllStarts(f, sm, b, ip, instr, s);
  }

  /** Accesses of a register that is not written stay, and nearer ones replace them only for the instruction itself. */
  lemma KeptBefore(uses: Uses, instr: Instr, accesses: set<(Reg, Access)>, b: nat, ip: nat, k: Key)
    requires k in uses && !instr.Writes(k.reg) && accesses == instr.DstAccesses()
    ensures k in Before(uses, instr, OwnKeys(accesses, b, ip)) && Before(uses, instr, OwnKeys(accesses, b, ip))[k] == uses[k]
  {
  }

  lemma {:induction false} Suffix(f: seq<Block>, sm: Sm, b: nat, lo: nat, ip: nat, out: Uses)
    requires b < |f| && lo <= ip <= |f[b]|
    ensures Run(f, sm, b, lo, out).cycles[ip - lo..] == Run(f, sm, b, ip, out).cycles
    decreases ip - lo
  {
    hide Before, Max, AllStarts;
    if lo < ip {
      Suffix(f, sm, b, lo + 1, ip, out);
    }
  }

  /** No instruction starts later than the ones after it; each takes its execution latency. */
  lemma {:induction false} Descending(f: seq<Block>, sm: Sm, b: nat, ip: nat, out: Uses)
    requires b < |f| && ip < |f[b]|
    ensures var cycles := Run(f, sm, b, ip, out).cycles;
            cycles[0] >= Current(Run(f, sm, b, ip + 1, out).cycles) + sm.exec(f[b][ip].op)
  {
    hide Before, Starts;
    var s := Run(f, sm, b, ip + 1, out);
    assert Current(s.cycles) + sm.exec(f[b][ip].op) in AllStarts(f, sm, b, ip, f[b][ip], s);
  }

  /** The next access within the block is known. */
  lemma {:induction false} OwnAccessSeen(f: seq<Block>, sm: Sm, b: nat, lo: nat, ip: nat, out: Uses, x: (Reg, Access))
    requires b < |f| && lo <= ip < |f[b]| && x in f[b][ip].Accesses() && NoWrites(f[b], lo, ip, x.0)
    ensures var uses := Run(f, sm, b, lo, out).uses; Key(x.0, b, ip, x.1) in uses && uses[Key(x.0, b, ip, x.1)] == 0
    decreases ip - lo
  {
    hide Step;
    if lo < ip {
      OwnAccessSeen(f, sm, b, lo + 1, ip, out, x);
      AccessStays(f, b, lo, Run(f, sm, b, lo + 1, out).uses, Key(x.0, b, ip, x.1));
    }
    RunStep(f, sm, b, lo, out);
  }

  lemma AccessStays(f: seq<Block>, b: nat, ip: nat, uses: Uses, k: Key)
    requires b < |f| && ip < |f[b]| && k in uses && !f[b][ip].Writes(k.reg)
    ensures var uses' := Before(uses, f[b][ip], OwnKeys(f[b][ip].Accesses(), b, ip)); k in uses' && uses'[k] <= uses[k]
  {
  }

  /** So is an access in a later block. */
  lemma {:induction false} LaterAccessSeen(f: seq<Block>, sm: Sm, b: nat, lo: nat, out: Uses, k: Key)
    requires b < |f| && lo <= |f[b]| && k in out && NoWrites(f[b], lo, |f[b]|, k.reg)
    ensures var uses := Run(f, sm, b, lo, out).uses; k in uses && uses[k] <= out[k]
    decreases |f[b]| - lo
  {
    hide Step, Before;
    if lo < |f[b]| {
      LaterAccessSeen(f, sm, b, lo + 1, out, k);
      AccessStays(f, b, lo, Run(f, sm, b, lo + 1, out).uses, k);
      RunStep(f, sm, b, lo, out);
    }
  }

  /** What is known at the start of a block about an access that is `distance` away. */
  ghost predicate Known(uses: Uses, k: Key, distance: nat, bound: nat) {
    distance > bound || (k in uses && uses[k] <= distance)
  }

  lemma AgedKnown(uses: Uses, b: nat, cycles: seq<nat>, k: Key, distance: nat, bound: nat)
    requires bound <= U8_MAX && Known(uses, k, distance, bound)
    ensures Known(Aged(uses, b, cycles, bound), k, distance + Current(cycles), bound)
  {
  }

  lemma OwnAged(uses: Uses, b: nat, cycles: seq<nat>, k: Key, bound: nat)
    requires bound <= U8_MAX && k in uses && uses[k] == 0 && k.block == b && k.ip < |cycles|
    ensures Known(Aged(uses, b, cycles, bound), k, Monus(Current(cycles), cycles[k.ip]), bound)
  {
  }

  /** At the start of a path, the first access to a register on it is known, and not believed farther away than it is. */
  lemma {:induction false} FirstAccessKnown(f: seq<Block>, sm: Sm, pred: seq<seq<nat>>, ins: seq<BlockIn>, outs: seq<Uses>,
                                            path: seq<nat>, ip: nat, x: (Reg, Access))
    requires Analysed(f, sm, pred, ins, outs) && sm.bound <= U8_MAX && IsPath(f, pred, path)
    requires ip < |f[path[|path| - 1]]| && x in f[path[|path| - 1]][ip].Accesses() && Clear(f, path, ip, x.0)
    requires forall b :: 0 <= b < |f| ==> |ins[b].cycles| == |f[b]|
    ensures Known(ins[path[0]].uses, Key(x.0, path[|path| - 1], ip, x.1), Distance(CyclesOf(ins), path, ip), sm.bound)
    decreases |path|
  {
    hide Known, Aged, Executed, Run, Covers;
    var b, k := path[0], Key(x.0, path[|path| - 1], ip, x.1);
    var s := Run(f, sm, b, 0, outs[b]);
    assert Transfer(f, sm, b, ins[b], outs[b]).0 == ins[b];
    if |path| == 1 {
      OwnAccessSeen(f, sm, b, 0, ip, outs[b], x);
      OwnAged(s.uses, b, s.cycles, k, sm.bound);
    } else {
      var rest := path[1..];
      RestIsPath(f, pred, path);
      FirstAccessKnown(f, sm, pred, ins, outs, rest, ip, x);
      assert IsEdge(pred, path[0], path[1]);
      KnownInJoin(outs[b], ins[rest[0]], k, Distance(CyclesOf(ins), rest, ip), sm.bound);
      KnownThroughBlock(f, sm, b, 0, outs[b], k, Distance(CyclesOf(ins), rest, ip));
      AgedKnown(s.uses, b, s.cycles, k, Distance(CyclesOf(ins), rest, ip), sm.bound);
    }
  }

  lemma RestIsPath(f: seq<Block>, pred: seq<seq<nat>>, path: seq<nat>)
    requires IsPath(f, pred, path) && |path| > 1
    ensures IsPath(f, pred, path[1..]) && path[1..][|path| - 2] == path[|path| - 1]
  {
    forall j | 0 <= j < |path[1..]| - 1
      ensures IsEdge(pred, path[1..][j], path[1..][j + 1])
    {
      assert IsEdge(pred, path[j + 1], path[j + 2]);
    }
  }

  lemma KnownInJoin(out: Uses, state: BlockIn, k: Key, distance: nat, bound: nat)
    requires Covers(out, state) && Known(state.uses, k, distance, bound)
    ensures Known(out, k, distance, bound)
  {
  }

  lemma KnownThroughBlock(f: seq<Block>, sm: Sm, b: nat, lo: nat, out: Uses, k: Key, distance: nat)
    requires b < |f| && lo <= |f[b]| && Known(out, k, distance, sm.bound) && NoWrites(f[b], lo, |f[b]|, k.reg)
    ensures Known(Run(f, sm, b, lo, out).uses, k, distance, sm.bound)
  {
    if k in out {
      LaterAccessSeen(f, sm, b, lo, out, k);
    }
  }

  // ----- The latencies are kept -----

  /** The first of two accesses, which nothing of the same instruction hides. */
  ghost predicate FirstAccess(instr: Instr, x: (Reg, Access)) {
    x in instr.Accesses() && (x.1.Src? ==> !instr.Writes(x.0))
  }

  lemma LatencyBounded(sm: Sm, one: Instr, first: Access, op: nat, second: Access)
    requires sm.Valid() && Conflict(first, second)
    ensures Latency(sm, one, first, op, second) <= sm.bound
  {
  }

  /** Two conflicting accesses in one run through a block. */
  lemma EnoughWithinBlock(f: seq<Block>, sm: Sm, b: nat, ip1: nat, ip2: nat, out: Uses, x1: (Reg, Access), x2: (Reg, Access))
    requires b < |f| && ip1 < ip2 < |f[b]| && x1.0 == x2.0 && Conflict(x1.1, x2.1)
    requires FirstAccess(f[b][ip1], x1) && x2 in f[b][ip2].Accesses() && NoWrites(f[b], ip1 + 1, ip2, x1.0)
    ensures var cycles := Run(f, sm, b, 0, out).cycles;
            cycles[ip1] >= cycles[ip2] + Latency(sm, f[b][ip1], x1.1, f[b][ip2].op, x2.1)
  {
    hide Step, Latency;
    var s, k := Run(f, sm, b, ip1 + 1, out), Key(x2.0, b, ip2, x2.1);
    OwnAccessSeen(f, sm, b, ip1 + 1, ip2, out, x2);
    StartsCovered(f, sm, b, ip1, s, x1, k);
    Suffix(f, sm, b, 0, ip1, out);
    Suffix(f, sm, b, ip1 + 1, ip2, out);
    Suffix(f, sm, b, 0, ip2, out);
  }

  /** Two conflicting accesses in different blocks, or in different runs through one block. */
  lemma {:induction false} EnoughAcrossBlocks(f: seq<Block>, sm: Sm, pred: seq<seq<nat>>, ins: seq<BlockIn>, outs: seq<Uses>, ip1: nat, path: seq<nat>, ip2: nat,
                           x1: (Reg, Access), x2: (Reg, Access))
    requires Analysed(f, sm, pred, ins, outs) && sm.Valid() && IsPath(f, pred, path) && |path| > 1
    requires forall b :: 0 <= b < |f| ==> |ins[b].cycles| == |f[b]|
    requires ip1 < |f[path[0]]| && ip2 < |f[path[|path| - 1]]| && x1.0 == x2.0 && Conflict(x1.1, x2.1)
    requires FirstAccess(f[path[0]][ip1], x1) && x2 in f[path[|path| - 1]][ip2].Accesses()
    requires NoWrites(f[path[0]], ip1 + 1, |f[path[0]]|, x1.0) && Clear(f, path[1..], ip2, x1.0)
    ensures ins[path[0]].cycles[ip1] + Distance(CyclesOf(ins), path[1..], ip2)
              >= Latency(sm, f[path[0]][ip1], x1.1, f[path[|path| - 1]][ip2].op, x2.1)
  {
    hide Step, Latency, Known, Distance, Covers, Run;
    var b, rest, k := path[0], path[1..], Key(x2.0, path[|path| - 1], ip2, x2.1);
    var distance := Distance(CyclesOf(ins), rest, ip2);
    assert Transfer(f, sm, b, ins[b], outs[b]).0 == ins[b];
    RestIsPath(f, pred, path);
    FirstAccessKnown(f, sm, pred, ins, outs, rest, ip2, x2);
    assert IsEdge(pred, path[0], path[1]);
    KnownInJoin(outs[b], ins[rest[0]], k, distance, sm.bound);
    KnownThroughBlock(f, sm, b, ip1 + 1, outs[b], k, distance);
    LatencyBounded(sm, f[b][ip1], x1.1, OpAt(f, k), x2.1);
    Suffix(f, sm, b, 0, ip1, outs[b]);
    KnownIsEnough(f, sm, b, ip1, outs[b], x1, k, distance);
  }

  lemma KnownIsEnough(f: seq<Block>, sm: Sm, b: nat, ip: nat, out: Uses, x: (Reg, Access), k: Key, distance: nat)
    requires b < |f| && ip < |f[b]| && k.reg == x.0 && Conflict(x.1, k.access) && FirstAccess(f[b][ip], x)
    requires Known(Run(f, sm, b, ip + 1, out).uses, k, distance, sm.bound)
    requires Latency(sm, f[b][ip], x.1, OpAt(f, k), k.access) <= sm.bound
    ensures Run(f, sm, b, ip, out).cycles[0] + distance >= Latency(sm, f[b][ip], x.1, OpAt(f, k), k.access)
  {
    hide Step, Latency;
    var s := Run(f, sm, b, ip + 1, out);
    if distance <= sm.bound {
      StartsCovered(f, sm, b, ip, s, x, k);
    }
  }

  // ----- Barriers -----

  /** When barrier `bar` is next waited on is known while the block is scheduled. */
  lemma {:induction false} BarsKnown(f: seq<Block>, sm: Sm, b: nat, lo: nat, wait: nat, out: Uses, bar: nat)
    requires b < |f| && lo <= wait <= |f[b]| && bar < NUM_BARS && forall ip :: lo <= ip < wait ==> bar !in f[b][ip].waits
    requires wait < |f[b]| ==> bar in f[b][wait].waits
    ensures var s := Run(f, sm, b, lo, out);
            |s.bars| == NUM_BARS && s.bars[bar] == if wait < |f[b]| then s.cycles[wait - lo] else 0
    decreases |f[b]| - lo
  {
    hide Before, AllStarts, Max;
    if lo < wait {
      BarsKnown(f, sm, b, lo + 1, wait, out, bar);
    } else if lo < |f[b]| {
      BarsLength(f, sm, b, lo + 1, out);
    }
  }

  lemma {:induction false} BarsLength(f: seq<Block>, sm: Sm, b: nat, lo: nat, out: Uses)
    requires b < |f| && lo <= |f[b]|
    ensures |Run(f, sm, b, lo, out).bars| == NUM_BARS
    decreases |f[b]| - lo
  {
    hide Before, AllStarts, Max;
    if lo < |f[b]| {
      BarsLength(f, sm, b, lo + 1, out);
    }
  }

  /** Two cycles pass between signalling a barrier and the next wait on it, or the end of the block. */
  lemma SignalBeforeWait(f: seq<Block>, sm: Sm, b: nat, ip: nat, wait: nat, out: Uses, bar: nat)
    requires b < |f| && ip < wait <= |f[b]| && bar < NUM_BARS && forall j :: ip < j < wait ==> bar !in f[b][j].waits
    requires wait < |f[b]| ==> bar in f[b][wait].waits
    requires f[b][ip].rdBar == Some(bar) || f[b][ip].wrBar == Some(bar)
    ensures var cycles := Run(f, sm, b, 0, out).cycles;
            cycles[ip] >= (if wait < |f[b]| then cycles[wait] else 0) + 2
  {
    hide Step;
    BarsKnown(f, sm, b, ip + 1, wait, out, bar);
    SignalStart(f, sm, b, ip, Run(f, sm, b, ip + 1, out), bar);
    Suffix(f, sm, b, 0, ip, out);
    Suffix(f, sm, b, ip + 1, wait, out);
    Suffix(f, sm, b, 0, wait, out);
  }

  lemma SignalStart(f: seq<Block>, sm: Sm, b: nat, ip: nat, s: Sched, bar: nat)
    requires b < |f| && ip < |f[b]| && bar < |s.bars| && (f[b][ip].rdBar == Some(bar) || f[b][ip].wrBar == Some(bar))
    ensures Step(f, sm, b, ip, s).cycles[0] >= s.bars[bar] + 2
  {
    hide Before, Starts;
    assert s.bars[bar] + 2 in AllStarts(f, sm, b, ip, f[b][ip], s);
  }

  // ----- Emitting the delays -----

  function Total(delays: seq<nat>): nat {
    if delays == [] then 0 else delays[0] + Total(delays[1..])
  }

  lemma {:induction false} TotalAppend(a: seq<nat>, d: nat)
    ensures Total(a + [d]) == Total(a) + d
  {
    if a != [] {
      assert (a + [d])[1..] == a[1..] + [d];
      TotalAppend(a[1..], d);
    }
  }

  /** The delay of an instruction together with the empty instructions behind it. */
  function EmittedDelay(instr: Instr, sm: Sm, delay: nat): nat {
    if delay <= sm.maxDelay && !instr.isSrcBar && sm.exec(instr.op) > 1 then delay + 2 else delay
  }

  /** One instruction with its delay, and the empty instructions behind it: a delay that does not fit is
      spread over empty instructions, and an instruction that takes longer is followed by one. */
  method EmitInstr(instr: Instr, sm: Sm, delay: nat) returns (delays: seq<nat>)
    requires 0 < sm.maxDelay
    ensures delay > sm.maxDelay ==> Total(delays) == delay && forall i :: 0 <= i < |delays| ==> 0 < delays[i] <= sm.maxDelay
    ensures delay <= sm.maxDelay ==> delays == if !instr.isSrcBar && sm.exec(instr.op) > 1 then [delay, 2] else [delay]
    ensures delays != [] && Total(delays) == EmittedDelay(instr, sm, delay)
  {
    if delay > sm.maxDelay {
      var rest: nat := delay - sm.maxDelay;
      delays := [sm.maxDelay];
      assert delays[1..] == [];
      while rest > 0
        invariant Total(delays) + rest == delay && delays != [] && forall i :: 0 <= i < |delays| ==> 0 < delays[i] <= sm.maxDelay
      {
        var nop := Min(rest, sm.maxDelay);
        TotalAppend(delays, nop);
        delays := delays + [nop];
        rest := rest - nop;
      }
    } else if !instr.isSrcBar && sm.exec(instr.op) > 1 {
      delays := [delay, 2];
      assert [delay][1..] == [] && [delay] + [2] == delays;
      TotalAppend([delay], 2);
    } else {
      delays := [delay];
      assert delays[1..] == [];
    }
  }

  /** The delay of an instruction covers the time until the next one starts. */
  ghost predicate BlockEmitted(block: Block, sm: Sm, cycles: seq<nat>, delays: seq<seq<nat>>) {
    |delays| == |cycles| == |block| && forall ip: nat :: ip < |cycles| ==> InstrEmitted(block[ip], sm, cycles, delays[ip], ip)
  }

  ghost predicate InstrEmitted(instr: Instr, sm: Sm, cycles: seq<nat>, delays: seq<nat>, ip: nat) {
    Total(delays) == EmittedDelay(instr, sm, MaxOf(MIN_INSTR_DELAY, Monus(CycleAt(cycles, ip), CycleAt(cycles, ip + 1))))
  }

  predicate TooLong(cycles: seq<nat>, ip: nat) {
    ip < |cycles| && Monus(CycleAt(cycles, ip), CycleAt(cycles, ip + 1)) > U8_MAX
  }

  /** Fails when a delay does not fit into a byte. */
  method EmitBlock(block: Block, sm: Sm, cycles: seq<nat>) returns (r: Option<seq<seq<nat>>>)
    requires 0 < sm.maxDelay && |cycles| == |block|
    ensures r.None? ==> exists ip :: TooLong(cycles, ip)
    ensures r.Some? ==> BlockEmitted(block, sm, cycles, r.value) && forall ip :: !TooLong(cycles, ip)
  {
    var delays: seq<seq<nat>> := [];
    for ip := 0 to |block|
      invariant |delays| == ip && forall j: nat :: j < ip ==> InstrEmitted(block[j], sm, cycles, delays[j], j) && !TooLong(cycles, j)
    {
      var delay := Monus(CycleAt(cycles, ip), CycleAt(cycles, ip + 1));
      if delay > U8_MAX {
        assert TooLong(cycles, ip);
        return None;
      }
      var emitted := EmitInstr(block[ip], sm, MaxOf(MIN_INSTR_DELAY, delay));
      delays := delays + [emitted];
    }
    assert BlockEmitted(block, sm, cycles, delays);
    return Some(delays);
  }

  // ----- The pass -----

  ghost predicate Emitted(f: seq<Block>, sm: Sm, cycles: seq<seq<nat>>, delays: seq<seq<seq<nat>>>) {
    |delays| == |cycles| == |f| && forall b: nat :: b < |cycles| ==> BlockEmitted(f[b], sm, cycles[b], delays[b])
  }

  /** The delays cover the cycles of a solution of the dataflow problem. */
  ghost predicate Scheduled(f: seq<Block>, sm: Sm, pred: seq<seq<nat>>, delays: seq<seq<seq<nat>>>) {
    exists ins, outs :: Analysed(f, sm, pred, ins, outs) && Emitted(f, sm, CyclesOf(ins), delays)
  }

  method Analyse(f: seq<Block>, sm: Sm, pred: seq<seq<nat>>) returns (ins: seq<BlockIn>, ghost outs: seq<Uses>)
    requires Dataflow.WellFormed(pred) && |pred| == |f| && sm.bound <= U8_MAX
    ensures Analysed(f, sm, pred, ins, outs)
  {
    hide Run, Good, Covers, Dataflow.TransferOk, Dataflow.JoinOk, Changes;
    var blockIn := new BlockIn[|f|](b => BlockIn([], map[]));
    var blockOut := new Uses[|f|](b => map[]);
    NothingIsGood(f);
    IsTransferOk(f, sm, pred);
    IsJoinOk(f, sm, pred);
    Dataflow.SolveBackward(pred, DelayProblem(f, sm), blockIn, blockOut, DelayLaws(f, pred));
    ins, outs := blockIn[..], blockOut[..];
    SolvedIsAnalysed(f, sm, pred, ins, outs);
  }

  lemma NothingIsGood(f: seq<Block>)
    ensures Good(f, map[])
  {
  }

  lemma SolvedIsAnalysed(f: seq<Block>, sm: Sm, pred: seq<seq<nat>>, ins: seq<BlockIn>, outs: seq<Uses>)
    requires Dataflow.WellFormed(pred) && |pred| == |f| && Dataflow.Solved(DelayProblem(f, sm), DelayLaws(f, pred), pred, ins, outs)
    requires Dataflow.AllGood(DelayLaws(f, pred), ins, outs)
    ensures Analysed(f, sm, pred, ins, outs)
  {
    hide Run, Covers, Good, Changes;
    var p, l := DelayProblem(f, sm), DelayLaws(f, pred);
    forall b: nat | b < |f|
      ensures Transfer(f, sm, b, ins[b], outs[b]).0 == ins[b]
    {
      assert Dataflow.Stable(p, ins, outs, b);
      assert p.transfer(b, ins[b], outs[b]) == Transfer(f, sm, b, ins[b], outs[b]);
    }
    forall a: nat, b: nat | IsEdge(pred, a, b) && a < |f|
      ensures Covers(outs[a], ins[b])
    {
      assert Dataflow.Covered(l, ins, outs, b, a);
    }
    forall b: nat | b < |f| && IsLast(pred, b)
      ensures outs[b] == map[]
    {
      assert l.goodOut(b, outs[b]);
    }
  }

  /** The whole pass.  It fails only when some instruction would have to wait longer than a byte can say. */
  method CalcDelays(f: seq<Block>, sm: Sm, pred: seq<seq<nat>>) returns (r: Option<seq<seq<seq<nat>>>>)
    requires Dataflow.WellFormed(pred) && |pred| == |f| && sm.Valid()
    ensures r.Some? ==> Scheduled(f, sm, pred, r.value)
    ensures r.None? ==> exists ins: seq<BlockIn>, outs, b: nat, ip ::
              Analysed(f, sm, pred, ins, outs) && b < |ins| && TooLong(ins[b].cycles, ip)
  {
    hide Transfer, Covers, BlockEmitted, TooLong;
    var ins;
    ghost var outs;
    ins, outs := Analyse(f, sm, pred);
    CyclesComplete(f, sm, pred, ins, outs);
    var delays: seq<seq<seq<nat>>> := [];
    for b := 0 to |f|
      invariant |delays| == b && forall c: nat :: c < b ==> BlockEmitted(f[c], sm, ins[c].cycles, delays[c])
    {
      var emitted := EmitBlock(f[b], sm, ins[b].cycles);
      if emitted.None? {
        ghost var ip :| TooLong(ins[b].cycles, ip);
        return None;
      }
      delays := delays + [emitted.value];
    }
    assert Emitted(f, sm, CyclesOf(ins), delays);
    return Some(delays);
  }

  lemma CyclesComplete(f: seq<Block>, sm: Sm, pred: seq<seq<nat>>, ins: seq<BlockIn>, outs: seq<Uses>)
    requires Analysed(f, sm, pred, ins, outs)
    ensures forall b :: 0 <= b < |f| ==> |ins[b].cycles| == |f[b]|
  {
    hide Run;
    forall b | 0 <= b < |f|
      ensures |ins[b].cycles| == |f[b]|
    {
      assert Transfer(f, sm, b, ins[b], outs[b]).0 == ins[b];
    }
  }

  // ----- What the delays guarantee -----

  /** The time from the start of instruction `ip1` to the start of `ip2` of the same block. */
  ghost function Span(delays: seq<seq<nat>>, ip1: nat, ip2: nat): nat
    requires ip1 <= ip2 <= |delays|
    decreases ip2 - ip1
  {
    if ip1 == ip2 then 0 else Total(delays[ip1]) + Span(delays, ip1 + 1, ip2)
  }

  /** The time from the start of the path to the start of instruction `ip` of its last block. */
  ghost function FromStart(delays: seq<seq<seq<nat>>>, path: seq<nat>, ip: nat): nat
    requires path != [] && (forall j :: 0 <= j < |path| ==> path[j] < |delays|) && ip <= |delays[path[|path| - 1]]|
  {
    if |path| == 1 then Span(delays[path[0]], 0, ip)
    else Span(delays[path[0]], 0, |delays[path[0]]|) + FromStart(delays, path[1..], ip)
  }

  ghost function Elapsed(delays: seq<seq<seq<nat>>>, ip1: nat, path: seq<nat>, ip2: nat): nat
    requires path != [] && (forall j :: 0 <= j < |path| ==> path[j] < |delays|)
    requires ip1 < |delays[path[0]]| && ip2 < |delays[path[|path| - 1]]| && (|path| == 1 ==> ip1 < ip2)
  {
    if |path| == 1 then Span(delays[path[0]], ip1, ip2)
    else Span(delays[path[0]], ip1, |delays[path[0]]|) + FromStart(delays, path[1..], ip2)
  }

  lemma {:induction false} SpanCovers(block: Block, sm: Sm, cycles: seq<nat>, delays: seq<seq<nat>>, ip1: nat, ip2: nat)
    requires BlockEmitted(block, sm, cycles, delays) && ip1 <= ip2 <= |delays|
    ensures Span(delays, ip1, ip2) + CycleAt(cycles, ip2) >= CycleAt(cycles, ip1)
    decreases ip2 - ip1
  {
    if ip1 < ip2 {
      SpanCovers(block, sm, cycles, delays, ip1 + 1, ip2);
      assert InstrEmitted(block[ip1], sm, cycles, delays[ip1], ip1);
    }
  }

  lemma {:induction false} PathCovers(f: seq<Block>, sm: Sm, cycles: seq<seq<nat>>, delays: seq<seq<seq<nat>>>, path: seq<nat>, ip: nat)
    requires Emitted(f, sm, cycles, delays) && path != [] && (forall j :: 0 <= j < |path| ==> path[j] < |cycles|)
    requires ip < |cycles[path[|path| - 1]]| && |delays[path[|path| - 1]]| == |cycles[path[|path| - 1]]|
    ensures FromStart(delays, path, ip) >= Distance(cycles, path, ip)
    decreases |path|
  {
    hide BlockEmitted, Span;
    var b := path[0];
    assert BlockEmitted(f[b], sm, cycles[b], delays[b]);
    if |path| == 1 {
      SpanCovers(f[b], sm, cycles[b], delays[b], 0, ip);
    } else {
      SpanCovers(f[b], sm, cycles[b], delays[b], 0, |delays[b]|);
      SameLength(f[b], sm, cycles[b], delays[b]);
      assert path[1..][|path| - 2] == path[|path| - 1];
      PathCovers(f, sm, cycles, delays, path[1..], ip);
    }
  }

  lemma SameLength(block: Block, sm: Sm, cycles: seq<nat>, delays: seq<seq<nat>>)
    requires BlockEmitted(block, sm, cycles, delays)
    ensures |delays| == |cycles|
  {
  }

  /** Two conflicting accesses to a register along a path, with no write in between. */
  ghost predicate ConflictOnPath(f: seq<Block>, pred: seq<seq<nat>>, ip1: nat, path: seq<nat>, ip2: nat, x1: (Reg, Access), x2: (Reg, Access)) {
    && IsPath(f, pred, path) && ip1 < |f[path[0]]| && ip2 < |f[path[|path| - 1]]|
    && x1.0 == x2.0 && Conflict(x1.1, x2.1)
    && x1 in f[path[0]][ip1].Accesses() && x2 in f[path[|path| - 1]][ip2].Accesses()
    && if |path| == 1 then ip1 < ip2 && NoWrites(f[path[0]], ip1 + 1, ip2, x1.0)
       else NoWrites(f[path[0]], ip1 + 1, |f[path[0]]|, x1.0) && Clear(f, path[1..], ip2, x1.0)
  }

  lemma EmittedShape(f: seq<Block>, sm: Sm, pred: seq<seq<nat>>, delays: seq<seq<seq<nat>>>)
    requires Scheduled(f, sm, pred, delays)
    ensures |delays| == |f| && forall b :: 0 <= b < |f| ==> |delays[b]| == |f[b]|
  {
    hide Transfer, Covers, BlockEmitted;
    var ins: seq<BlockIn>, outs :| Analysed(f, sm, pred, ins, outs) && Emitted(f, sm, CyclesOf(ins), delays);
    CyclesComplete(f, sm, pred, ins, outs);
    forall b: nat | b < |f|
      ensures |delays[b]| == |f[b]|
    {
      SameLength(f[b], sm, ins[b].cycles, delays[b]);
    }
  }

  /** The latency of an access that its own instruction does not hide is kept. */
  lemma FirstAccessKept(f: seq<Block>, sm: Sm, pred: seq<seq<nat>>, delays: seq<seq<seq<nat>>>, ip1: nat, path: seq<nat>, ip2: nat,
                        x1: (Reg, Access), x2: (Reg, Access))
    requires sm.Valid() && Scheduled(f, sm, pred, delays) && ConflictOnPath(f, pred, ip1, path, ip2, x1, x2) && FirstAccess(f[path[0]][ip1], x1)
    requires |delays| == |f| && forall b :: 0 <= b < |f| ==> |delays[b]| == |f[b]|
    ensures Elapsed(delays, ip1, path, ip2) >= Latency(sm, f[path[0]][ip1], x1.1, f[path[|path| - 1]][ip2].op, x2.1)
  {
    hide Latency, Covers, BlockEmitted, Span, FirstAccess, Distance, FromStart, Run;
    var ins: seq<BlockIn>, outs :| Analysed(f, sm, pred, ins, outs) && Emitted(f, sm, CyclesOf(ins), delays);
    CyclesComplete(f, sm, pred, ins, outs);
    var b := path[0];
    assert Transfer(f, sm, b, ins[b], outs[b]).0 == ins[b];
    assert BlockEmitted(f[b], sm, CyclesOf(ins)[b], delays[b]);
    if |path| == 1 {
      EnoughWithinBlock(f, sm, b, ip1, ip2, outs[b], x1, x2);
      SpanCovers(f[b], sm, ins[b].cycles, delays[b], ip1, ip2);
    } else {
      EnoughAcrossBlocks(f, sm, pred, ins, outs, ip1, path, ip2, x1, x2);
      SpanCovers(f[b], sm, ins[b].cycles, delays[b], ip1, |delays[b]|);
      assert path[1..][|path| - 2] == path[|path| - 1];
      PathCovers(f, sm, CyclesOf(ins), delays, path[1..], ip2);
    }
  }

  /** Why the latency of an access is kept: the instruction does not overwrite what it reads; or one of its
      writes of the register asks for as much; or the instruction itself takes that long. */
  ghost predicate IsKept(sm: Sm, instr: Instr, x1: (Reg, Access), op: nat, second: Access)
    requires Conflict(x1.1, second)
  {
    || FirstAccess(instr, x1)
    || (exists i :: 0 <= i < |instr.dsts| && x1.0 in instr.dsts[i] && Latency(sm, instr, Dst(i), op, second) >= Latency(sm, instr, x1.1, op, second))
    || MaxOf(MIN_INSTR_DELAY, sm.exec(instr.op)) >= Latency(sm, instr, x1.1, op, second)
  }

  /** Along every path through the program, however often it goes round a loop, the delays between two
      conflicting accesses add up to the latency that the hardware asks for. */
  lemma LatenciesKept(f: seq<Block>, sm: Sm, pred: seq<seq<nat>>, delays: seq<seq<seq<nat>>>, ip1: nat, path: seq<nat>, ip2: nat,
                      x1: (Reg, Access), x2: (Reg, Access))
    requires sm.Valid() && Scheduled(f, sm, pred, delays) && ConflictOnPath(f, pred, ip1, path, ip2, x1, x2)
    requires IsKept(sm, f[path[0]][ip1], x1, f[path[|path| - 1]][ip2].op, x2.1)
    requires |delays| == |f| && forall b :: 0 <= b < |f| ==> |delays[b]| == |f[b]|
    ensures Elapsed(delays, ip1, path, ip2) >= Latency(sm, f[path[0]][ip1], x1.1, f[path[|path| - 1]][ip2].op, x2.1)
  {
    hide Latency, Elapsed, Scheduled, FirstAccess, Instr.Accesses;
    var instr := f[path[0]][ip1];
    if FirstAccess(instr, x1) {
      FirstAccessKept(f, sm, pred, delays, ip1, path, ip2, x1, x2);
    } else if MaxOf(MIN_INSTR_DELAY, sm.exec(instr.op)) >= Latency(sm, instr, x1.1, f[path[|path| - 1]][ip2].op, x2.1) {
      TakesItsTime(f, sm, pred, delays, ip1, path, ip2);
    } else {
      var i :| 0 <= i < |instr.dsts| && x1.0 in instr.dsts[i]
               && Latency(sm, instr, Dst(i), f[path[|path| - 1]][ip2].op, x2.1) >= Latency(sm, instr, x1.1, f[path[|path| - 1]][ip2].op, x2.1);
      OwnWrite(instr, i, x1.0);
      FirstAccessKept(f, sm, pred, delays, ip1, path, ip2, (x1.0, Dst(i)), x2);
    }
  }

  lemma OwnWrite(instr: Instr, i: nat, r: Reg)
    requires i < |instr.dsts| && r in instr.dsts[i]
    ensures (r, Dst(i)) in instr.Accesses() && FirstAccess(instr, (r, Dst(i)))
  {
    assert (r, Dst(i)) in instr.DstAccesses();
  }

  /** An instruction delays everything behind it by the time it takes itself. */
  lemma TakesItsTime(f: seq<Block>, sm: Sm, pred: seq<seq<nat>>, delays: seq<seq<seq<nat>>>, ip1: nat, path: seq<nat>, ip2: nat)
    requires Scheduled(f, sm, pred, delays) && |pred| == |f| && path != [] && forall j :: 0 <= j < |path| ==> path[j] < |f|
    requires |delays| == |f| && forall b :: 0 <= b < |f| ==> |delays[b]| == |f[b]|
    requires ip1 < |f[path[0]]| && ip2 < |f[path[|path| - 1]]| && (|path| == 1 ==> ip1 < ip2)
    ensures Elapsed(delays, ip1, path, ip2) >= MaxOf(MIN_INSTR_DELAY, sm.exec(f[path[0]][ip1].op))
  {
    hide Covers, FromStart, Run;
    var ins: seq<BlockIn>, outs :| Analysed(f, sm, pred, ins, outs) && Emitted(f, sm, CyclesOf(ins), delays);
    CyclesComplete(f, sm, pred, ins, outs);
    var b := path[0];
    assert Transfer(f, sm, b, ins[b], outs[b]).0 == ins[b];
    Descending(f, sm, b, ip1, outs[b]);
    Suffix(f, sm, b, 0, ip1, outs[b]);
    Suffix(f, sm, b, 0, ip1 + 1, outs[b]);
    assert BlockEmitted(f[b], sm, CyclesOf(ins)[b], delays[b]);
    assert InstrEmitted(f[b][ip1], sm, ins[b].cycles, delays[b][ip1], ip1);
  }

  // ----- Maxwell -----

  /** The latencies of Maxwell.  `files` tells the register file of every destination, `double` the
      operations of the wide and half precision units and `slow` those that take 13 cycles to issue. */
  function Maxwell(files: (nat, nat) -> RegFile, double: nat -> bool, slow: nat -> bool): Sm {
    Sm(o => if slow(o) then 13 else 1, (o1, d1, p, o2, d2) => ResultLatency(files(o1, d1), double(o1)),
       (o1, d1, o2, s2) => ResultLatency(files(o1, d1), double(o1)), (o1, d1) => 13, (o1, s1, o2, d2) => 4, 14, 15)
  }

  function ResultLatency(file: RegFile, double: bool): (latency: nat)
    ensures latency <= 14
    ensures file in {GPR, Pred, Carry} ==> latency >= 6
  {
    match file
    case GPR => if double then 13 else 6
    case Pred => if double then 14 else 13
    case Carry => 6
    case _ => 0
  }

  /** The files of the destinations are those of their registers, which are general registers, predicates
      and carries. */
  ghost predicate FilesOk(f: seq<Block>, files: (nat, nat) -> RegFile) {
    forall b, ip, i, r :: 0 <= b < |f| && 0 <= ip < |f[b]| && 0 <= i < |f[b][ip].dsts| && r in f[b][ip].dsts[i] ==>
      files(f[b][ip].op, i) == r.file && r.file in {GPR, Pred, Carry}
  }

  /** On Maxwell no latency is ever missed: a write asks for more than a read. */
  lemma MaxwellKeepsLatencies(f: seq<Block>, files: (nat, nat) -> RegFile, double: nat -> bool, slow: nat -> bool, pred: seq<seq<nat>>,
                              delays: seq<seq<seq<nat>>>, ip1: nat, path: seq<nat>, ip2: nat, x1: (Reg, Access), x2: (Reg, Access))
    requires FilesOk(f, files) && Scheduled(f, Maxwell(files, double, slow), pred, delays) && ConflictOnPath(f, pred, ip1, path, ip2, x1, x2)
    requires |delays| == |f| && forall b :: 0 <= b < |f| ==> |delays[b]| == |f[b]|
    ensures Elapsed(delays, ip1, path, ip2) >= Latency(Maxwell(files, double, slow), f[path[0]][ip1], x1.1, f[path[|path| - 1]][ip2].op, x2.1)
  {
    hide Elapsed, Scheduled;
    var sm, instr, op := Maxwell(files, double, slow), f[path[0]][ip1], f[path[|path| - 1]][ip2].op;
    if x1.1.Src? && instr.Writes(x1.0) {
      var i :| 0 <= i < |instr.dsts| && x1.0 in instr.dsts[i];
      assert files(instr.op, i) == x1.0.file && x1.0.file in {GPR, Pred, Carry};
      assert Latency(sm, instr, Dst(i), op, x2.1) >= Latency(sm, instr, x1.1, op, x2.1);
    }
    MaxwellIsValid(files, double, slow);
    LatenciesKept(f, sm, pred, delays, ip1, path, ip2, x1, x2);
  }

  lemma MaxwellIsValid(files: (nat, nat) -> RegFile, double: nat -> bool, slow: nat -> bool)
    ensures Maxwell(files, double, slow).Valid()
  {
    hide ResultLatency;
    var sm := Maxwell(files, double, slow);
    forall o1, d1, p, o2, d2
      ensures sm.waw(o1, d1, p, o2, d2) <= sm.bound
    {
      assert sm.waw(o1, d1, p, o2, d2) == ResultLatency(files(o1, d1), double(o1));
    }
    forall o1, d1, o2, s2
      ensures sm.raw(o1, d1, o2, s2) <= sm.bound
    {
      assert sm.raw(o1, d1, o2, s2) == ResultLatency(files(o1, d1), double(o1));
    }
  }

  // ----- A pair of instructions -----

  /** When the last instruction of a program starts, counted from the end. */
  function LastStart(sm: Sm, two: Instr): nat {
    Max({sm.exec(two.op), BarStart(NO_BARS, two.rdBar), BarStart(NO_BARS, two.wrBar)} + OwnGaps(sm, two, 0))
  }

  const NO_BARS: seq<nat> := [0, 0, 0, 0, 0, 0]

  /** A source that is also written keeps a distance from the end of the block. */
  function OwnGaps(sm: Sm, instr: Instr, end: nat): set<nat> {
    set x, y | x in instr.SrcAccesses() && y in instr.DstAccesses() && x.0 == y.0 :: Monus(Latency(sm, instr, x.1, instr.op, y.1), end)
  }

  /** The distance that a barrier asks for, when the next instruction starts at `end`. */
  function BarGap(two: Instr, bar: Option<nat>, end: nat): nat {
    if bar.None? || bar.value >= NUM_BARS then 0 else if bar.value in two.waits then 2 else Monus(2, end)
  }

  /** What asks for a distance between the two: conflicts, except of reads that the first instruction
      overwrites, its own latency, and barriers. */
  function Gaps(sm: Sm, one: Instr, two: Instr, end: nat): set<nat> {
    {sm.exec(one.op), BarGap(two, one.rdBar, end), BarGap(two, one.wrBar, end)} + OwnGaps(sm, one, end)
    + PairGaps(sm, one, two)
  }

  function PairGaps(sm: Sm, one: Instr, two: Instr): set<nat> {
    set x, y | x in one.SrcAccesses() + one.DstAccesses() && y in two.Accesses() && x.0 == y.0 && Conflict(x.1, y.1) && (x.1.Src? ==> !one.Writes(x.0)) ::
      Latency(sm, one, x.1, two.op, y.1)
  }

  function Spacing(sm: Sm, one: Instr, two: Instr): nat {
    Max(Gaps(sm, one, two, LastStart(sm, two)))
  }

  lemma AccessKinds(instr: Instr)
    ensures (forall x :: x in instr.SrcAccesses() ==> x.1.Src?) && (forall x :: x in instr.DstAccesses() ==> x.1.Dst?)
    ensures forall x :: x in instr.DstAccesses() ==> instr.Writes(x.0)
  {
  }

  /** What the sources ask for: what is behind an overwritten register is hidden, except for the write that
      hides it. */
  lemma SrcStarts(f: seq<Block>, sm: Sm, b: nat, ip: nat, instr: Instr, cycles: seq<nat>, uses: Uses)
    requires b < |f| && ip < |f[b]| && f[b][ip] == instr && forall k :: k in uses ==> k.ip != ip
    ensures Starts(f, sm, b, ip, instr, instr.SrcAccesses(), cycles, Before(uses, instr, OwnKeys(instr.DstAccesses(), b, ip))) ==
            Starts(f, sm, b, ip, instr, Unhidden(instr), cycles, uses) + OwnGaps(sm, instr, 0)
  {
    hide Latency, Instr.SrcAccesses, Instr.DstAccesses, Instr.Writes, Starts, OwnGaps, Before;
    var mid := Before(uses, instr, OwnKeys(instr.DstAccesses(), b, ip));
    var left := Starts(f, sm, b, ip, instr, instr.SrcAccesses(), cycles, mid);
    var right := Starts(f, sm, b, ip, instr, Unhidden(instr), cycles, uses) + OwnGaps(sm, instr, 0);
    forall start | start in left
      ensures start in right
    {
      SrcStart(f, sm, b, ip, instr, cycles, uses, start);
    }
    forall start | start in right
      ensures start in left
    {
      if start in OwnGaps(sm, instr, 0) {
        HidingStart(f, sm, b, ip, instr, cycles, uses, start);
      } else {
        UnhiddenStart(f, sm, b, ip, instr, cycles, uses, start);
      }
    }
  }

  lemma SrcStart(f: seq<Block>, sm: Sm, b: nat, ip: nat, instr: Instr, cycles: seq<nat>, uses: Uses, start: nat)
    requires b < |f| && ip < |f[b]| && f[b][ip] == instr && forall k :: k in uses ==> k.ip != ip
    requires start in Starts(f, sm, b, ip, instr, instr.SrcAccesses(), cycles, Before(uses, instr, OwnKeys(instr.DstAccesses(), b, ip)))
    ensures start in Starts(f, sm, b, ip, instr, Unhidden(instr), cycles, uses) || start in OwnGaps(sm, instr, 0)
  {
    hide Latency, Instr.SrcAccesses, Instr.DstAccesses, Instr.Writes;
    AccessKinds(instr);
    var mid := Before(uses, instr, OwnKeys(instr.DstAccesses(), b, ip));
    var x, k :| x in instr.SrcAccesses() && k in mid && k.reg == x.0 && Conflict(x.1, k.access)
                && start == DependencyToCycle(cycles, b, ip, k, mid[k], Latency(sm, instr, x.1, OpAt(f, k), k.access));
    if k in OwnKeys(instr.DstAccesses(), b, ip) {
      var y :| y in instr.DstAccesses() && k == Key(y.0, b, ip, y.1);
      assert start == Monus(Latency(sm, instr, x.1, instr.op, y.1), 0);
    } else {
      assert x in Unhidden(instr);
    }
  }

  lemma HidingStart(f: seq<Block>, sm: Sm, b: nat, ip: nat, instr: Instr, cycles: seq<nat>, uses: Uses, start: nat)
    requires b < |f| && ip < |f[b]| && f[b][ip] == instr && start in OwnGaps(sm, instr, 0)
    ensures start in Starts(f, sm, b, ip, instr, instr.SrcAccesses(), cycles, Before(uses, instr, OwnKeys(instr.DstAccesses(), b, ip)))
  {
    hide Latency, Instr.SrcAccesses, Instr.DstAccesses, Instr.Writes;
    AccessKinds(instr);
    var mid := Before(uses, instr, OwnKeys(instr.DstAccesses(), b, ip));
    var x, y :| x in instr.SrcAccesses() && y in instr.DstAccesses() && x.0 == y.0 && start == Monus(Latency(sm, instr, x.1, instr.op, y.1), 0);
    var k := Key(y.0, b, ip, y.1);
    assert k in OwnKeys(instr.DstAccesses(), b, ip);
    assert k in mid && mid[k] == 0;
    assert start == DependencyToCycle(cycles, b, ip, k, mid[k], Latency(sm, instr, x.1, OpAt(f, k), k.access));
  }

  lemma UnhiddenStart(f: seq<Block>, sm: Sm, b: nat, ip: nat, instr: Instr, cycles: seq<nat>, uses: Uses, start: nat)
    requires (forall k :: k in uses ==> k.ip != ip) && start in Starts(f, sm, b, ip, instr, Unhidden(instr), cycles, uses)
    ensures start in Starts(f, sm, b, ip, instr, instr.SrcAccesses(), cycles, Before(uses, instr, OwnKeys(instr.DstAccesses(), b, ip)))
  {
    hide Latency, Instr.SrcAccesses, Instr.DstAccesses, Instr.Writes, DependencyToCycle, OpAt;
    var mid := Before(uses, instr, OwnKeys(instr.DstAccesses(), b, ip));
    var x, k :| x in Unhidden(instr) && k in uses && k.reg == x.0 && Conflict(x.1, k.access)
                && start == DependencyToCycle(cycles, b, ip, k, uses[k], Latency(sm, instr, x.1, OpAt(f, k), k.access));
    assert k in mid && mid[k] == uses[k];
  }

  /** The sources that the instruction does not overwrite. */
  function Unhidden(instr: Instr): set<(Reg, Access)> {
    set x | x in instr.SrcAccesses() && !instr.Writes(x.0)
  }

  lemma LastCycle(sm: Sm, one: Instr, two: Instr)
    ensures var s := Run([[one, two]], sm, 0, 1, map[]);
            && s.cycles == [LastStart(sm, two)] && |s.bars| == NUM_BARS
            && (forall k :: k in s.uses <==> k in OwnKeys(two.Accesses(), 0, 1))
            && forall i :: 0 <= i < NUM_BARS ==> s.bars[i] == if i in two.waits then LastStart(sm, two) else 0
  {
    hide Max, Instr.Accesses, Instr.SrcAccesses, Instr.DstAccesses, Latency, Starts, OwnGaps;
    var f, none := [[one, two]], Sched([], map[], seq(NUM_BARS, i => 0));
    assert Run(f, sm, 0, 2, map[]) == none;
    assert Run(f, sm, 0, 1, map[]) == Step(f, sm, 0, 1, none);
    assert none.bars == NO_BARS;
    SrcStarts(f, sm, 0, 1, two, [], map[]);
    NothingAfter(f, sm, 1, two);
    assert AllStarts(f, sm, 0, 1, two, none) == {sm.exec(two.op), BarStart(NO_BARS, two.rdBar), BarStart(NO_BARS, two.wrBar)} + OwnGaps(sm, two, 0);
  }

  lemma NothingAfter(f: seq<Block>, sm: Sm, ip: nat, instr: Instr)
    ensures Starts(f, sm, 0, ip, instr, instr.DstAccesses(), [], map[]) == {} && Starts(f, sm, 0, ip, instr, Unhidden(instr), [], map[]) == {}
  {
  }

  /** What the accesses of the first instruction ask for. */
  lemma FirstStarts(sm: Sm, one: Instr, two: Instr, end: nat, uses: Uses)
    requires forall k :: k in uses <==> k in OwnKeys(two.Accesses(), 0, 1)
    ensures var f := [[one, two]];
            Starts(f, sm, 0, 0, one, one.DstAccesses(), [end], uses) + Starts(f, sm, 0, 0, one, Unhidden(one), [end], uses) ==
            set g | g in PairGaps(sm, one, two) :: end + g
  {
    hide Starts, PairGaps, OwnKeys, Instr.Accesses, Instr.DstAccesses, Unhidden;
    var f := [[one, two]];
    var left := Starts(f, sm, 0, 0, one, one.DstAccesses(), [end], uses) + Starts(f, sm, 0, 0, one, Unhidden(one), [end], uses);
    var right := set g | g in PairGaps(sm, one, two) :: end + g;
    forall start | start in left
      ensures start in right
    {
      var accesses := if start in Starts(f, sm, 0, 0, one, one.DstAccesses(), [end], uses) then one.DstAccesses() else Unhidden(one);
      StartIsGap(sm, one, two, end, uses, accesses, start);
    }
    forall start | start in right
      ensures start in left
    {
      var g :| g in PairGaps(sm, one, two) && start == end + g;
      GapIsStart(sm, one, two, end, uses, g);
    }
  }

  lemma StartIsGap(sm: Sm, one: Instr, two: Instr, end: nat, uses: Uses, accesses: set<(Reg, Access)>, start: nat)
    requires forall k :: k in uses <==> k in OwnKeys(two.Accesses(), 0, 1)
    requires accesses in {one.DstAccesses(), Unhidden(one)} && start in Starts([[one, two]], sm, 0, 0, one, accesses, [end], uses)
    ensures start >= end && start - end in PairGaps(sm, one, two)
  {
    hide Latency, Instr.Accesses, Instr.SrcAccesses, Instr.DstAccesses, Instr.Writes, PairGaps;
    var f := [[one, two]];
    var x, k :| x in accesses && k in uses && k.reg == x.0 && Conflict(x.1, k.access)
                && start == DependencyToCycle([end], 0, 0, k, uses[k], Latency(sm, one, x.1, OpAt(f, k), k.access));
    var y :| y in two.Accesses() && k == Key(y.0, 0, 1, y.1);
    assert f[0][1] == two && OpAt(f, k) == two.op;
    PairGap(sm, one, two, x, y);
  }

  lemma GapIsStart(sm: Sm, one: Instr, two: Instr, end: nat, uses: Uses, g: nat)
    requires (forall k :: k in uses <==> k in OwnKeys(two.Accesses(), 0, 1)) && g in PairGaps(sm, one, two)
    ensures var f := [[one, two]];
            end + g in Starts(f, sm, 0, 0, one, one.DstAccesses(), [end], uses) + Starts(f, sm, 0, 0, one, Unhidden(one), [end], uses)
  {
    hide Latency, Instr.Accesses, Instr.SrcAccesses, Instr.DstAccesses, Instr.Writes;
    AccessKinds(one);
    var f := [[one, two]];
    var x, y :| x in one.SrcAccesses() + one.DstAccesses() && y in two.Accesses() && x.0 == y.0 && Conflict(x.1, y.1) && (x.1.Src? ==> !one.Writes(x.0))
                && g == Latency(sm, one, x.1, two.op, y.1);
    var k := Key(y.0, 0, 1, y.1);
    assert k in OwnKeys(two.Accesses(), 0, 1);
    assert f[0][1] == two && OpAt(f, k) == two.op;
    assert end + g == DependencyToCycle([end], 0, 0, k, uses[k], Latency(sm, one, x.1, OpAt(f, k), k.access));
    assert x in one.DstAccesses() || x in Unhidden(one);
  }

  lemma PairGap(sm: Sm, one: Instr, two: Instr, x: (Reg, Access), y: (Reg, Access))
    requires x in one.DstAccesses() + Unhidden(one) && y in two.Accesses() && x.0 == y.0 && Conflict(x.1, y.1)
    ensures Latency(sm, one, x.1, two.op, y.1) in PairGaps(sm, one, two)
  {
    hide Latency, Instr.Accesses, Instr.SrcAccesses, Instr.DstAccesses, Instr.Writes;
    AccessKinds(one);
  }

  /** The first of two instructions starts exactly as much earlier as something asks for. */
  lemma PairCycles(sm: Sm, one: Instr, two: Instr)
    ensures Run([[one, two]], sm, 0, 0, map[]).cycles == [LastStart(sm, two) + Spacing(sm, one, two), LastStart(sm, two)]
  {
    hide Max, Instr.Accesses, Instr.SrcAccesses, Instr.DstAccesses, Latency, Starts, OwnGaps, PairGaps, Gaps, Unhidden, LastStart;
    var f, end := [[one, two]], LastStart(sm, two);
    var s := Run(f, sm, 0, 1, map[]);
    LastCycle(sm, one, two);
    assert Run(f, sm, 0, 0, map[]) == Step(f, sm, 0, 0, s);
    SrcStarts(f, sm, 0, 0, one, s.cycles, s.uses);
    FirstStarts(sm, one, two, end, s.uses);
    PairMax(f, sm, one, two, s, end);
  }

  lemma PairMax(f: seq<Block>, sm: Sm, one: Instr, two: Instr, s: Sched, end: nat)
    requires s.cycles == [end] && |s.bars| == NUM_BARS && forall i :: 0 <= i < NUM_BARS ==> s.bars[i] == if i in two.waits then end else 0
    requires Starts(f, sm, 0, 0, one, one.SrcAccesses(), s.cycles, Before(s.uses, one, OwnKeys(one.DstAccesses(), 0, 0))) ==
             Starts(f, sm, 0, 0, one, Unhidden(one), s.cycles, s.uses) + OwnGaps(sm, one, 0)
    requires Starts(f, sm, 0, 0, one, one.DstAccesses(), s.cycles, s.uses) + Starts(f, sm, 0, 0, one, Unhidden(one), s.cycles, s.uses) ==
             set g | g in PairGaps(sm, one, two) :: end + g
    ensures Max(AllStarts(f, sm, 0, 0, one, s)) == end + Max(Gaps(sm, one, two, end))
  {
    hide Max, Instr.Accesses, Instr.SrcAccesses, Instr.DstAccesses, Latency, Starts, OwnGaps, PairGaps, Unhidden, Before;
    var starts, gaps := AllStarts(f, sm, 0, 0, one, s), Gaps(sm, one, two, end);
    var m := Max(gaps);
    var pairs := set g | g in PairGaps(sm, one, two) :: end + g;
    assert sm.exec(one.op) in gaps;
    assert starts == {end + sm.exec(one.op), BarStart(s.bars, one.rdBar), BarStart(s.bars, one.wrBar)} + pairs + OwnGaps(sm, one, 0);
    forall start | start in starts
      ensures start <= end + m
    {
      if start in OwnGaps(sm, one, 0) {
        OwnGapLater(sm, one, start, end);
        assert Monus(start, end) in gaps;
      } else if start in pairs {
        assert start - end in gaps;
      } else {
        assert BarGap(two, one.rdBar, end) in gaps && BarGap(two, one.wrBar, end) in gaps;
      }
    }
    assert end + m in starts by {
      if m in OwnGaps(sm, one, end) && m > sm.exec(one.op) {
        OwnGapFrom(sm, one, m, end);
      } else if m in PairGaps(sm, one, two) {
        assert end + m in pairs;
      }
    }
    assert IsMax(starts, end + m);
    MaxUnique(starts, end + m);
  }

  lemma OwnGapLater(sm: Sm, one: Instr, g: nat, end: nat)
    requires g in OwnGaps(sm, one, 0)
    ensures Monus(g, end) in OwnGaps(sm, one, end)
  {
    hide Latency;
    var x, y :| x in one.SrcAccesses() && y in one.DstAccesses() && x.0 == y.0 && g == Monus(Latency(sm, one, x.1, one.op, y.1), 0);
    assert Monus(g, end) == Monus(Latency(sm, one, x.1, one.op, y.1), end);
  }

  lemma OwnGapFrom(sm: Sm, one: Instr, g: nat, end: nat)
    requires g in OwnGaps(sm, one, end) && g > 0
    ensures end + g in OwnGaps(sm, one, 0)
  {
    hide Latency;
    var x, y :| x in one.SrcAccesses() && y in one.DstAccesses() && x.0 == y.0 && g == Monus(Latency(sm, one, x.1, one.op, y.1), end);
    assert end + g == Monus(Latency(sm, one, x.1, one.op, y.1), 0);
  }

  /** Between two instructions, and nothing else, passes exactly the time that something asks for: a latency
      is kept if and only if it is not longer.  What a read asks for that its own instruction overwrites is
      not among that. */
  lemma PairElapsed(sm: Sm, one: Instr, two: Instr, delays: seq<seq<seq<nat>>>, x1: (Reg, Access), x2: (Reg, Access))
    requires Scheduled([[one, two]], sm, [[]], delays) && Conflict(x1.1, x2.1)
    ensures |delays| == 1 && |delays[0]| == 2
    ensures Elapsed(delays, 0, [0], 1) == EmittedDelay(one, sm, MaxOf(MIN_INSTR_DELAY, Spacing(sm, one, two)))
    ensures Elapsed(delays, 0, [0], 1) >= Latency(sm, one, x1.1, two.op, x2.1) <==>
            Latency(sm, one, x1.1, two.op, x2.1) <= EmittedDelay(one, sm, MaxOf(MIN_INSTR_DELAY, Spacing(sm, one, two)))
  {
    hide Latency, Spacing, Run, Covers, Total;
    var f: seq<Block>, pred: seq<seq<nat>> := [[one, two]], [[]];
    var ins: seq<BlockIn>, outs :| Analysed(f, sm, pred, ins, outs) && Emitted(f, sm, CyclesOf(ins), delays);
    assert IsLast(pred, 0);
    assert Transfer(f, sm, 0, ins[0], outs[0]).0 == ins[0];
    PairCycles(sm, one, two);
    assert BlockEmitted(f[0], sm, CyclesOf(ins)[0], delays[0]);
    assert InstrEmitted(one, sm, ins[0].cycles, delays[0][0], 0);
    assert Span(delays[0], 0, 1) == Total(delays[0][0]) + Span(delays[0], 1, 1);
  }
}
