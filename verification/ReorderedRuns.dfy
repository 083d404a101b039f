/** What it means for reordered instructions to do the same (the promise of
    crates/deko-nak/src/opt_instr_sched_postpass.rs and opt_instr_sched_common.rs). */
module ReorderedRuns {
  import opened Machine

  /** How an instruction acts outside the registers. */
  datatype SideEffect = Pure | Memory | Barrier

  /** An instruction: the registers of its guard, of its sources and of its destinations. */
  datatype Instr = Instr(op: nat, guards: seq<Reg>, srcs: seq<Reg>, dsts: seq<Reg>, effect: SideEffect)
  {
    predicate Reads(r: Reg) {
      r in guards || r in srcs
    }

    predicate Writes(r: Reg) {
      r in dsts
    }

    predicate Touches(r: Reg) {
      Reads(r) || Writes(r)
    }
  }

  // ----- Runs -----

  /** The registers and the rest of the machine. */
  datatype Config<!V, !W> = Config(regs: Reg -> V, world: W)

  /** What an instruction computes from its guard, its sources and the old contents of its destinations
      (which a guarded instruction may leave alone), and what it does to the rest of the machine. */
  datatype Meaning<!V, !W> = Meaning(value: (nat, seq<V>, Option<W>) -> (nat -> V), act: (nat, seq<V>, W) -> W)

  ghost function Values<V>(rs: seq<Reg>, regs: Reg -> V): seq<V> {
    seq(|rs|, i requires 0 <= i < |rs| => regs(rs[i]))
  }

  ghost function Operands<V>(instr: Instr, regs: Reg -> V): seq<V> {
    Values(instr.guards, regs) + Values(instr.srcs, regs) + Values(instr.dsts, regs)
  }

  ghost function Assign<V>(regs: Reg -> V, dsts: seq<Reg>, results: nat -> V, n: nat): Reg -> V
    requires n <= |dsts|
  {
    if n == 0 then regs else
      var before := Assign(regs, dsts, results, n - 1);
      (r: Reg) => if r == dsts[n - 1] then results(n - 1) else before(r)
  }

  /** Only instructions with an effect see the rest of the machine. */
  ghost function Step<V, W>(m: Meaning<V, W>, id: nat, instr: Instr, s: Config<V, W>): Config<V, W> {
    var vals := Operands(instr, s.regs);
    var seen := if instr.effect.Pure? then None else Some(s.world);
    Config(Assign(s.regs, instr.dsts, m.value(id, vals, seen), |instr.dsts|), if instr.effect.Pure? then s.world else m.act(id, vals, s.world))
  }

  /** The instructions `ids`, one after the other. */
  ghost function Run<V, W>(m: Meaning<V, W>, instrs: seq<Instr>, ids: seq<nat>, s: Config<V, W>): Config<V, W>
    requires forall i :: 0 <= i < |ids| ==> ids[i] < |instrs|
  {
    if ids == [] then s else Step(m, ids[|ids| - 1], instrs[ids[|ids| - 1]], Run(m, instrs, ids[..|ids| - 1], s))
  }

  ghost predicate Same<V, W>(s: Config<V, W>, t: Config<V, W>) {
    s.world == t.world && forall r :: s.regs(r) == t.regs(r)
  }

  // ----- Which instructions can change places -----

  predicate Conflict(a: Instr, b: Instr) {
    || (exists r :: r in a.dsts && b.Touches(r))
    || (exists r :: r in b.dsts && a.Touches(r))
    || (a.effect.Memory? && b.effect.Memory?) || a.effect.Barrier? || b.effect.Barrier?
  }

  lemma {:induction false} AssignAt<V>(regs: Reg -> V, dsts: seq<Reg>, results: nat -> V, n: nat, r: Reg)
    requires n <= |dsts|
    ensures r !in dsts[..n] ==> Assign(regs, dsts, results, n)(r) == regs(r)
  {
    if n > 0 {
      AssignAt(regs, dsts, results, n - 1, r);
      assert dsts[..n] == dsts[..n - 1] + [dsts[n - 1]];
    }
  }

  lemma {:induction false} AssignFrom<V>(regs: Reg -> V, regs': Reg -> V, dsts: seq<Reg>, results: nat -> V, n: nat, r: Reg)
    requires n <= |dsts| && (regs(r) == regs'(r) || r in dsts[..n])
    ensures Assign(regs, dsts, results, n)(r) == Assign(regs', dsts, results, n)(r)
  {
    if n > 0 && r != dsts[n - 1] {
      assert dsts[..n] == dsts[..n - 1] + [dsts[n - 1]];
      AssignFrom(regs, regs', dsts, results, n - 1, r);
    }
  }

  lemma StepOutside<V, W>(m: Meaning<V, W>, id: nat, instr: Instr, s: Config<V, W>, r: Reg)
    ensures r !in instr.dsts ==> Step(m, id, instr, s).regs(r) == s.regs(r)
  {
    hide Assign, Operands;
    var seen := if instr.effect.Pure? then None else Some(s.world);
    assert instr.dsts[..|instr.dsts|] == instr.dsts;
    AssignAt(s.regs, instr.dsts, m.value(id, Operands(instr, s.regs), seen), |instr.dsts|, r);
  }

  /** An instruction depends on the registers it touches. */
  lemma SameOperands<V>(instr: Instr, regs: Reg -> V, regs': Reg -> V)
    requires forall r :: instr.Touches(r) ==> regs(r) == regs'(r)
    ensures Operands(instr, regs) == Operands(instr, regs')
  {
    SameValues(instr.guards, regs, regs');
    SameValues(instr.srcs, regs, regs');
    SameValues(instr.dsts, regs, regs');
  }

  lemma SameValues<V>(rs: seq<Reg>, regs: Reg -> V, regs': Reg -> V)
    requires forall r :: r in rs ==> regs(r) == regs'(r)
    ensures Values(rs, regs) == Values(rs, regs')
  {
    forall i | 0 <= i < |rs|
      ensures regs(rs[i]) == regs'(rs[i])
    {
      assert rs[i] in rs;
    }
  }

  /** The effect of a step on one register, when what it touches is the same in two states. */
  lemma StepAt<V, W>(m: Meaning<V, W>, id: nat, instr: Instr, s: Config<V, W>, t: Config<V, W>, r: Reg)
    requires (forall q :: instr.Touches(q) ==> s.regs(q) == t.regs(q)) && (instr.effect.Pure? || s.world == t.world)
    requires s.regs(r) == t.regs(r) || r in instr.dsts
    ensures Step(m, id, instr, s).regs(r) == Step(m, id, instr, t).regs(r)
  {
    hide Operands, Assign;
    SameOperands(instr, s.regs, t.regs);
    var seen := if instr.effect.Pure? then None else Some(s.world);
    assert instr.dsts[..|instr.dsts|] == instr.dsts;
    AssignFrom(s.regs, t.regs, instr.dsts, m.value(id, Operands(instr, s.regs), seen), |instr.dsts|, r);
  }

  lemma StepSame<V, W>(m: Meaning<V, W>, id: nat, instr: Instr, s: Config<V, W>, t: Config<V, W>)
    requires Same(s, t)
    ensures Same(Step(m, id, instr, s), Step(m, id, instr, t))
  {
    hide Operands, Assign;
    forall r
      ensures Step(m, id, instr, s).regs(r) == Step(m, id, instr, t).regs(r)
    {
      StepAt(m, id, instr, s, t, r);
    }
    SameOperands(instr, s.regs, t.regs);
  }

  lemma NoConflict(a: Instr, b: Instr, r: Reg)
    requires !Conflict(a, b)
    ensures (r in a.dsts ==> !b.Touches(r)) && (r in b.dsts ==> !a.Touches(r)) && (a.effect.Pure? || b.effect.Pure?)
  {
  }

  /** Two instructions without a conflict can change places. */
  lemma Commute<V, W>(m: Meaning<V, W>, ia: nat, a: Instr, ib: nat, b: Instr, s: Config<V, W>)
    requires !Conflict(a, b)
    ensures Same(Step(m, ib, b, Step(m, ia, a, s)), Step(m, ia, a, Step(m, ib, b, s)))
  {
    hide Conflict, Step;
    var sa, sb := Step(m, ia, a, s), Step(m, ib, b, s);
    forall q
      ensures b.Touches(q) ==> sa.regs(q) == s.regs(q)
      ensures a.Touches(q) ==> sb.regs(q) == s.regs(q)
    {
      NoConflict(a, b, q);
      StepOutside(m, ia, a, s, q);
      StepOutside(m, ib, b, s, q);
    }
    NoConflict(a, b, Reg(GPR, 0));
    WorldAfter(m, ia, a, s);
    WorldAfter(m, ib, b, s);
    forall r
      ensures Step(m, ib, b, sa).regs(r) == Step(m, ia, a, sb).regs(r)
    {
      NoConflict(a, b, r);
      StepOutside(m, ib, b, sa, r);
      StepOutside(m, ia, a, sb, r);
      if r in a.dsts {
        StepAt(m, ia, a, sb, s, r);
      } else if r in b.dsts {
        StepAt(m, ib, b, sa, s, r);
      }
      StepOutside(m, ia, a, s, r);
      StepOutside(m, ib, b, s, r);
    }
    CommuteWorld(m, ia, a, ib, b, s);
  }

  lemma WorldAfter<V, W>(m: Meaning<V, W>, id: nat, instr: Instr, s: Config<V, W>)
    ensures instr.effect.Pure? ==> Step(m, id, instr, s).world == s.world
  {
  }

  lemma CommuteWorld<V, W>(m: Meaning<V, W>, ia: nat, a: Instr, ib: nat, b: Instr, s: Config<V, W>)
    requires !Conflict(a, b)
    requires forall q :: (b.Touches(q) ==> Step(m, ia, a, s).regs(q) == s.regs(q)) && (a.Touches(q) ==> Step(m, ib, b, s).regs(q) == s.regs(q))
    ensures Step(m, ib, b, Step(m, ia, a, s)).world == Step(m, ia, a, Step(m, ib, b, s)).world
  {
    hide Conflict, Assign, Operands;
    NoConflict(a, b, Reg(GPR, 0));
    SameOperands(b, Step(m, ia, a, s).regs, s.regs);
    SameOperands(a, Step(m, ib, b, s).regs, s.regs);
  }

  // ----- Reordering -----

  ghost predicate AreIds(instrs: seq<Instr>, ids: seq<nat>) {
    (forall i :: 0 <= i < |ids| ==> ids[i] < |instrs|) && forall i, j :: 0 <= i < j < |ids| ==> ids[i] != ids[j]
  }

  /** `x` comes before `y`. */
  ghost predicate Before(ids: seq<nat>, x: nat, y: nat) {
    exists i, j :: 0 <= i < j < |ids| && ids[i] == x && ids[j] == y
  }

  /** Instructions with a conflict keep their order. */
  ghost predicate KeepsOrder(instrs: seq<Instr>, ids: seq<nat>, order: seq<nat>)
    requires AreIds(instrs, ids)
  {
    forall i, j :: 0 <= i < j < |ids| && Conflict(instrs[ids[i]], instrs[ids[j]]) ==> Before(order, ids[i], ids[j])
  }

  lemma {:induction false} RunSame<V, W>(m: Meaning<V, W>, instrs: seq<Instr>, ids: seq<nat>, s: Config<V, W>, t: Config<V, W>)
    requires (forall i :: 0 <= i < |ids| ==> ids[i] < |instrs|) && Same(s, t)
    ensures Same(Run(m, instrs, ids, s), Run(m, instrs, ids, t))
  {
    hide Step, Same;
    if ids != [] {
      RunSame(m, instrs, ids[..|ids| - 1], s, t);
      StepSame(m, ids[|ids| - 1], instrs[ids[|ids| - 1]], Run(m, instrs, ids[..|ids| - 1], s), Run(m, instrs, ids[..|ids| - 1], t));
    }
  }

  lemma {:induction false} RunSplit<V, W>(m: Meaning<V, W>, instrs: seq<Instr>, a: seq<nat>, b: seq<nat>, s: Config<V, W>)
    requires (forall i :: 0 <= i < |a| ==> a[i] < |instrs|) && forall i :: 0 <= i < |b| ==> b[i] < |instrs|
    ensures Run(m, instrs, a + b, s) == Run(m, instrs, b, Run(m, instrs, a, s))
    decreases |b|
  {
    hide Step;
    if b == [] {
      assert a + b == a;
    } else {
      assert (a + b)[..|a + b| - 1] == a + b[..|b| - 1];
      RunSplit(m, instrs, a, b[..|b| - 1], s);
    }
  }

  lemma SameTwice<V, W>(s: Config<V, W>, t: Config<V, W>, u: Config<V, W>)
    requires Same(s, t) && Same(t, u)
    ensures Same(s, u) && Same(t, s)
  {
  }

  /** An instruction without a conflict with those before it can go first. */
  lemma {:induction false} MoveToFront<V, W>(m: Meaning<V, W>, instrs: seq<Instr>, ids: seq<nat>, k: nat, s: Config<V, W>)
    requires k < |instrs| && forall i :: 0 <= i < |ids| ==> ids[i] < |instrs| && !Conflict(instrs[ids[i]], instrs[k])
    ensures Same(Run(m, instrs, ids + [k], s), Run(m, instrs, ids, Step(m, k, instrs[k], s)))
  {
    hide Step, Same, Conflict;
    assert (ids + [k])[..|ids|] == ids;
    if ids == [] {
      StaysSame(Step(m, k, instrs[k], s));
    } else {
      var last, shorter := ids[|ids| - 1], ids[..|ids| - 1];
      assert forall i :: 0 <= i < |shorter| ==> shorter[i] == ids[i];
      MoveToFront(m, instrs, shorter, k, s);
      assert (shorter + [k])[..|shorter|] == shorter;
      var t := Run(m, instrs, shorter, s);
      assert Run(m, instrs, ids, s) == Step(m, last, instrs[last], t);
      assert Run(m, instrs, ids + [k], s) == Step(m, k, instrs[k], Run(m, instrs, ids, s));
      assert Run(m, instrs, shorter + [k], s) == Step(m, k, instrs[k], t);
      Commute(m, last, instrs[last], k, instrs[k], t);
      StepSame(m, last, instrs[last], Step(m, k, instrs[k], t), Run(m, instrs, shorter, Step(m, k, instrs[k], s)));
      SameTwice(Run(m, instrs, ids + [k], s), Step(m, last, instrs[last], Step(m, k, instrs[k], t)), Run(m, instrs, ids, Step(m, k, instrs[k], s)));
    }
  }

  lemma StaysSame<V, W>(s: Config<V, W>)
    ensures Same(s, s)
  {
  }

  /** Instructions in an order that keeps all conflicts do what they did. */
  lemma {:induction false} Reordered<V, W>(m: Meaning<V, W>, instrs: seq<Instr>, ids: seq<nat>, order: seq<nat>, s: Config<V, W>)
    requires AreIds(instrs, ids) && AreIds(instrs, order) && (forall x :: x in ids <==> x in order) && KeepsOrder(instrs, ids, order)
    ensures Same(Run(m, instrs, ids, s), Run(m, instrs, order, s))
    decreases |order|
  {
    hide Step, Same, Conflict;
    assert |ids| > 0 ==> ids[0] in order;
    if order == [] {
      StaysSame(s);
    } else {
      var k := order[0];
      assert k in ids;
      var c :| 0 <= c < |ids| && ids[c] == k;
      var rest := ids[..c] + ids[c + 1..];
      FirstHasNoConflict(instrs, ids, order, c);
      MoveToFront(m, instrs, ids[..c], k, s);
      WithoutFirst(instrs, ids, order, c);
      Reordered(m, instrs, rest, order[1..], Step(m, k, instrs[k], s));
      TakeOut(m, instrs, ids, order, c, s);
    }
  }

  lemma FirstHasNoConflict(instrs: seq<Instr>, ids: seq<nat>, order: seq<nat>, c: nat)
    requires AreIds(instrs, ids) && AreIds(instrs, order) && KeepsOrder(instrs, ids, order) && order != [] && c < |ids| && ids[c] == order[0]
    ensures forall i :: 0 <= i < c ==> !Conflict(instrs[ids[i]], instrs[ids[c]])
  {
    hide Conflict;
  }

  lemma WithoutFirst(instrs: seq<Instr>, ids: seq<nat>, order: seq<nat>, c: nat)
    requires AreIds(instrs, ids) && AreIds(instrs, order) && (forall x :: x in ids <==> x in order) && KeepsOrder(instrs, ids, order)
    requires order != [] && c < |ids| && ids[c] == order[0]
    ensures var rest := ids[..c] + ids[c + 1..];
            AreIds(instrs, rest) && AreIds(instrs, order[1..]) && (forall x :: x in rest <==> x in order[1..]) && KeepsOrder(instrs, rest, order[1..])
  {
    hide Conflict;
    var rest := ids[..c] + ids[c + 1..];
    assert AreIds(instrs, rest);
    forall x
      ensures x in rest <==> x in order[1..]
    {
      InWithout(ids, c, x);
      assert order == [order[0]] + order[1..];
      if x in order[1..] {
        var i :| 0 <= i < |order[1..]| && order[1..][i] == x;
        assert order[i + 1] == x;
      }
    }
    forall i, j | 0 <= i < j < |rest| && Conflict(instrs[rest[i]], instrs[rest[j]])
      ensures Before(order[1..], rest[i], rest[j])
    {
      var i', j' := if i < c then i else i + 1, if j < c then j else j + 1;
      assert rest[i] == ids[i'] && rest[j] == ids[j'];
      BeforeInRest(order, ids[i'], ids[j']);
    }
  }

  lemma InWithout(ids: seq<nat>, c: nat, x: nat)
    requires c < |ids| && forall i, j :: 0 <= i < j < |ids| ==> ids[i] != ids[j]
    ensures x in ids[..c] + ids[c + 1..] <==> x in ids && x != ids[c]
  {
    if x in ids && x != ids[c] {
      var i :| 0 <= i < |ids| && ids[i] == x;
      assert (ids[..c] + ids[c + 1..])[if i < c then i else i - 1] == x;
    }
  }

  lemma BeforeInRest(order: seq<nat>, x: nat, y: nat)
    requires Before(order, x, y) && x != order[0]
    ensures Before(order[1..], x, y)
  {
    var i, j :| 0 <= i < j < |order| && order[i] == x && order[j] == y;
    assert order[1..][i - 1] == x && order[1..][j - 1] == y;
  }

  lemma RunOne<V, W>(m: Meaning<V, W>, instrs: seq<Instr>, k: nat, s: Config<V, W>)
    requires k < |instrs|
    ensures Run(m, instrs, [k], s) == Step(m, k, instrs[k], s)
  {
    hide Step;
    assert [k][..0] == [];
    assert Run(m, instrs, [k][..0], s) == s;
  }

  lemma TakeOut<V, W>(m: Meaning<V, W>, instrs: seq<Instr>, ids: seq<nat>, order: seq<nat>, c: nat, s: Config<V, W>)
    requires AreIds(instrs, ids) && AreIds(instrs, order) && order != [] && c < |ids| && ids[c] == order[0]
    requires var k := order[0]; Same(Run(m, instrs, ids[..c] + [k], s), Run(m, instrs, ids[..c], Step(m, k, instrs[k], s)))
    requires var k, rest := order[0], ids[..c] + ids[c + 1..];
             AreIds(instrs, rest) && Same(Run(m, instrs, rest, Step(m, k, instrs[k], s)), Run(m, instrs, order[1..], Step(m, k, instrs[k], s)))
    ensures Same(Run(m, instrs, ids, s), Run(m, instrs, order, s))
  {
    hide Step, Same, Run;
    var k := order[0];
    var t := Step(m, k, instrs[k], s);
    RunOne(m, instrs, k, s);
    assert ids == (ids[..c] + [k]) + ids[c + 1..];
    RunSplit(m, instrs, ids[..c] + [k], ids[c + 1..], s);
    RunSame(m, instrs, ids[c + 1..], Run(m, instrs, ids[..c] + [k], s), Run(m, instrs, ids[..c], t));
    RunSplit(m, instrs, ids[..c], ids[c + 1..], t);
    assert order == [k] + order[1..];
    RunSplit(m, instrs, [k], order[1..], s);
    SameTwice(Run(m, instrs, ids, s), Run(m, instrs, ids[..c] + ids[c + 1..], t), Run(m, instrs, order, s));
  }

  // ----- What each instruction reads -----

  /** The state in which instruction `x` of the sequence starts. */
  ghost function StateAt<V, W>(m: Meaning<V, W>, instrs: seq<Instr>, ids: seq<nat>, s: Config<V, W>, c: nat): Config<V, W>
    requires c <= |ids| && forall i :: 0 <= i < |ids| ==> ids[i] < |instrs|
  {
    Run(m, instrs, ids[..c], s)
  }

  ghost predicate SameTouched<V, W>(instr: Instr, s: Config<V, W>, t: Config<V, W>) {
    forall r :: instr.Touches(r) ==> s.regs(r) == t.regs(r)
  }

  /** Instructions without a conflict leave alone what an instruction touches. */
  lemma {:induction false} LeftAlone<V, W>(m: Meaning<V, W>, instrs: seq<Instr>, ids: seq<nat>, x: nat, s: Config<V, W>)
    requires x < |instrs| && forall i :: 0 <= i < |ids| ==> ids[i] < |instrs| && !Conflict(instrs[ids[i]], instrs[x])
    ensures SameTouched(instrs[x], Run(m, instrs, ids, s), s)
  {
    hide Step;
    if ids != [] {
      var last, shorter := ids[|ids| - 1], ids[..|ids| - 1];
      assert forall i :: 0 <= i < |shorter| ==> shorter[i] == ids[i];
      LeftAlone(m, instrs, shorter, x, s);
      forall r | instrs[x].Touches(r)
        ensures r !in instrs[last].dsts
      {
        assert !Conflict(instrs[last], instrs[x]);
      }
      forall r | instrs[x].Touches(r)
        ensures Run(m, instrs, ids, s).regs(r) == s.regs(r)
      {
        StepOutside(m, last, instrs[last], Run(m, instrs, shorter, s), r);
      }
    }
  }

  /** In an order that keeps all conflicts every instruction finds what it found. */
  lemma {:induction false} ReadsSame<V, W>(m: Meaning<V, W>, instrs: seq<Instr>, ids: seq<nat>, order: seq<nat>, s: Config<V, W>, c: nat, d: nat)
    requires AreIds(instrs, ids) && AreIds(instrs, order) && (forall x :: x in ids <==> x in order) && KeepsOrder(instrs, ids, order)
    requires c < |ids| && d < |order| && ids[c] == order[d]
    ensures SameTouched(instrs[ids[c]], StateAt(m, instrs, ids, s, c), StateAt(m, instrs, order, s, d))
    decreases |order|
  {
    hide Step, Same, Conflict, SameTouched, Run;
    var k, x := order[0], ids[c];
    assert k in ids;
    var e :| 0 <= e < |ids| && ids[e] == k;
    FirstHasNoConflict(instrs, ids, order, e);
    if d == 0 {
      assert e == c && order[..0] == [];
      LeftAlone(m, instrs, ids[..c], x, s);
      RunNone(m, instrs, s);
    } else {
      var rest, t := ids[..e] + ids[e + 1..], Step(m, k, instrs[k], s);
      WithoutFirst(instrs, ids, order, e);
      var c' := if c < e then c else c - 1;
      assert order[1..][d - 1] == x && rest[c'] == x;
      ReadsSame(m, instrs, rest, order[1..], t, c', d - 1);
      RunOne(m, instrs, k, s);
      assert order[..d] == [k] + order[1..][..d - 1];
      RunSplit(m, instrs, [k], order[1..][..d - 1], s);
      if c < e {
        assert ids[..c] == rest[..c];
        assert !Conflict(instrs[x], instrs[k]);
        SkippedLater(m, instrs, ids[..c], x, k, s);
      } else {
        SkippedEarlier(m, instrs, ids, e, c, s);
      }
      TouchedTwice(instrs[x], StateAt(m, instrs, ids, s, c), StateAt(m, instrs, rest, t, c'), StateAt(m, instrs, order, s, d));
    }
  }

  lemma RunNone<V, W>(m: Meaning<V, W>, instrs: seq<Instr>, s: Config<V, W>)
    ensures Run(m, instrs, [], s) == s
  {
  }

  lemma TouchedTwice<V, W>(instr: Instr, s: Config<V, W>, t: Config<V, W>, u: Config<V, W>)
    requires SameTouched(instr, s, t) && SameTouched(instr, t, u)
    ensures SameTouched(instr, s, u)
  {
  }

  /** Running `k` first makes no difference to an instruction that it has no conflict with... */
  lemma SkippedLater<V, W>(m: Meaning<V, W>, instrs: seq<Instr>, before: seq<nat>, x: nat, k: nat, s: Config<V, W>)
    requires x < |instrs| && k < |instrs| && !Conflict(instrs[x], instrs[k])
    requires forall i :: 0 <= i < |before| ==> before[i] < |instrs| && !Conflict(instrs[before[i]], instrs[k])
    ensures SameTouched(instrs[x], Run(m, instrs, before, s), Run(m, instrs, before, Step(m, k, instrs[k], s)))
  {
    hide Step;
    MoveToFront(m, instrs, before, k, s);
    assert (before + [k])[..|before|] == before;
    forall r | instrs[x].Touches(r)
      ensures Run(m, instrs, before, s).regs(r) == Run(m, instrs, before, Step(m, k, instrs[k], s)).regs(r)
    {
      StepOutside(m, k, instrs[k], Run(m, instrs, before, s), r);
    }
  }

  /** ...and neither does running it first where it runs earlier anyway. */
  lemma SkippedEarlier<V, W>(m: Meaning<V, W>, instrs: seq<Instr>, ids: seq<nat>, e: nat, c: nat, s: Config<V, W>)
    requires AreIds(instrs, ids) && e < c < |ids| && forall i :: 0 <= i < e ==> !Conflict(instrs[ids[i]], instrs[ids[e]])
    ensures var rest, k := ids[..e] + ids[e + 1..], ids[e];
            AreIds(instrs, rest) && SameTouched(instrs[ids[c]], StateAt(m, instrs, ids, s, c), StateAt(m, instrs, rest, Step(m, k, instrs[k], s), c - 1))
  {
    hide Step, Conflict, Run, Same;
    var k, rest := ids[e], ids[..e] + ids[e + 1..];
    var t := Step(m, k, instrs[k], s);
    MoveToFront(m, instrs, ids[..e], k, s);
    assert ids[..c] == (ids[..e] + [k]) + ids[e + 1..c] && rest[..c - 1] == ids[..e] + ids[e + 1..c];
    RunSplit(m, instrs, ids[..e] + [k], ids[e + 1..c], s);
    RunSplit(m, instrs, ids[..e], ids[e + 1..c], t);
    RunSame(m, instrs, ids[e + 1..c], Run(m, instrs, ids[..e] + [k], s), Run(m, instrs, ids[..e], t));
    SameIsTouched(instrs[ids[c]], Run(m, instrs, ids[..c], s), Run(m, instrs, rest[..c - 1], t));
  }

  lemma SameIsTouched<V, W>(instr: Instr, s: Config<V, W>, t: Config<V, W>)
    requires Same(s, t)
    ensures SameTouched(instr, s, t)
  {
  }
}
