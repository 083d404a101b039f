/** Exactly when no order that the dependency graph allows changes what an instruction reads
    (crates/deko-nak/src/opt_instr_sched_postpass.rs). */
module PostpassOrders {
  import opened Machine
  import opened ReorderedRuns
  import opened PostpassGraph

  /** Every instruction reads in this order what it reads in program order. */
  ghost predicate ReadsKept<V(!new), W(!new)>(m: Meaning<V, W>, instrs: seq<Instr>, order: seq<nat>, s: Config<V, W>)
    requires IsPermutation(order, |instrs|)
  {
    forall d :: 0 <= d < |order| ==>
      Operands(instrs[order[d]], StateAt(m, instrs, Identity(|instrs|), s, order[d]).regs) == Operands(instrs[order[d]], StateAt(m, instrs, order, s, d).regs)
  }

  /** When every guard is joined to the next write of its register, instructions read what they read, and
      the block computes what it computed. */
  lemma GuardsLeadIsEnough<V(!new), W(!new)>(m: Meaning<V, W>, instrs: seq<Instr>, g: seq<seq<Edge>>, order: seq<nat>, s: Config<V, W>)
    requires GraphOk(instrs, g) && GuardsLead(instrs, g) && IsPermutation(order, |instrs|) && Respects(g, order)
    ensures ReadsKept(m, instrs, order, s) && Same(Run(m, instrs, Identity(|instrs|), s), Run(m, instrs, order, s))
  {
    hide GraphOk, Respects, GuardsLead, KeepsOrder, Operands, Run, Same, StateAt, Before;
    OrderKeepsMeaning(m, instrs, g, order, s);
    RespectingKeepsOrder(instrs, g, order);
    SameElements(order, |instrs|);
    forall d | 0 <= d < |order|
      ensures Operands(instrs[order[d]], StateAt(m, instrs, Identity(|instrs|), s, order[d]).regs) ==
              Operands(instrs[order[d]], StateAt(m, instrs, order, s, d).regs)
    {
      ReadsSame(m, instrs, Identity(|instrs|), order, s, order[d], d);
      SameOperands(instrs[order[d]], StateAt(m, instrs, Identity(|instrs|), s, order[d]).regs, StateAt(m, instrs, order, s, d).regs);
    }
  }

  // ----- The order that puts an instruction as late as the graph allows -----

  /** The instructions before `n` that can be reached from `i`, or those that cannot, in program order. */
  ghost function Select(g: seq<seq<Edge>>, i: nat, n: nat, reached: bool): (order: seq<nat>)
    ensures forall x :: x in order <==> 0 <= x < n && (Leads(g, i, x) <==> reached)
    ensures forall j, k :: 0 <= j < k < |order| ==> order[j] < order[k]
  {
    if n == 0 then [] else
      var before := Select(g, i, n - 1, reached);
      assert forall k :: 0 <= k < |before| ==> before[k] in before;
      before + if Leads(g, i, n - 1) <==> reached then [n - 1] else []
  }

  ghost function Late(g: seq<seq<Edge>>, i: nat, n: nat): seq<nat> {
    Select(g, i, n, false) + Select(g, i, n, true)
  }

  lemma {:induction false} SelectAll(g: seq<seq<Edge>>, i: nat, n: nat)
    ensures |Select(g, i, n, false)| + |Select(g, i, n, true)| == n
  {
    if n > 0 {
      SelectAll(g, i, n - 1);
    }
  }

  lemma LateIsPermutation(g: seq<seq<Edge>>, i: nat, n: nat)
    ensures IsPermutation(Late(g, i, n), n)
  {
    hide Select, Leads;
    SelectAll(g, i, n);
    var a, b, order := Select(g, i, n, false), Select(g, i, n, true), Late(g, i, n);
    forall k | 0 <= k < n
      ensures order[k] < n
    {
      assert order[k] in a || order[k] in b;
    }
    forall j, k | 0 <= j < k < n
      ensures order[j] != order[k]
    {
      if j < |a| <= k {
        assert order[j] in a && order[k] in b;
      }
    }
  }

  lemma LateOrder(g: seq<seq<Edge>>, i: nat, n: nat, x: nat, y: nat)
    requires x < n && y < n && if Leads(g, i, x) <==> Leads(g, i, y) then x < y else Leads(g, i, y)
    ensures Before(Late(g, i, n), x, y)
  {
    hide Select, Leads;
    var a, b, order := Select(g, i, n, false), Select(g, i, n, true), Late(g, i, n);
    if Leads(g, i, x) {
      var j :| 0 <= j < |b| && b[j] == x;
      var k :| 0 <= k < |b| && b[k] == y;
      assert order[|a| + j] == x && order[|a| + k] == y;
    } else if Leads(g, i, y) {
      var j :| 0 <= j < |a| && a[j] == x;
      var k :| 0 <= k < |b| && b[k] == y;
      assert order[j] == x && order[|a| + k] == y;
    } else {
      var j :| 0 <= j < |a| && a[j] == x;
      var k :| 0 <= k < |a| && a[k] == y;
      assert order[j] == x && order[k] == y;
    }
  }

  lemma {:induction false} LeadsOn(g: seq<seq<Edge>>, i: nat, x: nat, k: nat)
    requires Leads(g, i, x) && x < |g| && k < |g[x]| && x < g[x][k].head
    ensures Leads(g, i, g[x][k].head)
    decreases if i < |g| then |g| - i else 0
  {
    if i == x {
      assert Leads(g, g[x][k].head, g[x][k].head);
    } else {
      var l :| 0 <= l < |g[i]| && i < g[i][l].head && Leads(g, g[i][l].head, x);
      LeadsOn(g, g[i][l].head, x, k);
    }
  }

  lemma LateRespects(instrs: seq<Instr>, g: seq<seq<Edge>>, i: nat)
    requires GraphOk(instrs, g)
    ensures Respects(g, Late(g, i, |g|))
  {
    hide Leads, Late, ToEffects, ToWrites, ToReads, Needed;
    forall x, k | 0 <= x < |g| && 0 <= k < |g[x]|
      ensures Before(Late(g, i, |g|), x, g[x][k].head)
    {
      assert NodeOk(instrs, x, g[x]);
      if Leads(g, i, x) {
        LeadsOn(g, i, x, k);
      }
      LateOrder(g, i, |g|, x, g[x][k].head);
    }
  }

  // ----- Numbers tell which write is read -----

  /** Every instruction writes its own number, plus one. */
  const NUMBERS: Meaning<int, int> := Meaning((id, vals, w) => (i: nat) => id + 1, (id, vals, w) => w)
  const ZEROES: Config<int, int> := Config(r => 0, 0)

  lemma {:induction false} AssignNumber(regs: Reg -> int, dsts: seq<Reg>, results: nat -> int, v: int, n: nat, r: Reg)
    requires n <= |dsts| && forall i :: results(i) == v
    ensures Assign(regs, dsts, results, n)(r) == if r in dsts[..n] then v else regs(r)
  {
    if n > 0 {
      assert dsts[..n] == dsts[..n - 1] + [dsts[n - 1]];
      AssignNumber(regs, dsts, results, v, n - 1, r);
    }
  }

  lemma StepNumber(id: nat, instr: Instr, s: Config<int, int>, r: Reg)
    ensures Step(NUMBERS, id, instr, s).regs(r) == if instr.Writes(r) then id + 1 else s.regs(r)
  {
    hide Assign, Operands;
    var seen := if instr.effect.Pure? then None else Some(s.world);
    assert instr.dsts[..|instr.dsts|] == instr.dsts;
    AssignNumber(s.regs, instr.dsts, NUMBERS.value(id, Operands(instr, s.regs), seen), id + 1, |instr.dsts|, r);
  }

  lemma {:induction false} NumbersBelow(instrs: seq<Instr>, ids: seq<nat>, bound: nat, r: Reg)
    requires forall i :: 0 <= i < |ids| ==> ids[i] < |instrs| && ids[i] < bound
    ensures Run(NUMBERS, instrs, ids, ZEROES).regs(r) <= bound
  {
    hide Step;
    if ids != [] {
      var last, shorter := ids[|ids| - 1], ids[..|ids| - 1];
      assert forall i :: 0 <= i < |shorter| ==> shorter[i] == ids[i];
      NumbersBelow(instrs, shorter, bound, r);
      StepNumber(last, instrs[last], Run(NUMBERS, instrs, shorter, ZEROES), r);
    }
  }

  lemma {:induction false} NumberAtLeast(instrs: seq<Instr>, ids: seq<nat>, c: nat, r: Reg)
    requires c < |ids| && (forall i :: 0 <= i < |ids| ==> ids[i] < |instrs|) && (forall i :: c < i < |ids| ==> ids[c] < ids[i])
    requires instrs[ids[c]].Writes(r)
    ensures Run(NUMBERS, instrs, ids, ZEROES).regs(r) > ids[c]
  {
    hide Step;
    var last, shorter := ids[|ids| - 1], ids[..|ids| - 1];
    if c < |shorter| {
      assert forall i :: 0 <= i < |shorter| ==> shorter[i] == ids[i];
      NumberAtLeast(instrs, shorter, c, r);
    }
    StepNumber(last, instrs[last], Run(NUMBERS, instrs, shorter, ZEROES), r);
  }

  // ----- The condition is exact -----

  /** Where a guard is not joined to the next write, an order that the graph allows makes the instruction
      read that write. */
  lemma GuardReadsLater(instrs: seq<Instr>, g: seq<seq<Edge>>, i: nat, r: Reg, w: nat)
    requires GraphOk(instrs, g) && i < |instrs| && r in instrs[i].guards && FirstWrite(instrs, r, i + 1, w) && !Leads(g, i, w)
    ensures IsPermutation(Late(g, i, |g|), |instrs|) && Respects(g, Late(g, i, |g|)) && !ReadsKept(NUMBERS, instrs, Late(g, i, |g|), ZEROES)
  {
    hide GraphOk, Select, Run, Respects, ReadsKept, IsPermutation, NoWrites;
    GraphLength(instrs, g);
    var n := |g|;
    var a, order := Select(g, i, n, false), Late(g, i, n);
    LateIsPermutation(g, i, n);
    LateRespects(instrs, g, i);
    FirstOfReached(g, i, n);
    assert w in a;
    var c :| 0 <= c < |a| && a[c] == w;
    assert forall k :: 0 <= k < |a| ==> a[k] in a;
    NumberAtLeast(instrs, a, c, r);
    assert order[..|a|] == a;
    NumbersBelow(instrs, Identity(|instrs|)[..i], i, r);
    GuardDiffers(instrs, order, |a|, i, r);
  }

  lemma GraphLength(instrs: seq<Instr>, g: seq<seq<Edge>>)
    requires GraphOk(instrs, g)
    ensures |g| == |instrs|
  {
  }

  lemma FirstOfReached(g: seq<seq<Edge>>, i: nat, n: nat)
    requires i < n
    ensures var a, order := Select(g, i, n, false), Late(g, i, n); |a| < |order| && order[|a|] == i
  {
    hide Select;
    var b := Select(g, i, n, true);
    assert i in b;
    var k :| 0 <= k < |b| && b[k] == i;
    if k > 0 {
      assert b[0] in b && b[0] < i;
      LeadsForward(g, i, b[0]);
    }
  }

  lemma {:induction false} LeadsForward(g: seq<seq<Edge>>, x: nat, y: nat)
    requires Leads(g, x, y)
    ensures x <= y
    decreases if x < |g| then |g| - x else 0
  {
    if x != y {
      var k :| 0 <= k < |g[x]| && x < g[x][k].head && Leads(g, g[x][k].head, y);
      LeadsForward(g, g[x][k].head, y);
    }
  }

  lemma GuardDiffers(instrs: seq<Instr>, order: seq<nat>, d: nat, i: nat, r: Reg)
    requires IsPermutation(order, |instrs|) && d < |order| && order[d] == i && r in instrs[i].guards
    requires Run(NUMBERS, instrs, Identity(|instrs|)[..i], ZEROES).regs(r) <= i < Run(NUMBERS, instrs, order[..d], ZEROES).regs(r)
    ensures !ReadsKept(NUMBERS, instrs, order, ZEROES)
  {
    hide Run;
    var k :| 0 <= k < |instrs[i].guards| && instrs[i].guards[k] == r;
    var before, now := StateAt(NUMBERS, instrs, Identity(|instrs|), ZEROES, i), StateAt(NUMBERS, instrs, order, ZEROES, d);
    assert Operands(instrs[i], before.regs)[k] == before.regs(r) && Operands(instrs[i], now.regs)[k] == now.regs(r);
  }

  /** All orders that the graph allows let every instruction read what it reads in program order, exactly
      when every guard is joined to the next write of its register. */
  lemma ReadsKeptIff(instrs: seq<Instr>, g: seq<seq<Edge>>)
    requires GraphOk(instrs, g)
    ensures GuardsLead(instrs, g) <==>
            forall order, m: Meaning<int, int>, s: Config<int, int> :: IsPermutation(order, |instrs|) && Respects(g, order) ==> ReadsKept(m, instrs, order, s)
  {
    hide GraphOk, Respects, ReadsKept, IsPermutation, Leads, Late;
    if GuardsLead(instrs, g) {
      forall order, m: Meaning<int, int>, s: Config<int, int> | IsPermutation(order, |instrs|) && Respects(g, order)
        ensures ReadsKept(m, instrs, order, s)
      {
        GuardsLeadIsEnough(m, instrs, g, order, s);
      }
    } else {
      var i: nat, r, w :| i < |instrs| && r in instrs[i].guards && FirstWrite(instrs, r, i + 1, w) && !Leads(g, i, w);
      GuardReadsLater(instrs, g, i, r, w);
    }
  }
}
