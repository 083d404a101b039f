/** Lowering of parallel copies to sequential copies and swaps
    (crates/deko-nak/src/lower_par_copies.rs). */
module LowerParCopies {
  import opened Machine

  /** The temporary handed to a parallel copy: `comps` consecutive GPRs. */
  datatype Tmp = Tmp(base: nat, comps: nat)
  {
    function Comp(c: nat): Reg
      requires c < comps
    {
      Reg(GPR, base + c)
    }

    ghost function Regs(): iset<Reg> {
      iset r: Reg | r.file == GPR && base <= r.idx < base + comps
    }
  }

  datatype ParCopy = ParCopy(copies: seq<Copy>, tmp: Option<Tmp>)
  {
    ghost function TmpRegs(): iset<Reg> {
      if tmp.Some? then tmp.value.Regs() else iset{}
    }

    /** What the pass asserts of its input, and that the temporary is nobody's operand. */
    ghost predicate Valid() {
      && DistinctDsts(copies)
      && (tmp.Some? ==> tmp.value.comps > 0)
      && forall i :: 0 <= i < |copies| ==>
           copies[i].dst !in TmpRegs() && (copies[i].src.FromReg? ==> copies[i].src.reg !in TmpRegs())
    }

    /** Registers on a common cycle share a file: true when a copy whose source is itself a
        destination stays within one file. */
    ghost predicate CyclesStayInFile() {
      forall i :: 0 <= i < |copies| && copies[i].src.FromReg? && IsDst(copies, copies[i].src.reg)
        ==> copies[i].src.reg.file == copies[i].dst.file
    }

    /** Two temporaries are at hand, or no barrier or memory register is written. */
    ghost predicate EnoughTmps() {
      || (tmp.Some? && tmp.value.comps >= 2)
      || forall i :: 0 <= i < |copies| ==> copies[i].dst.file != Bar && copies[i].dst.file != Mem
    }
  }

  datatype Instr = CopyTo(dst: Reg, src: Src) | Swap(x: Reg, y: Reg)

  function Exec(i: Instr, s: State): State {
    match i
    case CopyTo(dst, src) => Write(s, dst, Eval(src, s))
    case Swap(x, y) => Write(Write(s, x, s(y)), y, s(x))
  }

  function Run(code: seq<Instr>, s: State): State {
    if code == [] then s else Exec(code[|code| - 1], Run(code[..|code| - 1], s))
  }

  /** Whether a copy has no direct machine form and must go through a temporary. */
  predicate CopyNeedsTmp(dst: Reg, src: Src) {
    match src
    case FromReg(r) => (dst.file == Mem && r.file != GPR) || (dst.file == Bar && r.file == Bar)
    case Fixed(_) => dst.file == Mem
  }

  /** Instructions the next pass has a machine form for. */
  predicate Lowerable(i: Instr) {
    match i
    case CopyTo(dst, src) => !CopyNeedsTmp(dst, src)
    case Swap(x, y) => x.file == y.file && x.file != Mem
  }

  // ----- The copy graph -----

  datatype CopyNode = CopyNode(numReads: nat, src: int)

  /** The nodes that still wait to be copied. */
  ghost function Pending(nodes: seq<CopyNode>): set<nat> {
    set i: nat | i < |nodes| && nodes[i].src >= 0
  }

  /** The pending nodes that read node `j`. */
  ghost function Readers(nodes: seq<CopyNode>, j: nat): set<nat> {
    set i: nat | i < |nodes| && nodes[i].src == j
  }

  ghost predicate GraphOk(nodes: seq<CopyNode>) {
    && (forall i: nat :: i < |nodes| ==> -1 <= nodes[i].src < |nodes| && nodes[i].src != i)
    && (forall j: nat :: j < |nodes| ==> Counted(nodes, j))
  }

  ghost predicate Counted(nodes: seq<CopyNode>, j: nat)
    requires j < |nodes|
  {
    nodes[j].numReads == |Readers(nodes, j)|
  }

  /** Every pending node reads a pending node, and no node has two readers: what is left of the
      graph consists of cycles. */
  ghost predicate OnlyCycles(nodes: seq<CopyNode>) {
    && (forall i {:trigger Source(nodes, i)} :: i in Pending(nodes) ==> Source(nodes, i) in Pending(nodes))
    && (forall i, j {:trigger Source(nodes, i), Source(nodes, j)} ::
          i in Pending(nodes) && j in Pending(nodes) && Source(nodes, i) == Source(nodes, j) ==> i == j)
  }

  ghost function Source(nodes: seq<CopyNode>, i: nat): nat
    requires i in Pending(nodes)
  {
    nodes[i].src
  }

  /** The graph with `src` as the source of `dst` (none if it is -1) and both ends recounted. */
  function Relinked(nodes: seq<CopyNode>, dst: nat, src: int, counted: nat, count: nat): seq<CopyNode>
    requires dst < |nodes| && counted < |nodes| && counted != dst
  {
    nodes[dst := nodes[dst].(src := src)][counted := nodes[counted].(numReads := count)]
  }

  /** Redirecting the one edge into `dst` changes the readers of its old and of its new source by
      exactly `dst`, and nobody else's. */
  lemma RelinkedReaders(was: seq<CopyNode>, dst: nat, src: int, counted: nat, count: nat, j: nat)
    requires dst < |was| && counted < |was| && counted != dst
    ensures Readers(Relinked(was, dst, src, counted, count), j) ==
              if src == j then Readers(was, j) + {dst} else Readers(was, j) - {dst}
  {
  }

  lemma RelinkedCounted(was: seq<CopyNode>, dst: nat, src: int, counted: nat, count: nat, j: nat)
    requires dst < |was| && counted < |was| && counted != dst && j < |was|
    requires Counted(was, j)
    requires (src == j) != (was[dst].src == j) ==> counted == j
    requires counted == j ==>
               count == was[j].numReads + (if src == j then 1 else 0) - (if was[dst].src == j then 1 else 0)
    ensures Counted(Relinked(was, dst, src, counted, count), j)
  {
    var before := Readers(was, j);
    RelinkedReaders(was, dst, src, counted, count, j);
    assert was[dst].src == j <==> dst in before;
    if src == j && dst !in before {
      assert |before + {dst}| == |before| + 1;
    } else if src == j {
      assert before + {dst} == before;
    } else if dst in before {
      assert |before - {dst}| == |before| - 1;
    } else {
      assert before - {dst} == before;
    }
  }

  lemma AddEdgeOk(was: seq<CopyNode>, dst: nat, src: nat)
    requires GraphOk(was) && dst < |was| && src < |was| && dst != src && was[dst].src == -1
    ensures GraphOk(Relinked(was, dst, src, src, was[src].numReads + 1))
  {
    var count := was[src].numReads + 1;
    forall j: nat | j < |was|
      ensures Counted(Relinked(was, dst, src, src, count), j)
    {
      RelinkedCounted(was, dst, src, src, count, j);
    }
  }

  lemma DelEdgeOk(was: seq<CopyNode>, dst: nat, src: nat)
    requires GraphOk(was) && dst < |was| && src < |was| && was[dst].src == src
    ensures was[src].numReads > 0
    ensures GraphOk(Relinked(was, dst, -1, src, was[src].numReads - 1))
  {
    assert Counted(was, src) && dst in Readers(was, src);
    var count := was[src].numReads - 1;
    forall j: nat | j < |was|
      ensures Counted(Relinked(was, dst, -1, src, count), j)
    {
      RelinkedCounted(was, dst, -1, src, count, j);
    }
  }

  class CopyGraph {
    var nodes: seq<CopyNode>

    constructor ()
      ensures nodes == []
    {
      nodes := [];
    }

    method AddNode() returns (idx: nat)
      requires GraphOk(nodes)
      modifies this
      ensures GraphOk(nodes)
      ensures idx == |old(nodes)| && nodes == old(nodes) + [CopyNode(0, -1)]
      ensures Pending(nodes) == Pending(old(nodes))
    {
      idx := |nodes|;
      nodes := nodes + [CopyNode(0, -1)];
      forall j: nat | j < |nodes|
        ensures Counted(nodes, j)
      {
        if j < idx {
          assert Counted(old(nodes), j);
          assert Readers(nodes, j) == Readers(old(nodes), j);
        } else {
          assert Readers(nodes, j) == {};
        }
      }
    }

    method AddEdge(dst: nat, src: nat)
      requires GraphOk(nodes) && dst < |nodes| && src < |nodes|
      requires dst != src && nodes[dst].src == -1
      modifies this
      ensures GraphOk(nodes) && |nodes| == |old(nodes)|
      ensures nodes[dst].src == src
      ensures forall i :: 0 <= i < |nodes| && i != dst ==> nodes[i].src == old(nodes)[i].src
      ensures Pending(nodes) == Pending(old(nodes)) + {dst}
    {
      AddEdgeOk(nodes, dst, src);
      nodes := nodes[dst := nodes[dst].(src := src)];
      nodes := nodes[src := nodes[src].(numReads := nodes[src].numReads + 1)];
    }

    method DelEdge(dst: nat, src: nat) returns (unread: bool)
      requires GraphOk(nodes) && dst < |nodes| && src < |nodes|
      requires nodes[dst].src == src
      modifies this
      ensures GraphOk(nodes) && |nodes| == |old(nodes)|
      ensures nodes[dst].src == -1
      ensures forall i :: 0 <= i < |nodes| && i != dst ==> nodes[i].src == old(nodes)[i].src
      ensures Pending(nodes) == Pending(old(nodes)) - {dst}
      ensures unread <==> nodes[src].numReads == 0
      ensures forall j :: 0 <= j < |nodes| && j != src ==> nodes[j].numReads == old(nodes)[j].numReads
    {
      DelEdgeOk(nodes, dst, src);
      nodes := nodes[dst := nodes[dst].(src := -1)];
      nodes := nodes[src := nodes[src].(numReads := nodes[src].numReads - 1)];
      unread := nodes[src].numReads == 0;
    }
  }

  // ----- Why only cycles remain -----

  /** The nodes that the pending nodes in `dsts` read. */
  ghost function Sources(nodes: seq<CopyNode>, dsts: set<nat>): set<nat>
    requires dsts <= Pending(nodes)
  {
    set i | i in dsts :: Source(nodes, i)
  }

  lemma {:induction false} SourcesBound(nodes: seq<CopyNode>, dsts: set<nat>)
    requires dsts <= Pending(nodes)
    ensures |Sources(nodes, dsts)| <= |dsts|
  {
    if dsts != {} {
      var d :| d in dsts;
      var rest := dsts - {d};
      SourcesBound(nodes, rest);
      assert Sources(nodes, dsts) == Sources(nodes, rest) + {Source(nodes, d)};
    }
  }

  lemma {:induction false} SubsetSize<T>(a: set<T>, b: set<T>)
    requires a <= b
    ensures |a| <= |b|
    ensures |a| == |b| ==> a == b
  {
    if a != {} {
      var x :| x in a;
      SubsetSize(a - {x}, b - {x});
    }
  }

  /** Two members with one source leave too few sources to cover all members. */
  lemma SharedSourceDropsOne(nodes: seq<CopyNode>, dsts: set<nat>, i: nat, j: nat)
    requires dsts <= Pending(nodes)
    requires i in dsts && j in dsts && i != j && Source(nodes, i) == Source(nodes, j)
    ensures |Sources(nodes, dsts)| < |dsts|
  {
    var rest := dsts - {i};
    SourcesBound(nodes, rest);
    assert Source(nodes, j) in Sources(nodes, rest);
    assert Sources(nodes, dsts) == Sources(nodes, rest);
  }

  /** The counting argument: once every pending node is read by somebody, what is left of the
      graph is a union of disjoint cycles. */
  lemma OnlyCyclesRemain(nodes: seq<CopyNode>)
    requires GraphOk(nodes)
    requires forall i :: i in Pending(nodes) ==> nodes[i].numReads > 0
    ensures OnlyCycles(nodes)
  {
    var p := Pending(nodes);
    forall i | i in p
      ensures i in Sources(nodes, p)
    {
      assert Counted(nodes, i);
      var r :| r in Readers(nodes, i);
      assert r in p && Source(nodes, r) == i;
    }
    SourcesBound(nodes, p);
    SubsetSize(p, Sources(nodes, p));
    forall i, j | i in p && j in p && Source(nodes, i) == Source(nodes, j)
      ensures i == j
    {
      if i != j {
        SharedSourceDropsOne(nodes, p, i, j);
      }
    }
    forall i | i in p
      ensures Source(nodes, i) in p
    {
      assert Source(nodes, i) in Sources(nodes, p);
    }
  }

  /** Off the cycles, nobody reads anything. */
  lemma IsolatedNodesAreUnread(nodes: seq<CopyNode>, i: nat)
    requires GraphOk(nodes) && OnlyCycles(nodes) && i < |nodes| && i !in Pending(nodes)
    ensures nodes[i].numReads == 0
  {
    assert Counted(nodes, i);
    assert forall r :: r in Readers(nodes, i) ==> r in Pending(nodes) && Source(nodes, r) == i;
    assert forall r :: r in Pending(nodes) ==> Source(nodes, r) != i;
    assert Readers(nodes, i) == {};
  }

  // ----- What has been copied so far -----

  /** Node `i < |pc.copies|` is the register written by copy `i`; the other nodes are the remaining
      sources.  No register has two nodes, and no node is a temporary. */
  ghost predicate Layout(pc: ParCopy, nodes: seq<CopyNode>, vals: seq<Src>) {
    && |vals| == |nodes| >= |pc.copies|
    && (forall i :: 0 <= i < |pc.copies| ==> vals[i] == FromReg(pc.copies[i].dst))
    && (forall i, j :: 0 <= i < j < |vals| && vals[i].FromReg? ==> vals[i] != vals[j])
    && (forall i :: 0 <= i < |vals| && vals[i].FromReg? ==> vals[i].reg !in pc.TmpRegs())
    && (forall i :: i in Pending(nodes) ==> i < |pc.copies|)
  }

  /** Where the value that copy `i` has to deliver can be found in state `cur`: a finished copy has
      delivered it, a pending one still finds it in its source. */
  ghost predicate Deliverable(pc: ParCopy, nodes: seq<CopyNode>, vals: seq<Src>, s0: State, cur: State, i: nat)
    requires i < |pc.copies| <= |nodes| <= |vals| && GraphOk(nodes)
  {
    Eval(pc.copies[i].src, s0) == if i in Pending(nodes) then Eval(vals[Source(nodes, i)], cur) else cur(pc.copies[i].dst)
  }

  ghost predicate Tracks(pc: ParCopy, nodes: seq<CopyNode>, vals: seq<Src>, s0: State, cur: State)
    requires |pc.copies| <= |nodes| <= |vals| && GraphOk(nodes)
  {
    && (forall i: nat :: i < |pc.copies| ==> Deliverable(pc, nodes, vals, s0, cur, i))
    && Untouched(pc, s0, cur)
  }

  /** The same after running `b` from any start state. */
  ghost predicate TracksAll(pc: ParCopy, nodes: seq<CopyNode>, vals: seq<Src>, b: seq<Instr>)
    requires |pc.copies| <= |nodes| <= |vals| && GraphOk(nodes)
  {
    forall s0: State {:trigger Run(b, s0)} :: Tracks(pc, nodes, vals, s0, Run(b, s0))
  }

  ghost predicate Untouched(pc: ParCopy, s0: State, cur: State) {
    forall r: Reg :: !IsDst(pc.copies, r) && r !in pc.TmpRegs() ==> cur(r) == s0(r)
  }

  /** A copy cycle stays within one register file. */
  ghost predicate FilesAgree(pc: ParCopy, nodes: seq<CopyNode>)
    requires |pc.copies| <= |nodes| && GraphOk(nodes)
  {
    forall i {:trigger Source(nodes, i)} :: i in Pending(nodes) && i < |pc.copies| && Source(nodes, i) < |pc.copies|
      ==> pc.copies[Source(nodes, i)].dst.file == pc.copies[i].dst.file
  }

  /** Executing the copy into node `i` keeps every other value deliverable, provided no other
      pending node finds its value in a register the copy wrote. */
  lemma TracksStep(pc: ParCopy, nodes: seq<CopyNode>, nodes': seq<CopyNode>, vals: seq<Src>,
                   s0: State, cur: State, cur': State, i: nat)
    requires |pc.copies| <= |nodes| <= |vals| && |nodes'| == |nodes| && GraphOk(nodes) && GraphOk(nodes')
    requires pc.Valid() && Tracks(pc, nodes, vals, s0, cur)
    requires i in Pending(nodes) && i < |pc.copies|
    requires nodes'[i].src == -1
    requires forall q :: 0 <= q < |nodes| && q != i ==> nodes'[q].src == nodes[q].src
    requires cur'(pc.copies[i].dst) == Eval(vals[Source(nodes, i)], cur)
    requires forall r: Reg :: r != pc.copies[i].dst && r !in pc.TmpRegs() ==> cur'(r) == cur(r)
    requires forall q :: q in Pending(nodes) && q != i ==>
               Eval(vals[Source(nodes, q)], cur') == Eval(vals[Source(nodes, q)], cur)
    ensures Tracks(pc, nodes', vals, s0, cur')
  {
    assert Deliverable(pc, nodes, vals, s0, cur, i);
    forall q: nat | q < |pc.copies|
      ensures Deliverable(pc, nodes', vals, s0, cur', q)
    {
      assert Deliverable(pc, nodes, vals, s0, cur, q);
      if q != i {
        assert q in Pending(nodes') <==> q in Pending(nodes);
        if q in Pending(nodes) {
          assert Source(nodes', q) == Source(nodes, q);
        } else {
          assert pc.copies[q].dst != pc.copies[i].dst;
        }
      }
    }
    assert IsDst(pc.copies, pc.copies[i].dst);
  }

  /** Swapping the registers of `j` and `k` on a cycle `i <- j <- k` delivers `j`'s value, and
      leaves `i`'s in the register of `k`. */
  lemma TracksSwap(pc: ParCopy, nodes: seq<CopyNode>, nodes': seq<CopyNode>, vals: seq<Src>,
                   s0: State, cur: State, cur': State, i: nat, j: nat, k: nat)
    requires GraphOk(nodes) && GraphOk(nodes') && |nodes'| == |nodes|
    requires pc.Valid() && Layout(pc, nodes, vals) && Tracks(pc, nodes, vals, s0, cur)
    requires OnlyCycles(nodes)
    requires i in Pending(nodes) && j in Pending(nodes) && Source(nodes, i) == j && Source(nodes, j) == k
    requires nodes'[i].src == (if i == k then -1 else k) && nodes'[j].src == -1
    requires forall q :: 0 <= q < |nodes| && q != i && q != j ==> nodes'[q].src == nodes[q].src
    requires k < |pc.copies|
    requires cur'(pc.copies[j].dst) == cur(pc.copies[k].dst) && cur'(pc.copies[k].dst) == cur(pc.copies[j].dst)
    requires forall r: Reg :: r != pc.copies[j].dst && r != pc.copies[k].dst ==> cur'(r) == cur(r)
    ensures Tracks(pc, nodes', vals, s0, cur')
  {
    assert Deliverable(pc, nodes, vals, s0, cur, i);
    assert Deliverable(pc, nodes, vals, s0, cur, j);
    assert j != k && i != j;
    forall q: nat | q < |pc.copies|
      ensures Deliverable(pc, nodes', vals, s0, cur', q)
    {
      assert Deliverable(pc, nodes, vals, s0, cur, q);
      if q == i {
        if i != k {
          assert Source(nodes', i) == k;
        }
      } else if q != j {
        assert q in Pending(nodes') <==> q in Pending(nodes);
        if q in Pending(nodes) {
          var m := Source(nodes, q);
          assert Source(nodes', q) == m;
          assert m != j && m != k;
          assert vals[m] != vals[j] && vals[m] != vals[k];
        } else {
          assert q != k;
          assert pc.copies[q].dst != pc.copies[j].dst && pc.copies[q].dst != pc.copies[k].dst;
        }
      }
    }
    assert IsDst(pc.copies, pc.copies[j].dst) && IsDst(pc.copies, pc.copies[k].dst);
  }

  lemma SourceIsRead(nodes: seq<CopyNode>, i: nat)
    requires GraphOk(nodes) && i in Pending(nodes)
    ensures nodes[Source(nodes, i)].numReads > 0
  {
    assert Counted(nodes, Source(nodes, i)) && i in Readers(nodes, Source(nodes, i));
  }

  /** A node nobody waits to read can be overwritten. */
  lemma UnreadStep(pc: ParCopy, nodes: seq<CopyNode>, nodes': seq<CopyNode>, vals: seq<Src>,
                   s0: State, cur: State, cur': State, i: nat)
    requires pc.Valid() && GraphOk(nodes) && GraphOk(nodes') && |nodes'| == |nodes|
    requires Layout(pc, nodes, vals) && Tracks(pc, nodes, vals, s0, cur)
    requires i in Pending(nodes) && nodes[i].numReads == 0
    requires nodes'[i].src == -1
    requires forall q :: 0 <= q < |nodes| && q != i ==> nodes'[q].src == nodes[q].src
    requires cur'(pc.copies[i].dst) == Eval(vals[Source(nodes, i)], cur)
    requires forall r: Reg :: r != pc.copies[i].dst && r !in pc.TmpRegs() ==> cur'(r) == cur(r)
    ensures Tracks(pc, nodes', vals, s0, cur')
  {
    assert Counted(nodes, i);
    assert forall q :: q in Pending(nodes) && Source(nodes, q) == i ==> q in Readers(nodes, i);
    forall q | q in Pending(nodes) && q != i
      ensures Eval(vals[Source(nodes, q)], cur') == Eval(vals[Source(nodes, q)], cur)
    {
      assert vals[Source(nodes, q)] != vals[i];
    }
    TracksStep(pc, nodes, nodes', vals, s0, cur, cur', i);
  }

  lemma RunSnoc(code: seq<Instr>, i: Instr, s: State)
    ensures Run(code + [i], s) == Exec(i, Run(code, s))
  {
    assert (code + [i])[..|code|] == code;
  }

  ghost predicate AllLowerable(code: seq<Instr>) {
    forall k :: 0 <= k < |code| ==> Lowerable(code[k])
  }

  // ----- The pass -----

  /** Which cycles are rotated with swaps.  `None` is the panic for a missing temporary. */
  function CycleUseSwap(pc: ParCopy, file: RegFile): (r: Option<bool>)
    ensures r.None? ==> (file == Bar || file == Mem) && (pc.tmp.None? || pc.tmp.value.comps < 2)
    ensures r == Some(true) ==> file != Bar && file != Mem
    ensures r == Some(false) ==> pc.tmp.Some? && (file == Bar || file == Mem ==> pc.tmp.value.comps >= 2)
    ensures r == Some(false) ==> file in {GPR, Bar, Mem}
  {
    match file
    case GPR => Some(pc.tmp.None?)
    case Bar => if pc.tmp.Some? && pc.tmp.value.comps >= 2 then Some(false) else None
    case Mem => if pc.tmp.Some? && pc.tmp.value.comps >= 2 then Some(false) else None
    case _ => Some(true)
  }

  /** Builds one node per destination and per further source, and one edge per copy that is not a
      no-op. */
  method BuildGraph(pc: ParCopy) returns (g: CopyGraph, vals: seq<Src>)
    requires pc.Valid()
    ensures fresh(g)
    ensures GraphOk(g.nodes) && Layout(pc, g.nodes, vals) && TracksAll(pc, g.nodes, vals, [])
    ensures pc.CyclesStayInFile() ==> FilesAgree(pc, g.nodes)
  {
    var regToIdx;
    g, vals, regToIdx := AddDsts(pc);
    vals := AddCopies(pc, g, vals, regToIdx);
    EdgesTrack(pc, g.nodes, vals);
  }

  method AddCopies(pc: ParCopy, g: CopyGraph, vals0: seq<Src>, regToIdx0: map<Reg, nat>) returns (vals: seq<Src>)
    requires pc.Valid() && GraphOk(g.nodes) && Layout(pc, g.nodes, vals0) && Indexed(vals0, regToIdx0)
    requires forall i :: 0 <= i < |pc.copies| ==> g.nodes[i].src == -1
    modifies g
    ensures GraphOk(g.nodes) && Layout(pc, g.nodes, vals)
    ensures forall i :: 0 <= i < |pc.copies| ==> EdgeBuilt(pc, g.nodes, vals, i)
  {
    hide GraphOk, Indexed, ParCopy.Valid;
    vals := vals0;
    var regToIdx := regToIdx0;
    for dst := 0 to |pc.copies|
      invariant GraphOk(g.nodes) && Layout(pc, g.nodes, vals) && Indexed(vals, regToIdx)
      invariant forall i :: 0 <= i < dst ==> EdgeBuilt(pc, g.nodes, vals, i)
      invariant forall i :: dst <= i < |pc.copies| ==> g.nodes[i].src == -1
    {
      ghost var nodes, vals1 := g.nodes, vals;
      vals, regToIdx := AddCopy(pc, g, vals, regToIdx, dst);
      EdgesStay(pc, nodes, vals1, g.nodes, vals, dst);
    }
  }

  lemma EdgesStay(pc: ParCopy, nodes: seq<CopyNode>, vals: seq<Src>, nodes': seq<CopyNode>, vals': seq<Src>, n: nat)
    requires n <= |pc.copies| <= |nodes| <= |vals| && GraphOk(nodes)
    requires forall i :: 0 <= i < n ==> EdgeBuilt(pc, nodes, vals, i)
    requires |nodes| <= |nodes'| <= |vals'| && GraphOk(nodes') && vals <= vals'
    requires forall i :: 0 <= i < n ==> nodes'[i].src == nodes[i].src
    ensures forall i :: 0 <= i < n ==> EdgeBuilt(pc, nodes', vals', i)
  {
    forall i | 0 <= i < n
      ensures EdgeBuilt(pc, nodes', vals', i)
    {
      assert EdgeBuilt(pc, nodes, vals, i);
      assert i in Pending(nodes') <==> i in Pending(nodes);
    }
  }

  method AddDsts(pc: ParCopy) returns (g: CopyGraph, vals: seq<Src>, regToIdx: map<Reg, nat>)
    requires pc.Valid()
    ensures fresh(g) && GraphOk(g.nodes) && Layout(pc, g.nodes, vals) && Indexed(vals, regToIdx)
    ensures forall i :: 0 <= i < |pc.copies| ==> g.nodes[i].src == -1
  {
    g := new CopyGraph();
    vals, regToIdx := [], map[];
    for i := 0 to |pc.copies|
      invariant fresh(g) && GraphOk(g.nodes)
      invariant |g.nodes| == |vals| == i
      invariant forall k :: 0 <= k < i ==> g.nodes[k].src == -1
      invariant forall k :: 0 <= k < i ==> vals[k] == FromReg(pc.copies[k].dst)
      invariant Indexed(vals, regToIdx)
    {
      var reg := pc.copies[i].dst;
      assert reg !in regToIdx;
      var nodeIdx := g.AddNode();
      vals := vals + [FromReg(reg)];
      regToIdx := regToIdx[reg := nodeIdx];
    }
  }

  /** Adds the edge for copy `dst`, with a new node for its source if it has none yet. */
  method AddCopy(pc: ParCopy, g: CopyGraph, vals: seq<Src>, regToIdx: map<Reg, nat>, dst: nat)
    returns (vals': seq<Src>, regToIdx': map<Reg, nat>)
    requires pc.Valid() && GraphOk(g.nodes) && Layout(pc, g.nodes, vals) && Indexed(vals, regToIdx)
    requires dst < |pc.copies| && g.nodes[dst].src == -1
    modifies g
    ensures GraphOk(g.nodes) && Layout(pc, g.nodes, vals') && Indexed(vals', regToIdx')
    ensures EdgeBuilt(pc, g.nodes, vals', dst)
    ensures |old(g.nodes)| <= |g.nodes| && vals <= vals'
    ensures forall i :: 0 <= i < |pc.copies| && i != dst ==> g.nodes[i].src == old(g.nodes)[i].src
  {
    var src := pc.copies[dst].src;
    var srcIdx;
    vals', regToIdx' := vals, regToIdx;
    if src.FromReg? && src.reg in regToIdx {
      srcIdx := regToIdx[src.reg];
    } else {
      srcIdx := g.AddNode();
      vals' := vals + [src];
      if src.FromReg? {
        regToIdx' := regToIdx[src.reg := srcIdx];
      }
    }
    assert Layout(pc, g.nodes, vals');
    if dst != srcIdx {
      g.AddEdge(dst, srcIdx);
    }
  }

  ghost predicate Indexed(vals: seq<Src>, regToIdx: map<Reg, nat>) {
    && (forall r :: r in regToIdx ==> regToIdx[r] < |vals| && vals[regToIdx[r]] == FromReg(r))
    && (forall k :: 0 <= k < |vals| && vals[k].FromReg? ==> vals[k].reg in regToIdx)
  }

  /** Copy `i` is represented by an edge from its source's node, or is a no-op. */
  ghost predicate EdgeBuilt(pc: ParCopy, nodes: seq<CopyNode>, vals: seq<Src>, i: nat)
    requires i < |pc.copies| <= |nodes| <= |vals| && GraphOk(nodes)
  {
    pc.copies[i].src == if i in Pending(nodes) then vals[Source(nodes, i)] else FromReg(pc.copies[i].dst)
  }

  lemma EdgesTrack(pc: ParCopy, nodes: seq<CopyNode>, vals: seq<Src>)
    requires pc.Valid() && GraphOk(nodes) && Layout(pc, nodes, vals)
    requires forall i :: 0 <= i < |pc.copies| ==> EdgeBuilt(pc, nodes, vals, i)
    ensures TracksAll(pc, nodes, vals, [])
    ensures pc.CyclesStayInFile() ==> FilesAgree(pc, nodes)
  {
    forall s0: State, i: nat | i < |pc.copies|
      ensures Deliverable(pc, nodes, vals, s0, s0, i)
    {
      assert EdgeBuilt(pc, nodes, vals, i);
    }
    if pc.CyclesStayInFile() {
      forall i | i in Pending(nodes) && i < |pc.copies| && Source(nodes, i) < |pc.copies|
        ensures pc.copies[Source(nodes, i)].dst.file == pc.copies[i].dst.file
      {
        assert EdgeBuilt(pc, nodes, vals, i);
        assert IsDst(pc.copies, pc.copies[Source(nodes, i)].dst);
      }
    }
  }

  /** Behind `b`, the code `b'` copies `src` to `dst` and changes nothing else but `via`. */
  ghost predicate AddsCopy(b: seq<Instr>, b': seq<Instr>, via: Option<Reg>, dst: Reg, src: Src) {
    forall s0: State {:trigger Run(b', s0)} ::
      && Run(b', s0)(dst) == Eval(src, Run(b, s0))
      && forall r: Reg :: r != dst && (via.Some? ==> r != via.value) ==> Run(b', s0)(r) == Run(b, s0)(r)
  }

  // The pass extends `b` by a copy, directly or through a temporary.
  method CopyVia(b: seq<Instr>, via: Option<Reg>, dst: Reg, src: Src) returns (b': seq<Instr>)
    requires via.Some? ==> via.value != dst && via.value.file == GPR
    ensures AllLowerable(b) && (via.None? ==> !CopyNeedsTmp(dst, src)) ==> AllLowerable(b')
    ensures AddsCopy(b, b', via, dst, src)
  {
    if via.Some? {
      var save, restore := CopyTo(via.value, src), CopyTo(dst, FromReg(via.value));
      b' := b + [save] + [restore];
      forall s0: State
        ensures Run(b', s0) == Exec(restore, Exec(save, Run(b, s0)))
      {
        RunSnoc(b, save, s0);
        RunSnoc(b + [save], restore, s0);
      }
    } else {
      b' := b + [CopyTo(dst, src)];
      forall s0: State
        ensures Run(b', s0) == Exec(CopyTo(dst, src), Run(b, s0))
      {
        RunSnoc(b, CopyTo(dst, src), s0);
      }
    }
  }

  /** Emits the copy into node `dst`, which nobody waits to read, and drops its edge. */
  method EmitReady(pc: ParCopy, g: CopyGraph, vals: seq<Src>, dst: nat, b0: seq<Instr>)
    returns (r: Option<seq<Instr>>, unread: bool)
    requires pc.Valid() && GraphOk(g.nodes) && Layout(pc, g.nodes, vals) && TracksAll(pc, g.nodes, vals, b0)
    requires AllLowerable(b0)
    requires dst in Pending(g.nodes) && g.nodes[dst].numReads == 0
    modifies g
    ensures r.None? ==> !pc.EnoughTmps()
    ensures r.Some? ==> GraphOk(g.nodes) && Layout(pc, g.nodes, vals) && AllLowerable(r.value)
    ensures r.Some? ==> TracksAll(pc, g.nodes, vals, r.value)
    ensures r.Some? ==> Pending(g.nodes) == Pending(old(g.nodes)) - {dst}
    ensures r.Some? && old(FilesAgree(pc, g.nodes)) ==> FilesAgree(pc, g.nodes)
    ensures r.Some? ==> |g.nodes| == |old(g.nodes)| && old(g.nodes)[old(g.nodes)[dst].src].numReads > 0
    ensures r.Some? ==> (unread <==> g.nodes[old(g.nodes)[dst].src].numReads == 0)
    ensures r.Some? ==> forall j :: 0 <= j < |g.nodes| && j != old(g.nodes)[dst].src
                          ==> g.nodes[j].numReads == old(g.nodes)[j].numReads
  {
    var src := g.nodes[dst].src;
    SourceIsRead(g.nodes, dst);
    var via := None;
    if CopyNeedsTmp(vals[dst].reg, vals[src]) {
      if pc.tmp.None? {
        return None, false;
      }
      via := Some(pc.tmp.value.Comp(0));
    }
    ghost var nodes := g.nodes;
    var b := CopyVia(b0, via, vals[dst].reg, vals[src]);
    unread := g.DelEdge(dst, src);
    forall s0: State
      ensures Tracks(pc, g.nodes, vals, s0, Run(b, s0))
    {
      assert Tracks(pc, nodes, vals, s0, Run(b0, s0));
      UnreadStep(pc, nodes, g.nodes, vals, s0, Run(b0, s0), Run(b, s0), dst);
    }
    FewerEdgesAgree(pc, nodes, g.nodes);
    r := Some(b);
  }

  /** `ready` holds unread nodes only, and every pending one of them. */
  ghost predicate ReadyOk(nodes: seq<CopyNode>, ready: seq<nat>) {
    && (forall k :: k in Pending(nodes) && nodes[k].numReads == 0 ==> k in ready)
    && (forall k :: k in ready ==> k < |nodes| && nodes[k].numReads == 0)
  }

  lemma ReadyAfterSkip(nodes: seq<CopyNode>, ready: seq<nat>)
    requires ready != [] && ReadyOk(nodes, ready) && ready[|ready| - 1] !in Pending(nodes)
    ensures ReadyOk(nodes, ready[..|ready| - 1])
  {
    var rest := ready[..|ready| - 1];
    assert ready == rest + [ready[|ready| - 1]];
  }

  lemma ReadyAfterCopy(nodes: seq<CopyNode>, nodes': seq<CopyNode>, ready: seq<nat>, src: nat)
    requires ready != [] && ReadyOk(nodes, ready) && |nodes'| == |nodes| && src < |nodes|
    requires Pending(nodes') == Pending(nodes) - {ready[|ready| - 1]}
    requires nodes[src].numReads > 0
    requires forall j :: 0 <= j < |nodes| && j != src ==> nodes'[j].numReads == nodes[j].numReads
    ensures ReadyOk(nodes', ready[..|ready| - 1] + if nodes'[src].numReads == 0 then [src] else [])
  {
    var rest := ready[..|ready| - 1];
    assert ready == rest + [ready[|ready| - 1]];
    var ready' := rest + if nodes'[src].numReads == 0 then [src] else [];
    assert forall k :: k in rest ==> k in ready && k in ready';
    assert forall k :: k in ready' ==> k in rest || (k == src && nodes'[src].numReads == 0);
    assert src !in ready;
  }

  method InitReady(pc: ParCopy, g: CopyGraph) returns (ready: seq<nat>)
    requires |pc.copies| <= |g.nodes| && forall k :: k in Pending(g.nodes) ==> k < |pc.copies|
    ensures ReadyOk(g.nodes, ready)
  {
    ready := [];
    for i := 0 to |pc.copies|
      invariant forall k :: 0 <= k < i && g.nodes[k].numReads == 0 ==> k in ready
      invariant forall k :: k in ready ==> k < |g.nodes| && g.nodes[k].numReads == 0
    {
      if g.nodes[i].numReads == 0 {
        ready := ready + [i];
      }
    }
  }

  /** Emits every copy whose destination nobody waits to read, until only cycles are left. */
  method DrainReady(pc: ParCopy, g: CopyGraph, vals: seq<Src>) returns (r: Option<seq<Instr>>)
    requires pc.Valid() && GraphOk(g.nodes) && Layout(pc, g.nodes, vals) && TracksAll(pc, g.nodes, vals, [])
    modifies g
    ensures r.None? ==> !pc.EnoughTmps()
    ensures r.Some? ==> GraphOk(g.nodes) && Layout(pc, g.nodes, vals) && OnlyCycles(g.nodes)
    ensures r.Some? ==> TracksAll(pc, g.nodes, vals, r.value) && AllLowerable(r.value)
    ensures r.Some? && old(FilesAgree(pc, g.nodes)) ==> FilesAgree(pc, g.nodes)
  {
    var b := [];
    var ready: seq<nat> := InitReady(pc, g);
    while ready != []
      invariant GraphOk(g.nodes) && Layout(pc, g.nodes, vals)
      invariant old(FilesAgree(pc, g.nodes)) ==> FilesAgree(pc, g.nodes)
      invariant TracksAll(pc, g.nodes, vals, b) && AllLowerable(b)
      invariant ReadyOk(g.nodes, ready)
      decreases Pending(g.nodes), |ready|
    {
      var dst := ready[|ready| - 1];
      assert dst in ready;
      if g.nodes[dst].src < 0 {
        ReadyAfterSkip(g.nodes, ready);
        ready := ready[..|ready| - 1];
      } else {
        var src := g.nodes[dst].src;
        ghost var nodes := g.nodes;
        var more, unread := EmitReady(pc, g, vals, dst, b);
        if more.None? {
          return None;
        }
        b := more.value;
        ReadyAfterCopy(nodes, g.nodes, ready, src);
        ready := ready[..|ready| - 1] + if unread then [src] else [];
      }
    }
    OnlyCyclesRemain(g.nodes);
    return Some(b);
  }

  lemma FewerEdgesAgree(pc: ParCopy, nodes: seq<CopyNode>, nodes': seq<CopyNode>)
    requires |pc.copies| <= |nodes| == |nodes'| && GraphOk(nodes) && GraphOk(nodes')
    requires Pending(nodes') <= Pending(nodes)
    requires forall i :: i in Pending(nodes') ==> nodes'[i].src == nodes[i].src
    ensures FilesAgree(pc, nodes) ==> FilesAgree(pc, nodes')
  {
    forall i | i in Pending(nodes')
      ensures Source(nodes', i) == Source(nodes, i)
    {
    }
  }

  /** One swap on the cycle `i <- j <- k`: finishes `j`, and `i` too if the cycle closes there. */
  method SwapOnce(pc: ParCopy, g: CopyGraph, vals: seq<Src>, i: nat, b0: seq<Instr>)
    returns (b: seq<Instr>, done: bool)
    requires pc.Valid() && GraphOk(g.nodes) && Layout(pc, g.nodes, vals) && TracksAll(pc, g.nodes, vals, b0)
    requires OnlyCycles(g.nodes) && i in Pending(g.nodes)
    modifies g
    ensures GraphOk(g.nodes) && Layout(pc, g.nodes, vals) && TracksAll(pc, g.nodes, vals, b)
    ensures OnlyCycles(g.nodes) && (done <==> i !in Pending(g.nodes))
    ensures Pending(g.nodes) < Pending(old(g.nodes))
    ensures old(FilesAgree(pc, g.nodes)) ==> FilesAgree(pc, g.nodes)
    ensures old(FilesAgree(pc, g.nodes)) && AllLowerable(b0) && pc.copies[i].dst.file != Mem ==> AllLowerable(b)
  {
    ghost var nodes := g.nodes;
    var j := g.nodes[i].src;
    assert Source(nodes, i) == j;
    var k := g.nodes[j].src;
    assert Source(nodes, j) == k;
    var swap := Swap(vals[j].reg, vals[k].reg);
    b := b0 + [swap];
    var _ := g.DelEdge(i, j);
    var _ := g.DelEdge(j, k);
    done := i == k;
    if !done {
      g.AddEdge(i, k);
    }
    SwapKeepsCycles(nodes, g.nodes, i, j, k);
    SwapKeepsFiles(pc, nodes, g.nodes, i, j, k);
    forall s0: State
      ensures Tracks(pc, g.nodes, vals, s0, Run(b, s0))
    {
      RunSnoc(b0, swap, s0);
      assert Tracks(pc, nodes, vals, s0, Run(b0, s0));
      TracksSwap(pc, nodes, g.nodes, vals, s0, Run(b0, s0), Run(b, s0), i, j, k);
    }
  }

  lemma SourcesAfterSwap(nodes: seq<CopyNode>, nodes': seq<CopyNode>, i: nat, j: nat, k: nat)
    requires GraphOk(nodes) && GraphOk(nodes') && |nodes'| == |nodes|
    requires i in Pending(nodes) && j in Pending(nodes) && Source(nodes, i) == j && Source(nodes, j) == k
    requires nodes'[i].src == (if i == k then -1 else k) && nodes'[j].src == -1
    requires forall q :: 0 <= q < |nodes| && q != i && q != j ==> nodes'[q].src == nodes[q].src
    ensures Pending(nodes') == Pending(nodes) - (if i == k then {i, j} else {j})
    ensures forall q :: q in Pending(nodes') ==> Source(nodes', q) == if q == i then k else Source(nodes, q)
  {
    assert i != j && j != k;
  }

  lemma SwapKeepsCycles(nodes: seq<CopyNode>, nodes': seq<CopyNode>, i: nat, j: nat, k: nat)
    requires GraphOk(nodes) && GraphOk(nodes') && |nodes'| == |nodes|
    requires OnlyCycles(nodes)
    requires i in Pending(nodes) && j in Pending(nodes) && Source(nodes, i) == j && Source(nodes, j) == k
    requires nodes'[i].src == (if i == k then -1 else k) && nodes'[j].src == -1
    requires forall q :: 0 <= q < |nodes| && q != i && q != j ==> nodes'[q].src == nodes[q].src
    ensures OnlyCycles(nodes')
    ensures Pending(nodes') == Pending(nodes) - (if i == k then {i, j} else {j})
  {
    SourcesAfterSwap(nodes, nodes', i, j, k);
  }

  lemma SwapKeepsFiles(pc: ParCopy, nodes: seq<CopyNode>, nodes': seq<CopyNode>, i: nat, j: nat, k: nat)
    requires GraphOk(nodes) && GraphOk(nodes') && |nodes'| == |nodes| >= |pc.copies|
    requires OnlyCycles(nodes) && forall q :: q in Pending(nodes) ==> q < |pc.copies|
    requires i in Pending(nodes) && j in Pending(nodes) && Source(nodes, i) == j && Source(nodes, j) == k
    requires nodes'[i].src == (if i == k then -1 else k) && nodes'[j].src == -1
    requires forall q :: 0 <= q < |nodes| && q != i && q != j ==> nodes'[q].src == nodes[q].src
    ensures FilesAgree(pc, nodes) ==> FilesAgree(pc, nodes')
    ensures FilesAgree(pc, nodes) ==>
              pc.copies[i].dst.file == pc.copies[j].dst.file == pc.copies[k].dst.file
  {
    SourcesAfterSwap(nodes, nodes', i, j, k);
    if FilesAgree(pc, nodes) {
      assert pc.copies[Source(nodes, i)].dst.file == pc.copies[i].dst.file;
      assert pc.copies[Source(nodes, j)].dst.file == pc.copies[j].dst.file;
    }
  }

  /** Unrolls the cycle through `i` by swapping: each swap finishes one node. */
  method RotateBySwaps(pc: ParCopy, g: CopyGraph, vals: seq<Src>, i: nat, b0: seq<Instr>)
    returns (b: seq<Instr>)
    requires pc.Valid() && GraphOk(g.nodes) && Layout(pc, g.nodes, vals) && TracksAll(pc, g.nodes, vals, b0)
    requires OnlyCycles(g.nodes) && i in Pending(g.nodes)
    modifies g
    ensures GraphOk(g.nodes) && Layout(pc, g.nodes, vals) && TracksAll(pc, g.nodes, vals, b)
    ensures OnlyCycles(g.nodes) && Pending(g.nodes) <= Pending(old(g.nodes)) - {i}
    ensures old(FilesAgree(pc, g.nodes)) ==> FilesAgree(pc, g.nodes)
    ensures old(FilesAgree(pc, g.nodes)) && AllLowerable(b0) && pc.copies[i].dst.file != Mem ==> AllLowerable(b)
  {
    b := b0;
    var done := false;
    while !done
      invariant GraphOk(g.nodes) && Layout(pc, g.nodes, vals) && TracksAll(pc, g.nodes, vals, b)
      invariant OnlyCycles(g.nodes) && Pending(g.nodes) <= Pending(old(g.nodes))
      invariant done <==> i !in Pending(g.nodes)
      invariant old(FilesAgree(pc, g.nodes)) ==> FilesAgree(pc, g.nodes)
      invariant old(FilesAgree(pc, g.nodes)) && AllLowerable(b0) && pc.copies[i].dst.file != Mem ==> AllLowerable(b)
      decreases Pending(g.nodes)
    {
      b, done := SwapOnce(pc, g, vals, i, b);
    }
  }

  /** A cycle through `i` that has been cut open: `p`'s register is free, and whoever reads `i`
      finds its value in the temporary. */
  ghost predicate OpenChain(nodes: seq<CopyNode>, i: nat, p: nat) {
    && p in Pending(nodes)
    && (forall q {:trigger Source(nodes, q)} :: q in Pending(nodes) ==>
          Source(nodes, q) == i || (Source(nodes, q) in Pending(nodes) && Source(nodes, q) != p))
    && (forall q, r {:trigger Source(nodes, q), Source(nodes, r)} ::
          q in Pending(nodes) && r in Pending(nodes) && Source(nodes, q) == Source(nodes, r) ==> q == r)
  }

  lemma CutCycle(nodes: seq<CopyNode>, i: nat)
    requires OnlyCycles(nodes) && i in Pending(nodes)
    ensures OpenChain(nodes, i, i)
  {
  }

  lemma SourcesAfterDrop(nodes: seq<CopyNode>, nodes': seq<CopyNode>, p: nat)
    requires |nodes'| == |nodes| && p in Pending(nodes) && nodes'[p].src == -1
    requires forall q :: 0 <= q < |nodes| && q != p ==> nodes'[q].src == nodes[q].src
    ensures Pending(nodes') == Pending(nodes) - {p}
    ensures forall q {:trigger Source(nodes', q)} :: q in Pending(nodes') ==> Source(nodes', q) == Source(nodes, q)
  {
  }

  /** Removing the edge into `p` makes the register of the node that `p` read the free one... */
  lemma ChainStep(nodes: seq<CopyNode>, nodes': seq<CopyNode>, i: nat, p: nat, j: nat)
    requires OpenChain(nodes, i, p) && |nodes'| == |nodes|
    requires nodes'[p].src == -1
    requires forall q :: 0 <= q < |nodes| && q != p ==> nodes'[q].src == nodes[q].src
    requires Source(nodes, p) == j != i
    ensures OpenChain(nodes', i, j)
  {
    SourcesAfterDrop(nodes, nodes', p);
    assert j in Pending(nodes');
    forall q | q in Pending(nodes')
      ensures Source(nodes', q) == i || (Source(nodes', q) in Pending(nodes') && Source(nodes', q) != j)
    {
      var m := Source(nodes, q);
      assert Source(nodes', q) == m;
    }
  }

  /** ...and the chain has disappeared once that node is the first one. */
  lemma ChainEnd(nodes: seq<CopyNode>, nodes': seq<CopyNode>, i: nat, p: nat)
    requires OpenChain(nodes, i, p) && |nodes'| == |nodes|
    requires nodes'[p].src == -1
    requires forall q :: 0 <= q < |nodes| && q != p ==> nodes'[q].src == nodes[q].src
    requires Source(nodes, p) == i != p || (Source(nodes, p) == i && GraphOk(nodes))
    ensures OnlyCycles(nodes')
  {
    SourcesAfterDrop(nodes, nodes', p);
    forall q | q in Pending(nodes')
      ensures Source(nodes', q) in Pending(nodes')
    {
      var m := Source(nodes, q);
      assert Source(nodes', q) == m;
    }
  }

  /** Copies into the free register of `p` the value it waits for, while `i`'s value sits in the
      first temporary, and drops `p`'s edge. */
  method FillFreeReg(pc: ParCopy, g: CopyGraph, vals: seq<Src>, i: nat, p: nat, via: Option<Reg>, b0: seq<Instr>)
    returns (b: seq<Instr>)
    requires pc.Valid() && pc.tmp.Some? && GraphOk(g.nodes) && Layout(pc, g.nodes, vals) && i < |vals|
    requires TracksAll(pc, g.nodes, Stashed(pc, vals, i), b0)
    requires OpenChain(g.nodes, i, p) && i < |pc.copies|
    requires via.Some? ==> pc.tmp.value.comps >= 2 && via.value == pc.tmp.value.Comp(1)
    modifies g
    ensures GraphOk(g.nodes) && Layout(pc, g.nodes, vals)
    ensures TracksAll(pc, g.nodes, Stashed(pc, vals, i), b)
    ensures Pending(g.nodes) == Pending(old(g.nodes)) - {p} && |g.nodes| == |old(g.nodes)|
    ensures g.nodes[p].src == -1
    ensures forall q :: 0 <= q < |g.nodes| && q != p ==> g.nodes[q].src == old(g.nodes)[q].src
    ensures AllLowerable(b0) ==>
              (via.None? ==> !CopyNeedsTmp(pc.copies[p].dst, Stashed(pc, vals, i)[old(g.nodes)[p].src])) ==>
              AllLowerable(b)
  {
    ghost var nodes := g.nodes;
    var src := if g.nodes[p].src == i then FromReg(pc.tmp.value.Comp(0)) else vals[g.nodes[p].src];
    assert pc.copies[p].dst !in pc.TmpRegs();
    b := CopyVia(b0, via, vals[p].reg, src);
    var _ := g.DelEdge(p, g.nodes[p].src);
    forall s0: State
      ensures Tracks(pc, g.nodes, Stashed(pc, vals, i), s0, Run(b, s0))
    {
      assert Tracks(pc, nodes, Stashed(pc, vals, i), s0, Run(b0, s0));
      FillTracks(pc, nodes, g.nodes, vals, i, p, via, src, s0, Run(b0, s0), Run(b, s0));
    }
  }

  lemma FillTracks(pc: ParCopy, nodes: seq<CopyNode>, nodes': seq<CopyNode>, vals: seq<Src>, i: nat, p: nat, via: Option<Reg>, src: Src,
                   s0: State, cur: State, cur': State)
    requires pc.Valid() && pc.tmp.Some? && GraphOk(nodes) && GraphOk(nodes') && |nodes'| == |nodes| && Layout(pc, nodes, vals) && i < |pc.copies|
    requires Tracks(pc, nodes, Stashed(pc, vals, i), s0, cur) && OpenChain(nodes, i, p)
    requires src == Stashed(pc, vals, i)[Source(nodes, p)] && nodes'[p].src == -1
    requires forall q :: 0 <= q < |nodes| && q != p ==> nodes'[q].src == nodes[q].src
    requires via.Some? ==> pc.tmp.value.comps >= 2 && via.value == pc.tmp.value.Comp(1)
    requires cur'(pc.copies[p].dst) == Eval(src, cur)
    requires forall r: Reg :: r != pc.copies[p].dst && (via.Some? ==> r != via.value) ==> cur'(r) == cur(r)
    ensures Tracks(pc, nodes', Stashed(pc, vals, i), s0, cur')
  {
    forall q | q in Pending(nodes) && q != p
      ensures Eval(Stashed(pc, vals, i)[Source(nodes, q)], cur') == Eval(Stashed(pc, vals, i)[Source(nodes, q)], cur)
    {
      var m := Source(nodes, q);
      if m != i {
        assert vals[m] != vals[p] && vals[m].reg !in pc.TmpRegs();
      }
    }
    TracksStep(pc, nodes, nodes', Stashed(pc, vals, i), s0, cur, cur', p);
  }

  /** `vals` with the value of node `i` found in the first temporary. */
  ghost function Stashed(pc: ParCopy, vals: seq<Src>, i: nat): seq<Src>
    requires pc.Valid() && pc.tmp.Some? && i < |vals|
  {
    vals[i := FromReg(pc.tmp.value.Comp(0))]
  }

  lemma StashTracks(pc: ParCopy, nodes: seq<CopyNode>, vals: seq<Src>, s0: State, cur: State, cur': State, i: nat)
    requires pc.Valid() && pc.tmp.Some? && GraphOk(nodes) && Layout(pc, nodes, vals) && OnlyCycles(nodes)
    requires Tracks(pc, nodes, vals, s0, cur) && i in Pending(nodes)
    requires cur'(pc.tmp.value.Comp(0)) == cur(pc.copies[i].dst)
    requires forall r: Reg :: r != pc.tmp.value.Comp(0) ==> cur'(r) == cur(r)
    ensures Tracks(pc, nodes, Stashed(pc, vals, i), s0, cur')
  {
    forall q: nat | q < |pc.copies|
      ensures Deliverable(pc, nodes, Stashed(pc, vals, i), s0, cur', q)
    {
      assert Deliverable(pc, nodes, vals, s0, cur, q);
      if q in Pending(nodes) {
        var m := Source(nodes, q);
        assert m in Pending(nodes) && vals[m].reg !in pc.TmpRegs();
      }
    }
  }

  lemma UnstashTracks(pc: ParCopy, nodes: seq<CopyNode>, vals: seq<Src>, s0: State, cur: State, i: nat)
    requires pc.Valid() && pc.tmp.Some? && GraphOk(nodes) && Layout(pc, nodes, vals) && OnlyCycles(nodes)
    requires i < |vals| && i !in Pending(nodes)
    requires Tracks(pc, nodes, Stashed(pc, vals, i), s0, cur)
    ensures Tracks(pc, nodes, vals, s0, cur)
  {
    forall q: nat | q < |pc.copies|
      ensures Deliverable(pc, nodes, vals, s0, cur, q)
    {
      assert Deliverable(pc, nodes, Stashed(pc, vals, i), s0, cur, q);
      if q in Pending(nodes) {
        assert Source(nodes, q) in Pending(nodes);
      }
    }
  }

  /** Unrolls the cycle through `i` by saving `i`'s register in a temporary and moving the other
      values one step each. */
  method RotateByTmp(pc: ParCopy, g: CopyGraph, vals: seq<Src>, i: nat, b0: seq<Instr>)
    returns (b: seq<Instr>)
    requires pc.Valid() && GraphOk(g.nodes) && Layout(pc, g.nodes, vals) && TracksAll(pc, g.nodes, vals, b0)
    requires OnlyCycles(g.nodes) && i in Pending(g.nodes)
    requires pc.tmp.Some? && pc.copies[i].dst.file in {GPR, Bar, Mem}
    requires pc.copies[i].dst.file != GPR ==> pc.tmp.value.comps >= 2
    modifies g
    ensures GraphOk(g.nodes) && Layout(pc, g.nodes, vals) && TracksAll(pc, g.nodes, vals, b)
    ensures OnlyCycles(g.nodes) && Pending(g.nodes) <= Pending(old(g.nodes)) - {i}
    ensures old(FilesAgree(pc, g.nodes)) ==> FilesAgree(pc, g.nodes)
    ensures old(FilesAgree(pc, g.nodes)) && AllLowerable(b0) ==> AllLowerable(b)
  {
    var file := pc.copies[i].dst.file;
    b := SaveFirst(pc, g, vals, i, b0);
    var p: nat := i;
    while g.nodes[p].src != i
      invariant GraphOk(g.nodes) && Layout(pc, g.nodes, vals) && OpenChain(g.nodes, i, p)
      invariant TracksAll(pc, g.nodes, Stashed(pc, vals, i), b)
      invariant Pending(g.nodes) <= Pending(old(g.nodes)) && (i in Pending(g.nodes) ==> p == i)
      invariant old(FilesAgree(pc, g.nodes)) ==> FilesAgree(pc, g.nodes) && pc.copies[p].dst.file == file
      invariant old(FilesAgree(pc, g.nodes)) && AllLowerable(b0) ==> AllLowerable(b)
      decreases Pending(g.nodes)
    {
      var via := if file == Bar || file == Mem then Some(pc.tmp.value.Comp(1)) else None;
      b, p := ChainLink(pc, g, vals, i, p, via, b);
    }
    b := RestoreFirst(pc, g, vals, i, p, b);
  }

  /** Saves `i`'s register in the first temporary, which opens the cycle. */
  method SaveFirst(pc: ParCopy, g: CopyGraph, vals: seq<Src>, i: nat, b0: seq<Instr>)
    returns (b: seq<Instr>)
    requires pc.Valid() && pc.tmp.Some? && GraphOk(g.nodes) && Layout(pc, g.nodes, vals)
    requires TracksAll(pc, g.nodes, vals, b0) && OnlyCycles(g.nodes) && i in Pending(g.nodes)
    ensures TracksAll(pc, g.nodes, Stashed(pc, vals, i), b)
    ensures OpenChain(g.nodes, i, i)
    ensures AllLowerable(b0) ==> AllLowerable(b)
  {
    assert pc.copies[i].dst !in pc.TmpRegs();
    b := CopyVia(b0, None, pc.tmp.value.Comp(0), vals[i]);
    forall s0: State
      ensures Tracks(pc, g.nodes, Stashed(pc, vals, i), s0, Run(b, s0))
    {
      assert Tracks(pc, g.nodes, vals, s0, Run(b0, s0));
      StashTracks(pc, g.nodes, vals, s0, Run(b0, s0), Run(b, s0), i);
    }
    CutCycle(g.nodes, i);
  }

  /** Moves one value along the open chain. */
  method ChainLink(pc: ParCopy, g: CopyGraph, vals: seq<Src>, i: nat, p: nat, via: Option<Reg>, b0: seq<Instr>)
    returns (b: seq<Instr>, j: nat)
    requires pc.Valid() && pc.tmp.Some? && GraphOk(g.nodes) && Layout(pc, g.nodes, vals) && i < |pc.copies|
    requires TracksAll(pc, g.nodes, Stashed(pc, vals, i), b0)
    requires OpenChain(g.nodes, i, p) && g.nodes[p].src != i
    requires via.Some? ==> pc.tmp.value.comps >= 2 && via.value == pc.tmp.value.Comp(1)
    modifies g
    ensures GraphOk(g.nodes) && Layout(pc, g.nodes, vals) && OpenChain(g.nodes, i, j)
    ensures TracksAll(pc, g.nodes, Stashed(pc, vals, i), b)
    ensures Pending(g.nodes) == Pending(old(g.nodes)) - {p}
    ensures old(FilesAgree(pc, g.nodes)) ==> FilesAgree(pc, g.nodes) && pc.copies[j].dst.file == pc.copies[p].dst.file
    ensures AllLowerable(b0) && (via.None? ==> pc.copies[p].dst.file == GPR) ==> AllLowerable(b)
  {
    j := g.nodes[p].src;
    ghost var nodes := g.nodes;
    assert Source(nodes, p) == j;
    b := FillFreeReg(pc, g, vals, i, p, via, b0);
    ChainStep(nodes, g.nodes, i, p, j);
    FewerEdgesAgree(pc, nodes, g.nodes);
  }

  /** Delivers `i`'s saved value to the last node of the chain. */
  method RestoreFirst(pc: ParCopy, g: CopyGraph, vals: seq<Src>, i: nat, p: nat, b0: seq<Instr>)
    returns (b: seq<Instr>)
    requires pc.Valid() && pc.tmp.Some? && GraphOk(g.nodes) && Layout(pc, g.nodes, vals) && i < |pc.copies|
    requires TracksAll(pc, g.nodes, Stashed(pc, vals, i), b0)
    requires OpenChain(g.nodes, i, p) && g.nodes[p].src == i
    requires i in Pending(g.nodes) ==> p == i
    modifies g
    ensures GraphOk(g.nodes) && Layout(pc, g.nodes, vals) && TracksAll(pc, g.nodes, vals, b)
    ensures OnlyCycles(g.nodes) && Pending(g.nodes) <= Pending(old(g.nodes)) - {i}
    ensures old(FilesAgree(pc, g.nodes)) ==> FilesAgree(pc, g.nodes)
    ensures AllLowerable(b0) ==> AllLowerable(b)
  {
    ghost var nodes := g.nodes;
    assert Source(nodes, p) == i;
    b := FillFreeReg(pc, g, vals, i, p, None, b0);
    ChainEnd(nodes, g.nodes, i, p);
    FewerEdgesAgree(pc, nodes, g.nodes);
    forall s0: State
      ensures Tracks(pc, g.nodes, vals, s0, Run(b, s0))
    {
      assert Tracks(pc, g.nodes, Stashed(pc, vals, i), s0, Run(b, s0));
      UnstashTracks(pc, g.nodes, vals, s0, Run(b, s0), i);
    }
  }

  /** The code performs the parallel copy, from every state. */
  ghost predicate Performs(pc: ParCopy, code: seq<Instr>) {
    forall s0: State {:trigger Run(code, s0)} :: IsParallelCopy(pc.copies, pc.TmpRegs(), s0, Run(code, s0))
  }

  /** Lowers a parallel copy.  `None` stands for the panic over a missing temporary. */
  method LowerParCopy(pc: ParCopy) returns (r: Option<seq<Instr>>)
    requires pc.Valid()
    ensures r.None? ==> !pc.EnoughTmps()
    ensures r.Some? ==> Performs(pc, r.value)
    ensures r.Some? && pc.CyclesStayInFile() ==> AllLowerable(r.value)
  {
    var g, vals := BuildGraph(pc);
    var start := DrainReady(pc, g, vals);
    if start.None? {
      return None;
    }
    var b := start.value;
    for i := 0 to |pc.copies|
      invariant GraphOk(g.nodes) && Layout(pc, g.nodes, vals) && TracksAll(pc, g.nodes, vals, b)
      invariant OnlyCycles(g.nodes) && forall k :: k in Pending(g.nodes) ==> i <= k
      invariant pc.CyclesStayInFile() ==> FilesAgree(pc, g.nodes) && AllLowerable(b)
    {
      if g.nodes[i].src < 0 {
        IsolatedNodesAreUnread(g.nodes, i);
        assert g.nodes[i].numReads == 0;
      } else {
        var useSwap := CycleUseSwap(pc, pc.copies[i].dst.file);
        if useSwap.None? {
          return None;
        }
        if useSwap.value {
          b := RotateBySwaps(pc, g, vals, i, b);
        } else {
          b := RotateByTmp(pc, g, vals, i, b);
        }
      }
    }
    AllDelivered(pc, g.nodes, vals, b);
    r := Some(b);
  }

  lemma AllDelivered(pc: ParCopy, nodes: seq<CopyNode>, vals: seq<Src>, b: seq<Instr>)
    requires GraphOk(nodes) && Layout(pc, nodes, vals) && TracksAll(pc, nodes, vals, b) && forall k :: k !in Pending(nodes)
    ensures Performs(pc, b)
  {
    forall s0: State, i: nat | i < |pc.copies|
      ensures Run(b, s0)(pc.copies[i].dst) == Eval(pc.copies[i].src, s0)
    {
      assert Deliverable(pc, nodes, vals, s0, Run(b, s0), i);
    }
    assert forall s0: State {:trigger Run(b, s0)} :: Untouched(pc, s0, Run(b, s0));
  }
}
