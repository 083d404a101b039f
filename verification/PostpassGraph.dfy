/** Which instructions of a block have to stay in order (crates/deko-nak/src/opt_instr_sched_postpass.rs). */
module PostpassGraph {
  import opened Machine
  import opened ReorderedRuns

  /** The latencies of a shader model, by operation and operand. */
  datatype Sm = Sm(waw: (nat, nat, bool, nat, nat) -> nat, raw: (nat, nat, nat, nat) -> nat, paw: (nat, nat) -> nat,
                   war: (nat, nat, nat, nat) -> nat, exec: nat -> nat, worst: (nat, nat) -> nat, variable: nat -> nat, scoreboard: nat -> bool)

  /** An edge to an instruction that has to stay behind. */
  datatype Edge = Edge(head: nat, latency: nat)

  /** The accesses to a register that come next: the reads before the next write, and that write.  A read
      without operand index is by a guard. */
  datatype RegUse = RegUse(readers: seq<(nat, Option<nat>)>, write: Option<(nat, nat)>)
  {
    function AddRead(ip: nat, idx: Option<nat>): RegUse {
      RegUse(readers + [(ip, idx)], write)
    }

    function SetWrite(ip: nat, idx: nat): RegUse {
      RegUse([], Some((ip, idx)))
    }
  }

  type Uses = map<Reg, RegUse>

  function Use(uses: Uses, r: Reg): RegUse {
    if r in uses then uses[r] else RegUse([], None)
  }

  // ----- What is next -----

  ghost predicate NoWrites(instrs: seq<Instr>, r: Reg, from: nat, to: nat)
    requires to <= |instrs|
  {
    forall j :: from <= j < to ==> !instrs[j].Writes(r)
  }

  ghost predicate FirstWrite(instrs: seq<Instr>, r: Reg, from: nat, w: nat) {
    from <= w < |instrs| && instrs[w].Writes(r) && NoWrites(instrs, r, from, w)
  }

  /** How an instruction reads a register: as one of its sources, or by its guard. */
  ghost predicate ReadsAt(instr: Instr, r: Reg, idx: Option<nat>) {
    match idx
    case None => r in instr.guards
    case Some(k) => k < |instr.srcs| && instr.srcs[k] == r
  }

  /** The last of the destinations in a register: the one whose value stays there. */
  ghost predicate WritesAt(dsts: seq<Reg>, r: Reg, idx: nat) {
    idx < |dsts| && dsts[idx] == r && forall k :: idx < k < |dsts| ==> dsts[k] != r
  }

  /** `j` reads the register as it is before the instructions from `from` on. */
  ghost predicate IsNextRead(instrs: seq<Instr>, r: Reg, from: nat, j: nat) {
    from <= j < |instrs| && instrs[j].Reads(r) && NoWrites(instrs, r, from, j)
  }

  /** What is known about a register before the instructions from `ip` on. */
  ghost predicate UseOk(instrs: seq<Instr>, r: Reg, u: RegUse, ip: nat)
    requires ip <= |instrs|
  {
    && (u.write.Some? ==> FirstWrite(instrs, r, ip, u.write.value.0) && WritesAt(instrs[u.write.value.0].dsts, r, u.write.value.1))
    && (u.write.None? ==> NoWrites(instrs, r, ip, |instrs|))
    && forall x :: x in u.readers <==> IsNextRead(instrs, r, ip, x.0) && ReadsAt(instrs[x.0], r, x.1)
  }

  ghost predicate UsesOk(instrs: seq<Instr>, uses: Uses, ip: nat)
    requires ip <= |instrs|
  {
    forall r :: UseOk(instrs, r, Use(uses, r), ip)
  }

  /** The first instruction with the effect at `from` or later. */
  ghost predicate NextEffect(instrs: seq<Instr>, e: SideEffect, from: nat, next: Option<nat>)
    requires from <= |instrs|
  {
    match next
    case None => forall j :: from <= j < |instrs| ==> instrs[j].effect != e
    case Some(b) => from <= b < |instrs| && instrs[b].effect == e && forall j :: from <= j < b ==> instrs[j].effect != e
  }

  // ----- The edges of one instruction -----

  ghost predicate Points(edges: seq<Edge>, j: nat) {
    exists k :: 0 <= k < |edges| && edges[k].head == j
  }

  /** Why an instruction has to stay before `j`: an effect, or a register that one of them writes.  A guard
      is no reason for its instruction to stay. */
  ghost predicate Needed(instrs: seq<Instr>, ip: nat, j: nat)
    requires ip < |instrs|
  {
    || NextEffect(instrs, Barrier, ip + 1, Some(j))
    || (instrs[ip].effect == Memory && NextEffect(instrs, Memory, ip + 1, Some(j)))
    || (instrs[ip].effect == Barrier && forall k :: ip < k < j && k < |instrs| ==> instrs[k].effect != Barrier)
    || (exists r :: r in instrs[ip].dsts && (FirstWrite(instrs, r, ip + 1, j) || IsNextRead(instrs, r, ip + 1, j)))
    || (exists r :: r in instrs[ip].srcs && FirstWrite(instrs, r, ip + 1, j))
  }

  /** Edges go forward, and only where one is needed. */
  ghost predicate Forward(instrs: seq<Instr>, ip: nat, edges: seq<Edge>)
    requires ip < |instrs|
  {
    forall k :: 0 <= k < |edges| ==> ip < edges[k].head < |instrs| && Needed(instrs, ip, edges[k].head)
  }

  /** To the next write of every register that the instruction writes or has as a source. */
  ghost predicate ToWrites(instrs: seq<Instr>, ip: nat, regs: seq<Reg>, edges: seq<Edge>) {
    forall r, w {:trigger FirstWrite(instrs, r, ip + 1, w)} :: r in regs && FirstWrite(instrs, r, ip + 1, w) ==> Points(edges, w)
  }

  /** To the reads of every register it writes. */
  ghost predicate ToReads(instrs: seq<Instr>, ip: nat, regs: seq<Reg>, edges: seq<Edge>) {
    forall r, j {:trigger instrs[j].Reads(r)} :: r in regs && ip < j < |instrs| && instrs[j].Reads(r) && NoWrites(instrs, r, ip + 1, j) ==> Points(edges, j)
  }

  /** To the next instruction with an effect, and from a barrier to everything before the next barrier. */
  ghost predicate ToEffects(instrs: seq<Instr>, ip: nat, edges: seq<Edge>)
    requires ip < |instrs|
  {
    && (forall b: nat :: NextEffect(instrs, Barrier, ip + 1, Some(b)) ==> Points(edges, b))
    && (forall b: nat :: instrs[ip].effect == Memory && NextEffect(instrs, Memory, ip + 1, Some(b)) ==> Points(edges, b))
    && (forall j: nat :: instrs[ip].effect == Barrier && ip < j < |instrs| && (forall k :: ip < k < j ==> instrs[k].effect != Barrier) ==> Points(edges, j))
  }

  ghost predicate NodeOk(instrs: seq<Instr>, ip: nat, edges: seq<Edge>)
    requires ip < |instrs|
  {
    && Forward(instrs, ip, edges) && ToEffects(instrs, ip, edges)
    && ToWrites(instrs, ip, instrs[ip].dsts, edges) && ToReads(instrs, ip, instrs[ip].dsts, edges) && ToWrites(instrs, ip, instrs[ip].srcs, edges)
  }

  // ----- Exactly which edges there are -----

  function Max(a: nat, b: nat): nat {
    if a < b then b else a
  }

  /** Barriers take two cycles to become active. */
  function UntilActive(sm: Sm, instr: Instr, latency: nat): nat {
    if sm.scoreboard(instr.op) then Max(latency, 2) else latency
  }

  /** How long a result takes until it can be read. */
  function ReadLatency(sm: Sm, instr: Instr, a: nat, reader: Instr, idx: Option<nat>): nat {
    Max(if idx.None? then sm.paw(instr.op, a) else sm.raw(instr.op, a, reader.op, idx.value), sm.variable(instr.op))
  }

  ghost predicate EffectWants(instrs: seq<Instr>, ip: nat, e: Edge)
    requires ip < |instrs|
  {
    && e.latency == 0
    && (|| NextEffect(instrs, Barrier, ip + 1, Some(e.head))
        || (instrs[ip].effect == Memory && NextEffect(instrs, Memory, ip + 1, Some(e.head)))
        || (instrs[ip].effect == Barrier && ip < e.head < |instrs| && forall k :: ip < k < e.head ==> instrs[k].effect != Barrier))
  }

  /** A result: the next write comes later, and so do the reads until then. */
  ghost predicate DstWants(sm: Sm, instrs: seq<Instr>, ip: nat, a: nat, e: Edge)
    requires ip < |instrs| && a < |instrs[ip].dsts|
  {
    var instr, r := instrs[ip], instrs[ip].dsts[a];
    || (FirstWrite(instrs, r, ip + 1, e.head)
        && exists b :: WritesAt(instrs[e.head].dsts, r, b)
                       && e.latency == UntilActive(sm, instr, sm.waw(instr.op, a, instr.guards != [], instrs[e.head].op, b)))
    || (IsNextRead(instrs, r, ip + 1, e.head)
        && exists idx :: ReadsAt(instrs[e.head], r, idx) && e.latency == ReadLatency(sm, instr, a, instrs[e.head], idx))
  }

  /** A source: the next write comes later. */
  ghost predicate SrcWants(sm: Sm, instrs: seq<Instr>, ip: nat, a: nat, e: Edge)
    requires ip < |instrs| && a < |instrs[ip].srcs|
  {
    var instr, r := instrs[ip], instrs[ip].srcs[a];
    && FirstWrite(instrs, r, ip + 1, e.head)
    && exists b :: WritesAt(instrs[e.head].dsts, r, b) && e.latency == UntilActive(sm, instr, sm.war(instr.op, a, instrs[e.head].op, b))
  }

  ghost predicate Wants(sm: Sm, instrs: seq<Instr>, ip: nat, e: Edge)
    requires ip < |instrs|
  {
    || EffectWants(instrs, ip, e)
    || (exists a :: 0 <= a < |instrs[ip].dsts| && DstWants(sm, instrs, ip, a, e))
    || (exists a :: 0 <= a < |instrs[ip].srcs| && SrcWants(sm, instrs, ip, a, e))
  }

  /** All edges that are wanted, with their latencies, and no others. */
  ghost predicate IsExactNode(sm: Sm, instrs: seq<Instr>, ip: nat, edges: seq<Edge>)
    requires ip < |instrs|
  {
    forall e :: e in edges <==> Wants(sm, instrs, ip, e)
  }

  /** Edges because of effects. */
  method EffectEdges(instrs: seq<Instr>, ip: nat, lastMemory: Option<nat>, lastBarrier: Option<nat>) returns (edges: seq<Edge>)
    requires ip < |instrs| && NextEffect(instrs, Memory, ip + 1, lastMemory) && NextEffect(instrs, Barrier, ip + 1, lastBarrier)
    ensures forall e :: e in edges <==> EffectWants(instrs, ip, e)
  {
    edges := if lastBarrier.Some? then [Edge(lastBarrier.value, 0)] else [];
    match instrs[ip].effect
    case Pure =>
    case Memory =>
      if lastMemory.Some? {
        edges := edges + [Edge(lastMemory.value, 0)];
      }
    case Barrier =>
      var last := if lastBarrier.Some? then lastBarrier.value else |instrs|;
      for other := ip + 1 to last
        invariant forall e :: e in edges <==> e.latency == 0 && (ip < e.head < other || lastBarrier == Some(e.head))
      {
        edges := edges + [Edge(other, 0)];
      }
  }

  /** Edges from one written register. */
  method DstRegEdges(sm: Sm, instrs: seq<Instr>, ip: nat, i: nat, u: RegUse) returns (edges: seq<Edge>)
    requires ip < |instrs| && i < |instrs[ip].dsts| && UseOk(instrs, instrs[ip].dsts[i], u, ip + 1)
    ensures forall e :: e in edges <==> DstWants(sm, instrs, ip, i, e)
  {
    var instr := instrs[ip];
    edges := [];
    if u.write.Some? {
      var (w, wIdx) := u.write.value;
      edges := [Edge(w, UntilActive(sm, instr, sm.waw(instr.op, i, instr.guards != [], instrs[w].op, wIdx)))];
    }
    ghost var first := edges;
    for k := 0 to |u.readers|
      invariant forall e :: e in edges <==> e in first || IsEdgeTo(sm, instrs, ip, i, u.readers[..k], e)
    {
      var (r, idx) := u.readers[k];
      assert u.readers[k] in u.readers && u.readers[..k + 1] == u.readers[..k] + [(r, idx)];
      edges := edges + [Edge(r, ReadLatency(sm, instr, i, instrs[r], idx))];
    }
    assert u.readers[..|u.readers|] == u.readers;
    OneWrite(instrs, instr.dsts[i], u, ip + 1);
    EdgesOfDst(sm, instrs, ip, i, u, first);
  }

  /** An edge to one of the readers. */
  ghost predicate IsEdgeTo(sm: Sm, instrs: seq<Instr>, ip: nat, i: nat, readers: seq<(nat, Option<nat>)>, e: Edge)
    requires ip < |instrs|
  {
    exists x :: x in readers && x.0 < |instrs| && e == Edge(x.0, ReadLatency(sm, instrs[ip], i, instrs[x.0], x.1))
  }

  lemma OneWrite(instrs: seq<Instr>, r: Reg, u: RegUse, ip: nat)
    requires ip <= |instrs| && UseOk(instrs, r, u, ip)
    ensures forall w :: FirstWrite(instrs, r, ip, w) ==> u.write.Some? && u.write.value.0 == w
    ensures u.write.Some? ==> forall b :: WritesAt(instrs[u.write.value.0].dsts, r, b) ==> b == u.write.value.1
  {
  }

  lemma EdgesOfDst(sm: Sm, instrs: seq<Instr>, ip: nat, i: nat, u: RegUse, first: seq<Edge>)
    requires ip < |instrs| && i < |instrs[ip].dsts| && UseOk(instrs, instrs[ip].dsts[i], u, ip + 1)
    requires first == match u.write
                      case None => []
                      case Some(w) => [Edge(w.0, UntilActive(sm, instrs[ip], sm.waw(instrs[ip].op, i, instrs[ip].guards != [], instrs[w.0].op, w.1)))]
    ensures forall e :: e in first || IsEdgeTo(sm, instrs, ip, i, u.readers, e) <==> DstWants(sm, instrs, ip, i, e)
  {
    hide UntilActive, ReadLatency, NoWrites, WritesAt;
    var r := instrs[ip].dsts[i];
    OneWrite(instrs, r, u, ip + 1);
    forall e | DstWants(sm, instrs, ip, i, e)
      ensures e in first || IsEdgeTo(sm, instrs, ip, i, u.readers, e)
    {
      if idx :| IsNextRead(instrs, r, ip + 1, e.head) && ReadsAt(instrs[e.head], r, idx) && e.latency == ReadLatency(sm, instrs[ip], i, instrs[e.head], idx) {
        assert (e.head, idx) in u.readers;
      }
    }
  }

  method DstEdges(sm: Sm, instrs: seq<Instr>, ip: nat, uses: Uses) returns (edges: seq<Edge>)
    requires ip < |instrs| && UsesOk(instrs, uses, ip + 1)
    ensures forall e :: e in edges <==> exists a :: 0 <= a < |instrs[ip].dsts| && DstWants(sm, instrs, ip, a, e)
  {
    hide UseOk, DstWants;
    var dsts := instrs[ip].dsts;
    edges := [];
    for i := 0 to |dsts|
      invariant forall e :: e in edges <==> exists a :: 0 <= a < i && DstWants(sm, instrs, ip, a, e)
    {
      var more := DstRegEdges(sm, instrs, ip, i, Use(uses, dsts[i]));
      edges := edges + more;
    }
  }

  method SrcEdges(sm: Sm, instrs: seq<Instr>, ip: nat, uses: Uses) returns (edges: seq<Edge>)
    requires ip < |instrs| && UsesOk(instrs, uses, ip + 1)
    ensures forall e :: e in edges <==> exists a :: 0 <= a < |instrs[ip].srcs| && SrcWants(sm, instrs, ip, a, e)
  {
    hide UseOk, SrcWants;
    var srcs := instrs[ip].srcs;
    edges := [];
    for i := 0 to |srcs|
      invariant forall e :: e in edges <==> exists a :: 0 <= a < i && SrcWants(sm, instrs, ip, a, e)
    {
      var more := SrcRegEdges(sm, instrs, ip, i, Use(uses, srcs[i]));
      edges := edges + more;
    }
  }

  method SrcRegEdges(sm: Sm, instrs: seq<Instr>, ip: nat, i: nat, u: RegUse) returns (edges: seq<Edge>)
    requires ip < |instrs| && i < |instrs[ip].srcs| && UseOk(instrs, instrs[ip].srcs[i], u, ip + 1)
    ensures forall e :: e in edges <==> SrcWants(sm, instrs, ip, i, e)
  {
    var instr := instrs[ip];
    edges := [];
    OneWrite(instrs, instr.srcs[i], u, ip + 1);
    if u.write.Some? {
      var (w, wIdx) := u.write.value;
      edges := [Edge(w, UntilActive(sm, instr, sm.war(instr.op, i, instrs[w].op, wIdx)))];
    }
  }

  // ----- What the edges are good for -----

  lemma {:induction false} SomeWritesAt(dsts: seq<Reg>, r: Reg)
    requires r in dsts
    ensures exists b :: WritesAt(dsts, r, b)
    decreases |dsts|
  {
    var n := |dsts| - 1;
    if dsts[n] == r {
      assert WritesAt(dsts, r, n);
    } else {
      assert dsts == dsts[..n] + [dsts[n]];
      SomeWritesAt(dsts[..n], r);
      var b :| WritesAt(dsts[..n], r, b);
      assert WritesAt(dsts, r, b);
    }
  }

  lemma SomeReadsAt(instr: Instr, r: Reg)
    requires instr.Reads(r)
    ensures exists idx :: ReadsAt(instr, r, idx)
  {
    if r in instr.guards {
      assert ReadsAt(instr, r, None);
    } else {
      var k :| 0 <= k < |instr.srcs| && instr.srcs[k] == r;
      assert ReadsAt(instr, r, Some(k));
    }
  }

  /** The edges that are wanted lead everywhere an instruction has to stay before. */
  lemma NodeIsOk(sm: Sm, instrs: seq<Instr>, ip: nat, edges: seq<Edge>)
    requires ip < |instrs| && IsExactNode(sm, instrs, ip, edges)
    ensures NodeOk(instrs, ip, edges)
  {
    hide IsExactNode;
    ForwardIfExact(sm, instrs, ip, edges);
    EffectsIfExact(sm, instrs, ip, edges);
    forall a, w | 0 <= a < |instrs[ip].dsts| && FirstWrite(instrs, instrs[ip].dsts[a], ip + 1, w)
      ensures Points(edges, w)
    {
      DstWriteIfExact(sm, instrs, ip, edges, a, w);
    }
    forall a, j | 0 <= a < |instrs[ip].dsts| && IsNextRead(instrs, instrs[ip].dsts[a], ip + 1, j)
      ensures Points(edges, j)
    {
      DstReadIfExact(sm, instrs, ip, edges, a, j);
    }
    forall a, w | 0 <= a < |instrs[ip].srcs| && FirstWrite(instrs, instrs[ip].srcs[a], ip + 1, w)
      ensures Points(edges, w)
    {
      SrcWriteIfExact(sm, instrs, ip, edges, a, w);
    }
    ReachesAll(instrs, ip, edges);
  }

  lemma ReachesAll(instrs: seq<Instr>, ip: nat, edges: seq<Edge>)
    requires ip < |instrs| && Forward(instrs, ip, edges) && ToEffects(instrs, ip, edges)
    requires forall a, w :: 0 <= a < |instrs[ip].dsts| && FirstWrite(instrs, instrs[ip].dsts[a], ip + 1, w) ==> Points(edges, w)
    requires forall a, j :: 0 <= a < |instrs[ip].dsts| && IsNextRead(instrs, instrs[ip].dsts[a], ip + 1, j) ==> Points(edges, j)
    requires forall a, w :: 0 <= a < |instrs[ip].srcs| && FirstWrite(instrs, instrs[ip].srcs[a], ip + 1, w) ==> Points(edges, w)
    ensures NodeOk(instrs, ip, edges)
  {
    hide Forward, ToEffects, Points, FirstWrite, NoWrites;
    forall r, j | r in instrs[ip].dsts && ip < j < |instrs| && instrs[j].Reads(r) && NoWrites(instrs, r, ip + 1, j)
      ensures Points(edges, j)
    {
      assert IsNextRead(instrs, r, ip + 1, j);
    }
  }

  lemma PointsThere(edges: seq<Edge>, e: Edge)
    requires e in edges
    ensures Points(edges, e.head)
  {
  }

  lemma ForwardIfExact(sm: Sm, instrs: seq<Instr>, ip: nat, edges: seq<Edge>)
    requires ip < |instrs| && IsExactNode(sm, instrs, ip, edges)
    ensures Forward(instrs, ip, edges)
  {
    forall k | 0 <= k < |edges|
      ensures ip < edges[k].head < |instrs| && Needed(instrs, ip, edges[k].head)
    {
      assert edges[k] in edges;
      WantedIsNeeded(sm, instrs, ip, edges[k]);
    }
  }

  lemma WantedIsNeeded(sm: Sm, instrs: seq<Instr>, ip: nat, e: Edge)
    requires ip < |instrs| && Wants(sm, instrs, ip, e)
    ensures ip < e.head < |instrs| && Needed(instrs, ip, e.head)
  {
    hide UntilActive, ReadLatency, NoWrites, WritesAt, ReadsAt;
    if a :| 0 <= a < |instrs[ip].dsts| && DstWants(sm, instrs, ip, a, e) {
      assert instrs[ip].dsts[a] in instrs[ip].dsts;
    } else if a :| 0 <= a < |instrs[ip].srcs| && SrcWants(sm, instrs, ip, a, e) {
      assert instrs[ip].srcs[a] in instrs[ip].srcs;
    }
  }

  lemma EffectsIfExact(sm: Sm, instrs: seq<Instr>, ip: nat, edges: seq<Edge>)
    requires ip < |instrs| && IsExactNode(sm, instrs, ip, edges)
    ensures ToEffects(instrs, ip, edges)
  {
    hide DstWants, SrcWants, Points;
    forall j: nat | EffectWants(instrs, ip, Edge(j, 0))
      ensures Points(edges, j)
    {
      assert Wants(sm, instrs, ip, Edge(j, 0));
      PointsThere(edges, Edge(j, 0));
    }
  }

  lemma DstWriteIfExact(sm: Sm, instrs: seq<Instr>, ip: nat, edges: seq<Edge>, a: nat, w: nat)
    requires ip < |instrs| && IsExactNode(sm, instrs, ip, edges) && a < |instrs[ip].dsts| && FirstWrite(instrs, instrs[ip].dsts[a], ip + 1, w)
    ensures Points(edges, w)
  {
    hide UntilActive, ReadLatency, NoWrites, WritesAt, Points, SrcWants;
    var instr, r := instrs[ip], instrs[ip].dsts[a];
    SomeWritesAt(instrs[w].dsts, r);
    var b :| WritesAt(instrs[w].dsts, r, b);
    var e := Edge(w, UntilActive(sm, instr, sm.waw(instr.op, a, instr.guards != [], instrs[w].op, b)));
    assert DstWants(sm, instrs, ip, a, e);
    PointsThere(edges, e);
  }

  lemma DstReadIfExact(sm: Sm, instrs: seq<Instr>, ip: nat, edges: seq<Edge>, a: nat, j: nat)
    requires ip < |instrs| && IsExactNode(sm, instrs, ip, edges) && a < |instrs[ip].dsts| && IsNextRead(instrs, instrs[ip].dsts[a], ip + 1, j)
    ensures Points(edges, j)
  {
    hide UntilActive, ReadLatency, NoWrites, ReadsAt, Points, SrcWants;
    var r := instrs[ip].dsts[a];
    SomeReadsAt(instrs[j], r);
    var idx :| ReadsAt(instrs[j], r, idx);
    var e := Edge(j, ReadLatency(sm, instrs[ip], a, instrs[j], idx));
    assert DstWants(sm, instrs, ip, a, e);
    PointsThere(edges, e);
  }

  lemma SrcWriteIfExact(sm: Sm, instrs: seq<Instr>, ip: nat, edges: seq<Edge>, a: nat, w: nat)
    requires ip < |instrs| && IsExactNode(sm, instrs, ip, edges) && a < |instrs[ip].srcs| && FirstWrite(instrs, instrs[ip].srcs[a], ip + 1, w)
    ensures Points(edges, w)
  {
    hide UntilActive, NoWrites, WritesAt, Points, DstWants;
    var instr, r := instrs[ip], instrs[ip].srcs[a];
    SomeWritesAt(instrs[w].dsts, r);
    var b :| WritesAt(instrs[w].dsts, r, b);
    var e := Edge(w, UntilActive(sm, instr, sm.war(instr.op, a, instrs[w].op, b)));
    assert SrcWants(sm, instrs, ip, a, e);
    PointsThere(edges, e);
  }

  // ----- The accesses of one instruction become the next ones -----

  /** The destinations have been entered. */
  ghost predicate WritesEntered(before: Uses, after: Uses, ip: nat, dsts: seq<Reg>) {
    forall r ::
      if r in dsts then Use(after, r).readers == [] && Use(after, r).write.Some? && Use(after, r).write.value.0 == ip && WritesAt(dsts, r, Use(after, r).write.value.1)
      else Use(after, r) == Use(before, r)
  }

  /** Where a register is among the guards or the sources. */
  ghost predicate IsRead(regs: seq<Reg>, guards: bool, r: Reg, idx: Option<nat>) {
    if guards then idx.None? && r in regs else idx.Some? && idx.value < |regs| && regs[idx.value] == r
  }

  /** Guards or sources have been entered. */
  ghost predicate ReadsEntered(before: Uses, after: Uses, ip: nat, regs: seq<Reg>, guards: bool) {
    forall r :: ReadEntered(Use(before, r), Use(after, r), ip, regs, guards, r)
  }

  ghost predicate ReadEntered(before: RegUse, after: RegUse, ip: nat, regs: seq<Reg>, guards: bool, r: Reg) {
    && after.write == before.write
    && forall x :: x in after.readers <==> x in before.readers || (x.0 == ip && IsRead(regs, guards, r, x.1))
  }

  method EnterWrites(uses0: Uses, ip: nat, dsts: seq<Reg>) returns (uses: Uses)
    ensures WritesEntered(uses0, uses, ip, dsts)
  {
    uses := uses0;
    assert dsts[..0] == [];
    for i := 0 to |dsts|
      invariant WritesEntered(uses0, uses, ip, dsts[..i])
    {
      assert dsts[..i + 1] == dsts[..i] + [dsts[i]];
      uses := uses[dsts[i] := Use(uses, dsts[i]).SetWrite(ip, i)];
    }
    assert dsts[..|dsts|] == dsts;
  }

  method EnterReads(uses0: Uses, ip: nat, regs: seq<Reg>, guards: bool) returns (uses: Uses)
    ensures ReadsEntered(uses0, uses, ip, regs, guards)
  {
    hide ReadEntered;
    uses := uses0;
    assert regs[..0] == [];
    NothingEntered(uses0, ip, guards);
    for i := 0 to |regs|
      invariant ReadsEntered(uses0, uses, ip, regs[..i], guards)
    {
      assert regs[..i + 1] == regs[..i] + [regs[i]];
      var idx := if guards then None else Some(i);
      ghost var before := uses;
      uses := uses[regs[i] := Use(uses, regs[i]).AddRead(ip, idx)];
      forall r
        ensures ReadEntered(Use(uses0, r), Use(uses, r), ip, regs[..i + 1], guards, r)
      {
        EnterOnce(Use(uses0, r), Use(before, r), ip, regs[..i], regs[i], guards, r);
      }
    }
    assert regs[..|regs|] == regs;
  }

  lemma NothingEntered(uses: Uses, ip: nat, guards: bool)
    ensures ReadsEntered(uses, uses, ip, [], guards)
  {
  }

  lemma EnterOnce(before: RegUse, u: RegUse, ip: nat, regs: seq<Reg>, reg: Reg, guards: bool, r: Reg)
    requires ReadEntered(before, u, ip, regs, guards, r)
    ensures ReadEntered(before, if r == reg then u.AddRead(ip, if guards then None else Some(|regs|)) else u, ip, regs + [reg], guards, r)
  {
  }

  lemma UsesAfter(instrs: seq<Instr>, ip: nat, u0: Uses, u1: Uses, u2: Uses, u3: Uses)
    requires ip < |instrs| && UsesOk(instrs, u0, ip + 1) && WritesEntered(u0, u1, ip, instrs[ip].dsts)
    requires ReadsEntered(u1, u2, ip, instrs[ip].guards, true) && ReadsEntered(u2, u3, ip, instrs[ip].srcs, false)
    ensures UsesOk(instrs, u3, ip)
  {
    hide UseOk, ReadEntered;
    forall r
      ensures UseOk(instrs, r, Use(u3, r), ip)
    {
      UseAfter(instrs, ip, r, Use(u0, r), Use(u1, r), Use(u2, r), Use(u3, r));
    }
  }

  lemma UseAfter(instrs: seq<Instr>, ip: nat, r: Reg, u0: RegUse, u1: RegUse, u2: RegUse, u3: RegUse)
    requires ip < |instrs| && UseOk(instrs, r, u0, ip + 1)
    requires if instrs[ip].Writes(r) then u1.readers == [] && u1.write.Some? && u1.write.value.0 == ip && WritesAt(instrs[ip].dsts, r, u1.write.value.1)
             else u1 == u0
    requires ReadEntered(u1, u2, ip, instrs[ip].guards, true, r) && ReadEntered(u2, u3, ip, instrs[ip].srcs, false, r)
    ensures UseOk(instrs, r, u3, ip)
  {
    hide WritesAt;
    forall x
      ensures x in u3.readers <==> IsNextRead(instrs, r, ip, x.0) && ReadsAt(instrs[x.0], r, x.1)
    {
      assert x in u3.readers <==> x in u1.readers || (x.0 == ip && ReadsAt(instrs[ip], r, x.1));
      assert x in u0.readers <==> IsNextRead(instrs, r, ip + 1, x.0) && ReadsAt(instrs[x.0], r, x.1);
      assert ip < x.0 && !instrs[ip].Writes(r) ==> (IsNextRead(instrs, r, ip + 1, x.0) <==> IsNextRead(instrs, r, ip, x.0));
    }
  }

  // ----- The graph -----

  ghost predicate GraphOk(instrs: seq<Instr>, g: seq<seq<Edge>>) {
    |g| == |instrs| && forall i: nat :: i < |instrs| ==> NodeOk(instrs, i, g[i])
  }

  ghost predicate EffectsOk(instrs: seq<Instr>, g: seq<seq<Edge>>) {
    |g| == |instrs| && forall i: nat :: i < |instrs| ==> ToEffects(instrs, i, g[i])
  }

  lemma GraphHasEffects(instrs: seq<Instr>, g: seq<seq<Edge>>)
    requires GraphOk(instrs, g)
    ensures EffectsOk(instrs, g)
  {
    hide ToEffects;
    forall i: nat | i < |instrs|
      ensures ToEffects(instrs, i, g[i])
    {
      assert NodeOk(instrs, i, g[i]);
    }
  }

  lemma NextAfter(instrs: seq<Instr>, e: SideEffect, ip: nat, next: Option<nat>)
    requires ip < |instrs| && NextEffect(instrs, e, ip + 1, next)
    ensures NextEffect(instrs, e, ip, if instrs[ip].effect == e then Some(ip) else next)
  {
  }

  /** Exactly the edges that are wanted. */
  ghost predicate IsExactGraph(sm: Sm, instrs: seq<Instr>, g: seq<seq<Edge>>) {
    |g| == |instrs| && forall i: nat :: i < |instrs| ==> IsExactNode(sm, instrs, i, g[i])
  }

  lemma GraphIsOk(sm: Sm, instrs: seq<Instr>, g: seq<seq<Edge>>)
    requires IsExactGraph(sm, instrs, g)
    ensures GraphOk(instrs, g)
  {
    hide IsExactNode, NodeOk;
    forall i: nat | i < |instrs|
      ensures NodeOk(instrs, i, g[i])
    {
      NodeIsOk(sm, instrs, i, g[i]);
    }
  }

  /** The dependency graph of a block, and when each instruction can start at the earliest, counted from
      the end of the block. */
  method GenerateDepGraph(sm: Sm, instrs: seq<Instr>) returns (g: seq<seq<Edge>>, ready: seq<nat>)
    ensures IsExactGraph(sm, instrs, g) && |ready| == |instrs| && forall i :: 0 <= i < |instrs| ==> ready[i] == ReadyCycle(sm, instrs, i)
  {
    hide UsesOk, NextEffect, EffectWants, DstWants, SrcWants, ReadyCycle;
    g, ready := seq(|instrs|, i => []), seq(|instrs|, i => 0);
    var uses: Uses := map[];
    var lastMemory: Option<nat>, lastBarrier: Option<nat> := None, None;
    NothingNext(instrs);
    for ip := |instrs| downto 0
      invariant |g| == |instrs| == |ready| && UsesOk(instrs, uses, ip)
      invariant NextEffect(instrs, Memory, ip, lastMemory) && NextEffect(instrs, Barrier, ip, lastBarrier)
      invariant forall i: nat :: ip <= i < |instrs| ==> IsExactNode(sm, instrs, i, g[i]) && ready[i] == ReadyCycle(sm, instrs, i)
    {
      var instr := instrs[ip];
      var e1 := EffectEdges(instrs, ip, lastMemory, lastBarrier);
      NextAfter(instrs, Memory, ip, lastMemory);
      NextAfter(instrs, Barrier, ip, lastBarrier);
      if instr.effect == Memory {
        lastMemory := Some(ip);
      } else if instr.effect == Barrier {
        lastBarrier := Some(ip);
      }
      var e2 := DstEdges(sm, instrs, ip, uses);
      var e3 := SrcEdges(sm, instrs, ip, uses);
      assert IsExactNode(sm, instrs, ip, e1 + e2 + e3);
      g := g[ip := e1 + e2 + e3];
      var u1 := EnterWrites(uses, ip, instr.dsts);
      var u2 := EnterReads(u1, ip, instr.guards, true);
      var u3 := EnterReads(u2, ip, instr.srcs, false);
      UsesAfter(instrs, ip, uses, u1, u2, u3);
      uses := u3;
      var cycle := WorstLatency(sm, instr);
      ReadyCycleIs(sm, instrs, ip, cycle);
      ready := ready[ip := Max(cycle, sm.variable(instr.op) + sm.exec(instrs[|instrs| - 1].op))];
    }
  }

  /** How long the first `n` results of an instruction may take. */
  function Worst(sm: Sm, instr: Instr, n: nat): nat {
    if n == 0 then 0 else Max(Worst(sm, instr, n - 1), sm.worst(instr.op, n - 1))
  }

  /** When an instruction can start at the earliest, counted from the end of the block. */
  function ReadyCycle(sm: Sm, instrs: seq<Instr>, i: nat): nat
    requires i < |instrs|
  {
    Max(Worst(sm, instrs[i], |instrs[i].dsts|), sm.variable(instrs[i].op) + sm.exec(instrs[|instrs| - 1].op))
  }

  lemma ReadyCycleIs(sm: Sm, instrs: seq<Instr>, i: nat, worst: nat)
    requires i < |instrs| && worst == Worst(sm, instrs[i], |instrs[i].dsts|)
    ensures ReadyCycle(sm, instrs, i) == Max(worst, sm.variable(instrs[i].op) + sm.exec(instrs[|instrs| - 1].op))
  {
  }

  method WorstLatency(sm: Sm, instr: Instr) returns (m: nat)
    ensures m == Worst(sm, instr, |instr.dsts|)
  {
    m := 0;
    for i := 0 to |instr.dsts|
      invariant m == Worst(sm, instr, i)
    {
      m := Max(m, sm.worst(instr.op, i));
    }
  }

  lemma NothingNext(instrs: seq<Instr>)
    ensures UsesOk(instrs, map[], |instrs|) && NextEffect(instrs, Memory, |instrs|, None) && NextEffect(instrs, Barrier, |instrs|, None)
  {
  }

  // ----- Orders that respect the graph -----

  /** All instructions, each once. */
  ghost predicate IsPermutation(order: seq<nat>, n: nat) {
    |order| == n && (forall i :: 0 <= i < n ==> order[i] < n) && forall i, j :: 0 <= i < j < n ==> order[i] != order[j]
  }

  ghost predicate Respects(g: seq<seq<Edge>>, order: seq<nat>) {
    forall i, k {:trigger g[i][k]} :: 0 <= i < |g| && 0 <= k < |g[i]| ==> Before(order, i, g[i][k].head)
  }

  lemma BeforeTwice(order: seq<nat>, n: nat, x: nat, y: nat, z: nat)
    requires IsPermutation(order, n) && Before(order, x, y) && Before(order, y, z)
    ensures Before(order, x, z)
  {
    var i, j :| 0 <= i < j < |order| && order[i] == x && order[j] == y;
    var k, l :| 0 <= k < l < |order| && order[k] == y && order[l] == z;
  }

  lemma PointsBefore(g: seq<seq<Edge>>, order: seq<nat>, i: nat, j: nat)
    requires Respects(g, order) && i < |g| && Points(g[i], j)
    ensures Before(order, i, j)
  {
    var k :| 0 <= k < |g[i]| && g[i][k].head == j;
  }

  lemma {:induction false} SomeFirstWrite(instrs: seq<Instr>, r: Reg, from: nat, j: nat) returns (w: nat)
    requires from <= j < |instrs| && instrs[j].Writes(r)
    ensures w <= j && FirstWrite(instrs, r, from, w)
    decreases j - from
  {
    if instrs[from].Writes(r) {
      w := from;
    } else {
      w := SomeFirstWrite(instrs, r, from + 1, j);
    }
  }

  /** A write, or a read of a source, stays before every later write of the register. */
  lemma {:induction false} BeforeWrite(instrs: seq<Instr>, g: seq<seq<Edge>>, order: seq<nat>, i: nat, j: nat, r: Reg)
    requires GraphOk(instrs, g) && IsPermutation(order, |instrs|) && Respects(g, order)
    requires i < j < |instrs| && (instrs[i].Writes(r) || r in instrs[i].srcs) && instrs[j].Writes(r)
    ensures Before(order, i, j)
    decreases j - i
  {
    hide Before, IsPermutation, Respects, FirstWrite, ToEffects, ToReads;
    assert NodeOk(instrs, i, g[i]);
    var w := SomeFirstWrite(instrs, r, i + 1, j);
    PointsBefore(g, order, i, w);
    if w < j {
      IsWrite(instrs, r, i + 1, w);
      BeforeWrite(instrs, g, order, w, j, r);
      BeforeTwice(order, |instrs|, i, w, j);
    }
  }

  lemma IsWrite(instrs: seq<Instr>, r: Reg, from: nat, w: nat)
    requires FirstWrite(instrs, r, from, w)
    ensures from <= w < |instrs| && instrs[w].Writes(r)
  {
  }

  /** A write stays before every later read. */
  lemma {:induction false} BeforeRead(instrs: seq<Instr>, g: seq<seq<Edge>>, order: seq<nat>, i: nat, j: nat, r: Reg)
    requires GraphOk(instrs, g) && IsPermutation(order, |instrs|) && Respects(g, order)
    requires i < j < |instrs| && instrs[i].Writes(r) && instrs[j].Reads(r)
    ensures Before(order, i, j)
    decreases j - i
  {
    hide Before, IsPermutation, Respects, ToEffects, ToWrites;
    assert NodeOk(instrs, i, g[i]);
    if NoWrites(instrs, r, i + 1, j) {
      PointsBefore(g, order, i, j);
    } else {
      var w :| i + 1 <= w < j && instrs[w].Writes(r);
      BeforeWrite(instrs, g, order, i, w, r);
      BeforeRead(instrs, g, order, w, j, r);
      BeforeTwice(order, |instrs|, i, w, j);
    }
  }

  lemma {:induction false} SomeNextEffect(instrs: seq<Instr>, e: SideEffect, from: nat, j: nat) returns (b: nat)
    requires from <= j < |instrs| && instrs[j].effect == e
    ensures b <= j && NextEffect(instrs, e, from, Some(b))
    decreases j - from
  {
    if instrs[from].effect == e {
      b := from;
    } else {
      b := SomeNextEffect(instrs, e, from + 1, j);
    }
  }

  /** Everything stays before a later barrier, and what touches memory before what touches it later. */
  lemma {:induction false} BeforeEffect(instrs: seq<Instr>, g: seq<seq<Edge>>, order: seq<nat>, i: nat, j: nat, e: SideEffect)
    requires EffectsOk(instrs, g) && IsPermutation(order, |instrs|) && Respects(g, order)
    requires i < j < |instrs| && instrs[j].effect == e && (e == Barrier || (e == Memory && instrs[i].effect == Memory))
    ensures Before(order, i, j)
    decreases j - i
  {
    hide Before, IsPermutation, Respects;
    assert ToEffects(instrs, i, g[i]);
    var b := SomeNextEffect(instrs, e, i + 1, j);
    PointsBefore(g, order, i, b);
    if b < j {
      BeforeEffect(instrs, g, order, b, j, e);
      BeforeTwice(order, |instrs|, i, b, j);
    }
  }

  /** A barrier stays before everything after it. */
  lemma {:induction false} BarrierBefore(instrs: seq<Instr>, g: seq<seq<Edge>>, order: seq<nat>, i: nat, j: nat)
    requires EffectsOk(instrs, g) && IsPermutation(order, |instrs|) && Respects(g, order)
    requires i < j < |instrs| && instrs[i].effect == Barrier
    ensures Before(order, i, j)
    decreases j - i
  {
    hide Before, IsPermutation, Respects;
    assert ToEffects(instrs, i, g[i]);
    if b: nat :| i < b < j && instrs[b].effect == Barrier {
      BarrierBefore(instrs, g, order, i, b);
      BarrierBefore(instrs, g, order, b, j);
      BeforeTwice(order, |instrs|, i, b, j);
    } else {
      PointsBefore(g, order, i, j);
    }
  }

  /** A chain of edges joins `x` to `y`. */
  ghost predicate Leads(g: seq<seq<Edge>>, x: nat, y: nat)
    decreases if x < |g| then |g| - x else 0
  {
    x == y || (x < |g| && exists k :: 0 <= k < |g[x]| && x < g[x][k].head && Leads(g, g[x][k].head, y))
  }

  lemma {:induction false} LeadsBefore(g: seq<seq<Edge>>, order: seq<nat>, x: nat, y: nat)
    requires IsPermutation(order, |g|) && Respects(g, order) && x < |g| && Leads(g, x, y) && x != y
    ensures Before(order, x, y)
    decreases |g| - x
  {
    hide Respects, IsPermutation;
    var k :| 0 <= k < |g[x]| && x < g[x][k].head && Leads(g, g[x][k].head, y);
    var h := g[x][k].head;
    EdgeBefore(g, order, x, k);
    if h != y && h < |g| {
      LeadsBefore(g, order, h, y);
      BeforeTwice(order, |g|, x, h, y);
    }
  }

  lemma EdgeBefore(g: seq<seq<Edge>>, order: seq<nat>, x: nat, k: nat)
    requires Respects(g, order) && x < |g| && k < |g[x]|
    ensures Before(order, x, g[x][k].head)
  {
  }

  /** Every guard is joined to the next write of its register. */
  ghost predicate GuardsLead(instrs: seq<Instr>, g: seq<seq<Edge>>) {
    forall i: nat, r, w {:trigger FirstWrite(instrs, r, i + 1, w)} :: i < |instrs| && r in instrs[i].guards && FirstWrite(instrs, r, i + 1, w) ==> Leads(g, i, w)
  }

  lemma GuardBefore(instrs: seq<Instr>, g: seq<seq<Edge>>, order: seq<nat>, i: nat, j: nat, r: Reg)
    requires GraphOk(instrs, g) && IsPermutation(order, |instrs|) && Respects(g, order) && GuardsLead(instrs, g)
    requires i < j < |instrs| && r in instrs[i].guards && instrs[j].Writes(r)
    ensures Before(order, i, j)
  {
    hide IsPermutation, Respects, Leads, NodeOk;
    var w := SomeFirstWrite(instrs, r, i + 1, j);
    LeadsBefore(g, order, i, w);
    if w < j {
      BeforeWrite(instrs, g, order, w, j, r);
      BeforeTwice(order, |instrs|, i, w, j);
    }
  }

  function Identity(n: nat): seq<nat> {
    seq(n, i => i)
  }

  /** An order that respects the graph keeps the order of all instructions with a conflict. */
  lemma RespectingKeepsOrder(instrs: seq<Instr>, g: seq<seq<Edge>>, order: seq<nat>)
    requires GraphOk(instrs, g) && IsPermutation(order, |instrs|) && Respects(g, order) && GuardsLead(instrs, g)
    ensures AreIds(instrs, Identity(|instrs|)) && KeepsOrder(instrs, Identity(|instrs|), order)
  {
    hide Before, IsPermutation, Respects, GraphOk, EffectsOk, GuardsLead;
    GraphHasEffects(instrs, g);
    forall i: nat, j: nat | i < j < |instrs| && Conflict(instrs[i], instrs[j])
      ensures Before(order, i, j)
    {
      var a, b := instrs[i], instrs[j];
      if r :| r in a.dsts && b.Reads(r) {
        BeforeRead(instrs, g, order, i, j, r);
      } else if r :| r in b.dsts && (a.Writes(r) || r in a.srcs) {
        BeforeWrite(instrs, g, order, i, j, r);
      } else if r :| r in b.dsts && r in a.guards {
        GuardBefore(instrs, g, order, i, j, r);
      } else if a.effect == Barrier {
        BarrierBefore(instrs, g, order, i, j);
      } else {
        BeforeEffect(instrs, g, order, i, j, b.effect);
      }
    }
  }

  /** The meaning of the block does not change, as long as every guard is joined to the next write. */
  lemma OrderKeepsMeaning<V, W>(m: Meaning<V, W>, instrs: seq<Instr>, g: seq<seq<Edge>>, order: seq<nat>, s: Config<V, W>)
    requires GraphOk(instrs, g) && IsPermutation(order, |instrs|) && Respects(g, order) && GuardsLead(instrs, g)
    ensures Same(Run(m, instrs, Identity(|instrs|), s), Run(m, instrs, order, s))
  {
    hide Before, Respects, GraphOk, Conflict, KeepsOrder, GuardsLead;
    RespectingKeepsOrder(instrs, g, order);
    SameElements(order, |instrs|);
    Reordered(m, instrs, Identity(|instrs|), order, s);
  }

  lemma SameElements(order: seq<nat>, n: nat)
    requires IsPermutation(order, n)
    ensures forall x :: x in Identity(n) <==> x in order
  {
    forall x: nat | x < n
      ensures x in order && x in Identity(n)
    {
      Contains(order, n, x);
      assert Identity(n)[x] == x;
    }
  }

  /** A permutation misses nothing. */
  lemma Contains(order: seq<nat>, n: nat, x: nat)
    requires IsPermutation(order, n) && x < n
    ensures x in order
  {
    CountElements(order);
    InRange(order, n);
    SubsetAll(ToSet(order), Upto(n));
    assert x in ToSet(order);
  }

  lemma InRange(order: seq<nat>, n: nat)
    requires IsPermutation(order, n)
    ensures ToSet(order) <= Upto(n)
  {
  }

  ghost function Upto(n: nat): (s: set<nat>)
    ensures |s| == n && forall x :: x in s <==> 0 <= x < n
  {
    if n == 0 then {} else Upto(n - 1) + {n - 1}
  }

  ghost function ToSet(order: seq<nat>): set<nat> {
    set x | x in order
  }

  lemma {:induction false} CountElements(order: seq<nat>)
    requires forall i, j :: 0 <= i < j < |order| ==> order[i] != order[j]
    ensures |ToSet(order)| == |order|
  {
    if order != [] {
      var last, shorter := order[|order| - 1], order[..|order| - 1];
      assert order == shorter + [last];
      CountElements(shorter);
      assert ToSet(order) == ToSet(shorter) + {last} && last !in ToSet(shorter);
    }
  }

  lemma {:induction false} SubsetAll(a: set<nat>, b: set<nat>)
    requires a <= b && |a| == |b|
    ensures a == b
  {
    if a != {} {
      var x :| x in a;
      SubsetAll(a - {x}, b - {x});
    }
  }
}
