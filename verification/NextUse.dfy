/** Next-use distances across blocks (crates/deko-nak/src/liveness.rs, `NextUseLiveness`). */
module NextUse {
  import opened Flow
  import opened Dataflow

  /** What a block knows of one value: whether it defines it, and where it is used, as instruction
      distances from the start of the block.  All in-block uses come first; at most one distance
      beyond the end stands for the nearest use in the successors. */
  datatype UseDef = UseDef(defined: bool, uses: seq<nat>)

  datatype BlockUses = BlockUses(numInstrs: nat, map_: map<Ssa, UseDef>)
  {
    function Entry(v: Ssa): UseDef {
      if v in map_ then map_[v] else UseDef(false, [])
    }
  }

  // ----- Collecting the uses of one block -----

  /** The in-block uses of `v` before `end`, in order; an instruction that reads `v` twice appears
      twice. */
  ghost function UseList(instrs: seq<Instr>, v: Ssa): seq<nat> {
    if instrs == [] then [] else
      UseList(instrs[..|instrs| - 1], v) + Repeat(|instrs| - 1, Occurrences(instrs[|instrs| - 1].uses, v))
  }

  ghost function Occurrences(vs: seq<Ssa>, v: Ssa): nat {
    multiset(vs)[v]
  }

  ghost function Repeat(ip: nat, n: nat): seq<nat> {
    seq(n, i => ip)
  }

  ghost predicate IsDefined(instrs: seq<Instr>, v: Ssa) {
    exists ip :: 0 <= ip < |instrs| && v in instrs[ip].defs
  }

  /** `block` holds exactly what the instructions say. */
  ghost predicate Collected(instrs: seq<Instr>, block: BlockUses) {
    forall v :: block.Entry(v) == UseDef(IsDefined(instrs, v), UseList(instrs, v))
  }

  lemma UseListSnoc(instrs: seq<Instr>, instr: Instr, v: Ssa)
    ensures UseList(instrs + [instr], v) == UseList(instrs, v) + Repeat(|instrs|, Occurrences(instr.uses, v))
    ensures IsDefined(instrs + [instr], v) <==> IsDefined(instrs, v) || v in instr.defs
  {
    assert (instrs + [instr])[..|instrs|] == instrs;
    if IsDefined(instrs, v) {
      var ip :| 0 <= ip < |instrs| && v in instrs[ip].defs;
      assert v in (instrs + [instr])[ip].defs;
    }
    if v in instr.defs {
      assert v in (instrs + [instr])[|instrs|].defs;
    }
  }

  method AddUses(block0: BlockUses, uses: seq<Ssa>, ip: nat) returns (block: BlockUses)
    ensures block.numInstrs == block0.numInstrs
    ensures forall v :: block.Entry(v) ==
              block0.Entry(v).(uses := block0.Entry(v).uses + Repeat(ip, Occurrences(uses, v)))
  {
    block := block0;
    for k := 0 to |uses|
      invariant block.numInstrs == block0.numInstrs
      invariant forall v :: block.Entry(v) ==
                  block0.Entry(v).(uses := block0.Entry(v).uses + Repeat(ip, Occurrences(uses[..k], v)))
    {
      var v := uses[k];
      assert uses[..k + 1] == uses[..k] + [v];
      var entry := block.Entry(v);
      ghost var more := Repeat(ip, Occurrences(uses[..k], v)) + [ip];
      assert more == Repeat(ip, Occurrences(uses[..k + 1], v));
      assert block0.Entry(v).uses + more == entry.uses + [ip];
      block := block.(map_ := block.map_[v := entry.(uses := entry.uses + [ip])]);
    }
    assert uses[..|uses|] == uses;
  }

  method AddDefs(block0: BlockUses, defs: seq<Ssa>) returns (block: BlockUses)
    ensures block.numInstrs == block0.numInstrs
    ensures forall v :: block.Entry(v) == block0.Entry(v).(defined := block0.Entry(v).defined || v in defs)
  {
    block := block0;
    for k := 0 to |defs|
      invariant block.numInstrs == block0.numInstrs
      invariant forall v :: block.Entry(v) == block0.Entry(v).(defined := block0.Entry(v).defined || v in defs[..k])
    {
      var v := defs[k];
      assert defs[..k + 1] == defs[..k] + [v];
      block := block.(map_ := block.map_[v := block.Entry(v).(defined := true)]);
    }
    assert defs[..|defs|] == defs;
  }

  method CollectBlock(instrs: seq<Instr>) returns (block: BlockUses)
    ensures block.numInstrs == |instrs| && Collected(instrs, block)
  {
    block := BlockUses(|instrs|, map[]);
    for ip := 0 to |instrs|
      invariant block.numInstrs == |instrs| && Collected(instrs[..ip], block)
    {
      assert instrs[..ip + 1] == instrs[..ip] + [instrs[ip]];
      ghost var block0 := block;
      block := AddUses(block, instrs[ip].uses, ip);
      block := AddDefs(block, instrs[ip].defs);
      forall v
        ensures block.Entry(v) == UseDef(IsDefined(instrs[..ip + 1], v), UseList(instrs[..ip + 1], v))
      {
        UseListSnoc(instrs[..ip], instrs[ip], v);
      }
    }
    assert instrs[..|instrs|] == instrs;
  }

  ghost predicate Sorted(uses: seq<nat>) {
    forall i, j :: 0 <= i < j < |uses| ==> uses[i] <= uses[j]
  }

  lemma {:induction false} UseListFacts(instrs: seq<Instr>, v: Ssa)
    ensures Sorted(UseList(instrs, v))
    ensures forall x: nat :: x in UseList(instrs, v) <==> x < |instrs| && v in instrs[x].uses
  {
    if instrs != [] {
      var front, last := instrs[..|instrs| - 1], |instrs| - 1;
      UseListFacts(front, v);
      var r := Repeat(last, Occurrences(instrs[last].uses, v));
      SortedAppend(UseList(front, v), r, last);
      assert v in instrs[last].uses <==> v in multiset(instrs[last].uses);
      if v in instrs[last].uses {
        assert r[0] == last;
      }
      forall x: nat
        ensures x in UseList(instrs, v) <==> x < |instrs| && v in instrs[x].uses
      {
        assert x in UseList(instrs, v) <==> x in UseList(front, v) || x in r;
        assert x < last ==> front[x] == instrs[x];
      }
    }
  }

  lemma SortedAppend(a: seq<nat>, b: seq<nat>, x: nat)
    requires Sorted(a) && (forall y :: y in a ==> y < x) && (forall y :: y in b ==> y == x)
    ensures Sorted(a + b)
  {
    forall i, j | 0 <= i < j < |a + b|
      ensures (a + b)[i] <= (a + b)[j]
    {
      assert i < |a| ==> a[i] in a;
      assert i >= |a| ==> b[i - |a|] in b;
      assert j >= |a| ==> b[j - |a|] in b;
    }
  }

  // ----- The dataflow problem -----

  /** Records a use in a successor, `useIp` instructions after the end of this block. */
  function AddSuccessorUse(entry: UseDef, numInstrs: nat, useIp: nat): (UseDef, bool) {
    var ip := numInstrs + useIp;
    var n := |entry.uses|;
    if n > 0 then
      var last := entry.uses[n - 1];
      if last < numInstrs then (entry.(uses := entry.uses + [ip]), true)
      else if last > ip then (entry.(uses := entry.uses[n - 1 := ip]), true)
      else (entry, false)
    else (entry.(uses := [ip]), true)
  }

  function Transfer(block: BlockUses, liveOut: map<Ssa, nat>): (BlockUses, bool) {
    (block.(map_ := map v | v in block.map_.Keys + liveOut.Keys ::
              if v in liveOut then AddSuccessorUse(block.Entry(v), block.numInstrs, liveOut[v]).0 else block.map_[v]),
     exists v :: v in liveOut && AddSuccessorUse(block.Entry(v), block.numInstrs, liveOut[v]).1)
  }

  /** The first use a block reports to its predecessors: none for values it defines itself. */
  predicate Exports(block: BlockUses, v: Ssa) {
    v in block.map_ && !block.map_[v].defined && block.map_[v].uses != []
  }

  function Join(liveOut: map<Ssa, nat>, block: BlockUses): map<Ssa, nat> {
    map v | v in liveOut.Keys + block.map_.Keys && (v in liveOut || Exports(block, v)) ::
      if !Exports(block, v) then liveOut[v]
      else if v in liveOut && liveOut[v] <= block.map_[v].uses[0] then liveOut[v]
      else block.map_[v].uses[0]
  }

  function NextUseProblem(): Problem<BlockUses, map<Ssa, nat>> {
    Problem((b: nat, block, liveOut) => Transfer(block, liveOut), (liveOut, block) => Join(liveOut, block))
  }

  // ----- Laws -----

  /** Some path that leaves block `b` reads `v` after `d` more instructions. */
  ghost predicate UsedBeyond(f: Function, b: nat, v: Ssa, d: nat) {
    b < |f.succ| && exists path, ip: nat :: f.ReachesUse(path, ip, v) && path[0] in f.succ[b] && d == f.Length(path) + ip
  }

  ghost predicate UsedWithin(f: Function, b: nat, v: Ssa, d: nat) {
    exists path, ip: nat :: f.ReachesUse(path, ip, v) && path[0] == b && d == f.Length(path) + ip
  }

  /** An entry is the in-block use list plus at most one witnessed distance beyond the end. */
  ghost predicate GoodEntry(f: Function, b: nat, v: Ssa, entry: UseDef) {
    && b < |f.blocks|
    && (entry.defined <==> IsDefined(f.blocks[b], v))
    && UseList(f.blocks[b], v) <= entry.uses
    && |entry.uses| <= |UseList(f.blocks[b], v)| + 1
    && (forall i :: |UseList(f.blocks[b], v)| <= i < |entry.uses| ==>
          entry.uses[i] >= |f.blocks[b]| && UsedBeyond(f, b, v, entry.uses[i] - |f.blocks[b]|))
  }

  ghost predicate GoodBlock(f: Function, n: nat, b: nat, block: BlockUses) {
    && b < |f.blocks| && block.numInstrs == |f.blocks[b]|
    && (forall v :: v in block.map_ ==> v < n)
    && (forall v :: GoodEntry(f, b, v, block.Entry(v)))
  }

  ghost predicate GoodOut(f: Function, n: nat, q: nat, liveOut: map<Ssa, nat>) {
    forall v :: v in liveOut ==> v < n && UsedBeyond(f, q, v, liveOut[v])
  }

  ghost predicate Covers(liveOut: map<Ssa, nat>, block: BlockUses) {
    forall v :: Exports(block, v) ==> v in liveOut && liveOut[v] <= block.map_[v].uses[0]
  }

  ghost function Missing(liveOut: map<Ssa, nat>, n: nat): nat {
    if n == 0 then 0 else Missing(liveOut, n - 1) + if n - 1 in liveOut then 0 else 1
  }

  ghost function Distances(liveOut: map<Ssa, nat>, n: nat): nat {
    if n == 0 then 0 else Distances(liveOut, n - 1) + if n - 1 in liveOut then liveOut[n - 1] else 0
  }

  ghost function NextUseLaws(f: Function, n: nat): Laws<BlockUses, map<Ssa, nat>> {
    Laws((liveOut, block) => Covers(liveOut, block),
         liveOut => (Missing(liveOut, n), Distances(liveOut, n)),
         (b: nat, block) => GoodBlock(f, n, b, block),
         (q: nat, liveOut) => GoodOut(f, n, q, liveOut))
  }

  lemma {:induction false} RankOfJoin(o: map<Ssa, nat>, o': map<Ssa, nat>, n: nat)
    requires forall v :: v in o ==> v in o' && o'[v] <= o[v]
    ensures Missing(o', n) <= Missing(o, n)
    ensures Missing(o', n) == Missing(o, n) ==>
              && Distances(o', n) <= Distances(o, n)
              && (forall v :: v < n ==> (v in o <==> v in o'))
              && (Distances(o', n) == Distances(o, n) ==> forall v :: v < n && v in o ==> o'[v] == o[v])
  {
    if n > 0 {
      RankOfJoin(o, o', n - 1);
    }
  }

  lemma JoinRank(f: Function, n: nat, q: nat, o: map<Ssa, nat>, block: BlockUses)
    requires GoodOut(f, n, q, o) && forall v :: v in block.map_ ==> v < n
    ensures Join(o, block) == o ||
            Below((Missing(Join(o, block), n), Distances(Join(o, block), n)), (Missing(o, n), Distances(o, n)))
  {
    var o' := Join(o, block);
    RankOfJoin(o, o', n);
    if Missing(o', n) == Missing(o, n) && Distances(o', n) == Distances(o, n) {
      assert o'.Keys == o.Keys;
      assert o' == o;
    }
  }

  lemma SameDefs(f: Function, b: nat, v: Ssa)
    requires b < |f.blocks|
    ensures f.DefinedIn(b, v) <==> IsDefined(f.blocks[b], v)
  {
    if ip: nat :| f.DefinedAt(b, ip, v) {
      assert v in f.blocks[b][ip].defs;
    }
    if IsDefined(f.blocks[b], v) {
      var ip :| 0 <= ip < |f.blocks[b]| && v in f.blocks[b][ip].defs;
      assert f.DefinedAt(b, ip, v);
    }
  }

  lemma InBlockUseIsWitnessed(f: Function, b: nat, v: Ssa, ip: nat)
    requires b < |f.blocks| && !f.DefinedIn(b, v) && f.UsedAt(b, ip, v)
    ensures UsedWithin(f, b, v, ip)
  {
    var path := [b];
    assert path[0] == b && f.ReachesUse(path, ip, v);
  }

  lemma LaterUseIsWitnessed(f: Function, b: nat, v: Ssa, d: nat)
    requires f.Valid() && b < |f.blocks| && !f.DefinedIn(b, v) && UsedBeyond(f, b, v, d)
    ensures UsedWithin(f, b, v, |f.blocks[b]| + d)
  {
    var path, ip: nat :| f.ReachesUse(path, ip, v) && path[0] in f.succ[b] && d == f.Length(path) + ip;
    ExtendPath(f, b, path, ip, v);
    assert ([b] + path)[0] == b;
  }

  lemma FirstUseIsWitnessed(f: Function, n: nat, b: nat, block: BlockUses, v: Ssa)
    requires f.Valid() && GoodBlock(f, n, b, block) && Exports(block, v)
    ensures UsedWithin(f, b, v, block.map_[v].uses[0])
  {
    assert GoodEntry(f, b, v, block.Entry(v));
    var list, first := UseList(f.blocks[b], v), block.map_[v].uses[0];
    UseListFacts(f.blocks[b], v);
    SameDefs(f, b, v);
    if list != [] {
      assert list[0] == first && first in list;
      InBlockUseIsWitnessed(f, b, v, first);
    } else {
      LaterUseIsWitnessed(f, b, v, first - |f.blocks[b]|);
    }
  }

  lemma JoinIsGood(f: Function, n: nat, b: nat, q: nat, block: BlockUses, o: map<Ssa, nat>)
    requires f.Valid() && GoodBlock(f, n, b, block) && GoodOut(f, n, q, o) && q in f.pred[b]
    ensures GoodOut(f, n, q, Join(o, block))
  {
    assert b in f.succ[q];
    forall v | v in Join(o, block)
      ensures v < n && UsedBeyond(f, q, v, Join(o, block)[v])
    {
      if Exports(block, v) {
        FirstUseIsWitnessed(f, n, b, block, v);
      }
    }
  }

  lemma JoinLaw(f: Function, n: nat)
    requires f.Valid()
    ensures JoinOk(NextUseProblem(), NextUseLaws(f, n), f.pred)
  {
    var l := NextUseLaws(f, n);
    forall b: nat, q, block, o | b < |f.pred| && q in f.pred[b] && l.goodIn(b, block) && l.goodOut(q, o)
      ensures l.goodOut(q, Join(o, block))
      ensures Join(o, block) == o || Below(l.rank(Join(o, block)), l.rank(o))
    {
      JoinIsGood(f, n, b, q, block, o);
      JoinRank(f, n, q, o, block);
    }
    assert forall o, block {:trigger Join(o, block)} :: Covers(Join(o, block), block);
    assert forall o, block, other {:trigger Join(o, block), Covers(o, other)} :: Covers(o, other) ==> Covers(Join(o, block), other);
  }

  lemma TransferLaw(f: Function, n: nat)
    requires f.Valid()
    ensures TransferOk(NextUseProblem(), NextUseLaws(f, n), |f.pred|)
  {
    var l := NextUseLaws(f, n);
    forall b: nat, block, o | b < |f.pred| && l.goodIn(b, block) && l.goodOut(b, o)
      ensures l.goodIn(b, Transfer(block, o).0)
      ensures Transfer(Transfer(block, o).0, o) == (Transfer(block, o).0, false)
      ensures !Transfer(block, o).1 ==> forall o' :: Covers(o', block) ==> Covers(o', Transfer(block, o).0)
    {
      TransferIsGood(f, n, b, block, o);
      TransferSettles(block, o);
    }
  }

  lemma TransferEntry(block: BlockUses, o: map<Ssa, nat>, v: Ssa)
    ensures Transfer(block, o).0.Entry(v) ==
            if v in o then AddSuccessorUse(block.Entry(v), block.numInstrs, o[v]).0 else block.Entry(v)
  {
  }

  lemma TransferIsGood(f: Function, n: nat, b: nat, block: BlockUses, o: map<Ssa, nat>)
    requires GoodBlock(f, n, b, block) && GoodOut(f, n, b, o)
    ensures GoodBlock(f, n, b, Transfer(block, o).0)
  {
    forall v
      ensures GoodEntry(f, b, v, Transfer(block, o).0.Entry(v))
    {
      assert GoodEntry(f, b, v, block.Entry(v));
      TransferEntry(block, o, v);
      UseListFacts(f.blocks[b], v);
      if v in o {
        EntryStaysGood(f, b, v, block.Entry(v), o[v]);
      }
    }
  }

  lemma EntryStaysGood(f: Function, b: nat, v: Ssa, entry: UseDef, d: nat)
    requires GoodEntry(f, b, v, entry) && UsedBeyond(f, b, v, d)
    requires forall x :: x in UseList(f.blocks[b], v) ==> x < |f.blocks[b]|
    ensures GoodEntry(f, b, v, AddSuccessorUse(entry, |f.blocks[b]|, d).0)
  {
    OnlyTailChanges(UseList(f.blocks[b], v), |f.blocks[b]|, entry, d);
    AppendedEntry(f, b, v, entry, d);
  }

  lemma OnlyTailChanges(list: seq<nat>, len: nat, entry: UseDef, d: nat)
    requires list <= entry.uses && |entry.uses| <= |list| + 1
    requires |entry.uses| > |list| ==> entry.uses[|list|] >= len
    requires forall x :: x in list ==> x < len
    ensures var entry' := AddSuccessorUse(entry, len, d).0;
            entry' == entry || entry' == entry.(uses := list + [len + d])
  {
    if |entry.uses| == |list| {
      if list != [] {
        assert list[|list| - 1] in list;
      }
      assert entry.uses == list;
    } else {
      assert entry.uses[|list| := len + d] == list + [len + d];
    }
  }

  lemma AppendedEntry(f: Function, b: nat, v: Ssa, entry: UseDef, d: nat)
    requires GoodEntry(f, b, v, entry) && UsedBeyond(f, b, v, d)
    ensures GoodEntry(f, b, v, entry.(uses := UseList(f.blocks[b], v) + [|f.blocks[b]| + d]))
  {
  }

  /** Recording the same successor uses again changes nothing. */
  lemma TransferSettles(block: BlockUses, o: map<Ssa, nat>)
    ensures Transfer(Transfer(block, o).0, o) == (Transfer(block, o).0, false)
    ensures !Transfer(block, o).1 ==> forall o' :: Covers(o', block) ==> Covers(o', Transfer(block, o).0)
  {
    var once := Transfer(block, o).0;
    forall v | v in o
      ensures AddSuccessorUse(once.Entry(v), once.numInstrs, o[v]) == (once.Entry(v), false)
    {
      TransferEntry(block, o, v);
    }
    assert Transfer(once, o).0.map_ == once.map_;
    if !Transfer(block, o).1 {
      assert forall v :: v in o ==> !AddSuccessorUse(block.Entry(v), block.numInstrs, o[v]).1;
      assert forall v :: v in o ==> v in block.map_ || AddSuccessorUse(block.Entry(v), block.numInstrs, o[v]).1;
      assert once.map_ == block.map_;
    }
  }

  // ----- The solution is exact -----

  ghost predicate IsSolution(f: Function, n: nat, blocks: seq<BlockUses>, outs: seq<map<Ssa, nat>>) {
    && f.Valid() && f.Strict()
    && AllGood(NextUseLaws(f, n), blocks, outs)
    && Solved(NextUseProblem(), NextUseLaws(f, n), f.pred, blocks, outs)
  }

  /** The distance recorded for a value at the end of block `b` is at most that of any path. */
  lemma RecordedBeyond(f: Function, n: nat, blocks: seq<BlockUses>, outs: seq<map<Ssa, nat>>, b: nat, c: nat, v: Ssa)
    requires IsSolution(f, n, blocks, outs) && b < |f.blocks| && c in f.succ[b] && Exports(blocks[c], v)
    ensures var uses := blocks[b].Entry(v).uses;
            && uses != []
            && |f.blocks[b]| <= uses[|uses| - 1] <= |f.blocks[b]| + blocks[c].map_[v].uses[0]
  {
    assert b in f.pred[c];
    assert Covered(NextUseLaws(f, n), blocks, outs, c, b);
    assert v in outs[b] && outs[b][v] <= blocks[c].map_[v].uses[0];
    assert Stable(NextUseProblem(), blocks, outs, b);
    assert !AddSuccessorUse(blocks[b].Entry(v), blocks[b].numInstrs, outs[b][v]).1;
    assert NextUseLaws(f, n).goodIn(b, blocks[b]);
  }

  lemma {:induction false} PathIsRecorded(f: Function, n: nat, blocks: seq<BlockUses>, outs: seq<map<Ssa, nat>>,
                                          path: seq<nat>, ip: nat, v: Ssa)
    requires IsSolution(f, n, blocks, outs) && f.ReachesUse(path, ip, v)
    ensures Exports(blocks[path[0]], v)
    ensures blocks[path[0]].map_[v].uses[0] <= f.Length(path) + ip
    decreases |path|
  {
    var b := path[0];
    assert NextUseLaws(f, n).goodIn(b, blocks[b]) && GoodEntry(f, b, v, blocks[b].Entry(v));
    SameDefs(f, b, v);
    UseListFacts(f.blocks[b], v);
    var list, uses := UseList(f.blocks[b], v), blocks[b].Entry(v).uses;
    if |path| == 1 {
      assert f.ExposedUse(b, ip, v) && ip in list;
      FirstIsLeast(list, ip);
    } else {
      hide UseList;
      TailPath(f, path, ip, v);
      PathIsRecorded(f, n, blocks, outs, path[1..], ip, v);
      RecordedBeyond(f, n, blocks, outs, b, path[1], v);
      if list != [] {
        assert uses[0] == list[0] && list[0] in list;
      } else {
        assert |uses| == 1;
      }
    }
  }

  lemma FirstIsLeast(s: seq<nat>, x: nat)
    requires Sorted(s) && x in s
    ensures s != [] && s[0] <= x
  {
  }

  lemma UsesAreSorted(f: Function, b: nat, v: Ssa, entry: UseDef)
    requires GoodEntry(f, b, v, entry)
    ensures Sorted(entry.uses)
  {
    UseListFacts(f.blocks[b], v);
    var list := UseList(f.blocks[b], v);
    assert entry.uses[..|list|] == list;
    if |entry.uses| > |list| {
      assert entry.uses == list + [entry.uses[|list|]];
      assert forall x :: x in list ==> x < |f.blocks[b]|;
      SortedAppend(list, [entry.uses[|list|]], entry.uses[|list|]);
    }
  }

  /** Along some path from just before instruction `ip` of block `b`, `v` is read after `d - ip` more
      instructions.  (A value has one definition; if that comes later in this very block, the value
      does not exist yet at `ip`.) */
  ghost predicate IsUseDistance(f: Function, b: nat, ip: nat, v: Ssa, d: nat) {
    && b < |f.blocks| && ip <= d
    && (f.UsedAt(b, d, v) || (d >= |f.blocks[b]| && UsedBeyond(f, b, v, d - |f.blocks[b]|)))
  }

  lemma RecordedUseIsReal(f: Function, b: nat, v: Ssa, entry: UseDef, d: nat)
    requires GoodEntry(f, b, v, entry) && d in entry.uses
    ensures IsUseDistance(f, b, 0, v, d)
  {
    var list := UseList(f.blocks[b], v);
    UseListFacts(f.blocks[b], v);
    var i :| 0 <= i < |entry.uses| && entry.uses[i] == d;
    if i < |list| {
      assert list[i] == d && d in list;
    }
  }

  lemma RealUseIsRecorded(f: Function, n: nat, blocks: seq<BlockUses>, outs: seq<map<Ssa, nat>>, b: nat, v: Ssa, d: nat)
    requires IsSolution(f, n, blocks, outs) && b < |f.blocks|
    requires IsUseDistance(f, b, 0, v, d)
    ensures var uses := blocks[b].Entry(v).uses;
            d in uses || (uses != [] && |f.blocks[b]| <= uses[|uses| - 1] <= d)
  {
    if f.UsedAt(b, d, v) {
      assert NextUseLaws(f, n).goodIn(b, blocks[b]) && GoodEntry(f, b, v, blocks[b].Entry(v));
      var list := UseList(f.blocks[b], v);
      UseListFacts(f.blocks[b], v);
      assert d in list;
      var i :| 0 <= i < |list| && list[i] == d;
      assert blocks[b].Entry(v).uses[i] == d;
    } else {
      var path, ip: nat :| f.ReachesUse(path, ip, v) && path[0] in f.succ[b] && d - |f.blocks[b]| == f.Length(path) + ip;
      PathIsRecorded(f, n, blocks, outs, path, ip, v);
      RecordedBeyond(f, n, blocks, outs, b, path[0], v);
    }
  }

  /** Every entry of every block lists all in-block uses, then the least distance to a use in the
      successors, if there is one. */
  ghost predicate Exact(f: Function, blocks: seq<BlockUses>) {
    && |blocks| == |f.blocks|
    && (forall b: nat, v: Ssa :: b < |f.blocks| ==>
          (blocks[b].Entry(v).defined <==> f.DefinedIn(b, v)) && ExactUses(f, b, v, blocks[b].Entry(v).uses))
  }

  ghost predicate ExactUses(f: Function, b: nat, v: Ssa, uses: seq<nat>)
    requires b < |f.blocks|
  {
    && Sorted(uses)
    && (forall d :: d in uses ==> IsUseDistance(f, b, 0, v, d))
    && (forall d: nat :: IsUseDistance(f, b, 0, v, d) ==>
          d in uses || (uses != [] && |f.blocks[b]| <= uses[|uses| - 1] <= d))
  }

  method ForFunction(f: Function) returns (blocks: seq<BlockUses>)
    requires f.Valid() && f.Strict()
    ensures Exact(f, blocks)
  {
    var n := |f.blocks|;
    blocks := [];
    for b := 0 to n
      invariant |blocks| == b
      invariant forall c: nat :: c < b ==> blocks[c].numInstrs == |f.blocks[c]| && Collected(f.blocks[c], blocks[c])
    {
      var block := CollectBlock(f.blocks[b]);
      blocks := blocks + [block];
    }
    ghost var bound := KeyBound(blocks);
    var blockIn := new BlockUses[n](b requires 0 <= b < |blocks| => blocks[b]);
    assert blockIn[..] == blocks;
    var liveOut := new map<Ssa, nat>[n](_ => map[]);
    CollectedIsGood(f, bound, blocks, liveOut[..]);
    TransferLaw(f, bound);
    JoinLaw(f, bound);
    SolveBackward(f.pred, NextUseProblem(), blockIn, liveOut, NextUseLaws(f, bound));
    blocks := blockIn[..];
    SolutionIsExact(f, bound, blocks, liveOut[..]);
  }

  lemma SolutionIsExact(f: Function, n: nat, blocks: seq<BlockUses>, outs: seq<map<Ssa, nat>>)
    requires IsSolution(f, n, blocks, outs)
    ensures Exact(f, blocks)
  {
    forall b: nat, v: Ssa | b < |f.blocks|
      ensures (blocks[b].Entry(v).defined <==> f.DefinedIn(b, v)) && ExactUses(f, b, v, blocks[b].Entry(v).uses)
    {
      var entry := blocks[b].Entry(v);
      assert NextUseLaws(f, n).goodIn(b, blocks[b]) && GoodEntry(f, b, v, entry);
      SameDefs(f, b, v);
      UsesAreSorted(f, b, v, entry);
      forall d | d in entry.uses
        ensures IsUseDistance(f, b, 0, v, d)
      {
        RecordedUseIsReal(f, b, v, entry, d);
      }
      forall d: nat | IsUseDistance(f, b, 0, v, d)
        ensures d in entry.uses || (entry.uses != [] && |f.blocks[b]| <= entry.uses[|entry.uses| - 1] <= d)
      {
        RealUseIsRecorded(f, n, blocks, outs, b, v, d);
      }
    }
  }

  lemma CollectedIsGood(f: Function, n: nat, blocks: seq<BlockUses>, outs: seq<map<Ssa, nat>>)
    requires |blocks| == |outs| == |f.blocks| && forall b: nat :: b < |outs| ==> outs[b] == map[]
    requires forall b: nat :: b < |blocks| ==> blocks[b].numInstrs == |f.blocks[b]| && Collected(f.blocks[b], blocks[b])
    requires forall b: nat, v :: b < |blocks| && v in blocks[b].map_ ==> v < n
    ensures AllGood(NextUseLaws(f, n), blocks, outs)
  {
    forall b: nat | b < |blocks|
      ensures GoodBlock(f, n, b, blocks[b])
    {
      forall v
        ensures GoodEntry(f, b, v, blocks[b].Entry(v))
      {
        assert Collected(f.blocks[b], blocks[b]);
      }
    }
  }

  /** An exclusive bound on all values that have an entry anywhere. */
  ghost function KeyBound(blocks: seq<BlockUses>): (n: nat)
    ensures forall b: nat, v :: b < |blocks| && v in blocks[b].map_ ==> v < n
  {
    if blocks == [] then 0 else
      var rest := KeyBound(blocks[1..]);
      var here := SetBound(blocks[0].map_.Keys);
      assert forall b: nat, v :: 0 < b < |blocks| && v in blocks[b].map_ ==> v in blocks[1..][b - 1].map_;
      if rest > here then rest else here
  }

  ghost function SetBound(s: set<nat>): (n: nat)
    ensures forall v :: v in s ==> v < n
  {
    if s == {} then 0 else
      var x :| x in s;
      var rest := SetBound(s - {x});
      assert forall v :: v in s ==> v == x || v in s - {x};
      if x < rest then rest else x + 1
  }

  // ----- Queries -----

  /** The binary search behind the queries: how many uses lie before `ip`. */
  method PartitionPoint(uses: seq<nat>, ip: nat) returns (i: nat)
    requires Sorted(uses)
    ensures i <= |uses|
    ensures forall k :: 0 <= k < i ==> uses[k] < ip
    ensures forall k :: i <= k < |uses| ==> uses[k] >= ip
  {
    var hi := |uses|;
    i := 0;
    while i < hi
      invariant i <= hi <= |uses|
      invariant forall k :: 0 <= k < i ==> uses[k] < ip
      invariant forall k :: hi <= k < |uses| ==> uses[k] >= ip
    {
      var mid := (i + hi) / 2;
      if uses[mid] < ip {
        i := mid + 1;
      } else {
        hi := mid;
      }
    }
  }

  /** The least distance at which `v` is used at or after instruction `ip`; -1 means never. */
  method NextUseAfterOrAtIp(f: Function, blocks: seq<BlockUses>, b: nat, v: Ssa, ip: nat) returns (d: int)
    requires Exact(f, blocks) && b < |f.blocks| && ip <= |f.blocks[b]|
    ensures d >= 0 ==> IsUseDistance(f, b, ip, v, d) && forall e: nat :: IsUseDistance(f, b, ip, v, e) ==> d <= e
    ensures d < 0 ==> forall e: nat :: !IsUseDistance(f, b, ip, v, e)
  {
    var uses := blocks[b].Entry(v).uses;
    assert ExactUses(f, b, v, uses);
    var i := PartitionPoint(uses, ip);
    if i < |uses| {
      d := uses[i];
      assert d in uses && IsUseDistance(f, b, 0, v, d);
      forall e: nat | IsUseDistance(f, b, ip, v, e)
        ensures d <= e
      {
        assert IsUseDistance(f, b, 0, v, e);
        if e in uses {
          var k :| 0 <= k < |uses| && uses[k] == e;
        }
      }
    } else {
      d := -1;
      assert forall e: nat :: e in uses ==> e < ip;
      assert forall e: nat :: IsUseDistance(f, b, ip, v, e) ==> IsUseDistance(f, b, 0, v, e) && e >= ip;
    }
  }
}
