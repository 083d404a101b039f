/** Functions as the liveness analyses see them (crates/deko-nak/src/liveness.rs). */
module Flow {

  type Ssa = nat

  /** What the analyses see of an instruction: the values it reads, then the values it defines. */
  datatype Instr = Instr(uses: seq<Ssa>, defs: seq<Ssa>)

  datatype Function = Function(blocks: seq<seq<Instr>>, succ: seq<seq<nat>>, pred: seq<seq<nat>>)
  {
    ghost predicate Valid() {
      && |succ| == |pred| == |blocks|
      && (forall b, q {:trigger q in succ[b]} :: 0 <= b < |blocks| && q in succ[b] ==> q < |blocks|)
      && (forall b, q {:trigger q in pred[b]} :: 0 <= b < |blocks| && q in pred[b] ==> q < |blocks|)
      && (forall b: nat, q: nat {:trigger q in pred[b]} {:trigger b in succ[q]} ::
            b < |blocks| && q < |blocks| ==> (q in pred[b] <==> b in succ[q]))
    }

    predicate UsedAt(b: nat, ip: nat, v: Ssa)
      requires b < |blocks|
    {
      ip < |blocks[b]| && v in blocks[b][ip].uses
    }

    predicate DefinedAt(b: nat, ip: nat, v: Ssa)
      requires b < |blocks|
    {
      ip < |blocks[b]| && v in blocks[b][ip].defs
    }

    ghost predicate DefinedIn(b: nat, v: Ssa)
      requires b < |blocks|
    {
      exists ip: nat :: DefinedAt(b, ip, v)
    }

    /** A use with no earlier definition of the same value in its block. */
    ghost predicate ExposedUse(b: nat, ip: nat, v: Ssa)
      requires b < |blocks|
    {
      UsedAt(b, ip, v) && forall j: nat :: j < ip ==> !DefinedAt(b, j, v)
    }

    /** No block defines a value after having used it.  Strict SSA form implies this. */
    ghost predicate Strict() {
      forall b: nat, ip: nat, v: Ssa :: b < |blocks| && ExposedUse(b, ip, v) ==> !DefinedIn(b, v)
    }

    ghost predicate IsPath(path: seq<nat>) {
      && path != []
      && (forall i :: 0 <= i < |path| ==> path[i] < |blocks|)
      && (forall i :: 0 <= i < |path| - 1 ==> Edge(path[i], path[i + 1]))
    }

    ghost predicate Edge(a: nat, b: nat) {
      a < |succ| && b in succ[a]
    }

    /** Running along `path` from the start of its first block, the value `v` the first block began
        with is read by instruction `ip` of the last block: nothing redefines it on the way. */
    ghost predicate ReachesUse(path: seq<nat>, ip: nat, v: Ssa) {
      && IsPath(path)
      && ExposedUse(path[|path| - 1], ip, v)
      && forall i :: 0 <= i < |path| - 1 ==> !DefinedIn(path[i], v)
    }

    /** No block defines a value twice, as in SSA form. */
    ghost predicate DefinedOnce() {
      forall b: nat, i: nat, j: nat, v: Ssa :: b < |blocks| && DefinedAt(b, i, v) && DefinedAt(b, j, v) ==> i == j
    }

    ghost predicate LiveOut(b: nat, v: Ssa)
      requires b < |succ|
    {
      exists path, ip :: ReachesUse(path, ip, v) && path[0] in succ[b]
    }

    /** From behind instruction `ip` a use can be reached without passing a definition. */
    ghost predicate LiveAfter(b: nat, ip: nat, v: Ssa)
      requires b < |blocks| == |succ|
    {
      || (exists j: nat :: ip < j && UsedAt(b, j, v) && forall i: nat :: ip < i < j ==> !DefinedAt(b, i, v))
      || (LiveOut(b, v) && forall i: nat :: ip < i ==> !DefinedAt(b, i, v))
    }

    /** Instructions executed along all blocks of `path` but the last. */
    ghost function Length(path: seq<nat>): nat
      requires forall i :: 0 <= i < |path| ==> path[i] < |blocks|
    {
      if |path| <= 1 then 0 else |blocks[path[0]]| + Length(path[1..])
    }
  }

  lemma ExtendPath(f: Function, b: nat, path: seq<nat>, ip: nat, v: Ssa)
    requires f.Valid() && f.ReachesUse(path, ip, v) && b < |f.blocks| && path[0] in f.succ[b] && !f.DefinedIn(b, v)
    ensures f.ReachesUse([b] + path, ip, v)
    ensures f.Length([b] + path) == |f.blocks[b]| + f.Length(path)
  {
    var longer := [b] + path;
    assert longer[|longer| - 1] == path[|path| - 1];
    forall i | 0 <= i < |longer| - 1
      ensures f.Edge(longer[i], longer[i + 1]) && !f.DefinedIn(longer[i], v)
    {
      if i > 0 {
        assert longer[i] == path[i - 1] && longer[i + 1] == path[i];
        assert f.Edge(path[i - 1], path[i]);
      }
    }
    assert longer[1..] == path;
  }

  lemma TailPath(f: Function, path: seq<nat>, ip: nat, v: Ssa)
    requires f.Valid() && f.ReachesUse(path, ip, v) && |path| > 1
    ensures f.ReachesUse(path[1..], ip, v)
    ensures path[1] in f.succ[path[0]] && path[0] in f.pred[path[1]]
    ensures f.Length(path) == |f.blocks[path[0]]| + f.Length(path[1..])
  {
    var tail := path[1..];
    assert f.Edge(path[0], path[1]);
    assert tail[|tail| - 1] == path[|path| - 1];
    forall i | 0 <= i < |tail| - 1
      ensures f.Edge(tail[i], tail[i + 1])
    {
      assert f.Edge(path[i + 1], path[i + 2]);
    }
  }
}
