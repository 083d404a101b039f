/** Dropping unreachable nodes and keeping the order of the others
    (crates/deko-compiler-utils/src/cfg.rs). */
module CfgReachable {
  import opened Machine
  import opened DepthFirstSearch
  import opened CfgOrder

  /** The callbacks of the visitor that marks what it enters. */
  method MarkReachable(g: Graph, trace: seq<Event>, ghost s: Search) returns (reached: seq<bool>)
    requires Times(g, s) && s.trace == trace
    ensures |reached| == |g| && forall v :: 0 <= v < |g| ==> (reached[v] <==> v in s.pre)
  {
    reached := seq(|g|, i => false);
    for t := 0 to |trace|
      invariant |reached| == |g| && forall v :: 0 <= v < |g| ==> (reached[v] <==> v in s.pre && s.pre[v] < t)
    {
      if trace[t].Pre? {
        reached := reached[trace[t].id := true];
      }
    }
  }

  /** How many of the first `n` nodes are kept. */
  function Kept(reached: seq<bool>, n: nat): nat
    requires n <= |reached|
  {
    if n == 0 then 0 else Kept(reached, n - 1) + if reached[n - 1] then 1 else 0
  }

  /** A node that is kept moves up by the number of nodes dropped before it. */
  ghost predicate MovesUp(reached: seq<bool>, remap: seq<Option<nat>>) {
    |remap| <= |reached| && forall v: nat :: v < |remap| ==> remap[v] == if reached[v] then Some(Kept(reached, v)) else None
  }

  method Compact(reached: seq<bool>) returns (remap: seq<Option<nat>>, ghost count: nat)
    ensures |remap| == |reached| && MovesUp(reached, remap) && count == Kept(reached, |reached|)
  {
    remap := [];
    var next := 0;
    for i := 0 to |reached|
      invariant |remap| == i && MovesUp(reached, remap) && next == Kept(reached, i)
    {
      if reached[i] {
        remap := remap + [Some(next)];
        next := next + 1;
      } else {
        remap := remap + [None];
      }
    }
    count := next;
  }

  lemma {:induction false} KeptGrows(reached: seq<bool>, u: nat, v: nat)
    requires u <= v <= |reached|
    ensures Kept(reached, u) <= Kept(reached, v)
    ensures u < v && reached[u] ==> Kept(reached, u) < Kept(reached, v)
    decreases v
  {
    if u < v {
      KeptGrows(reached, u, v - 1);
    }
  }

  lemma {:induction false} KeptHits(reached: seq<bool>, n: nat, k: nat) returns (v: nat)
    requires n <= |reached| && k < Kept(reached, n)
    ensures v < n && reached[v] && Kept(reached, v) == k
  {
    if k < Kept(reached, n - 1) {
      v := KeptHits(reached, n - 1, k);
    } else {
      v := n - 1;
    }
  }

  /** Nodes that are kept stay in order. */
  ghost predicate KeepsOrder(index: seq<Option<nat>>) {
    forall u: nat, v: nat :: u < v < |index| && index[u].Some? && index[v].Some? ==> index[u].value < index[v].value
  }

  lemma RemapIsOneToOne(reached: seq<bool>, remap: seq<Option<nat>>)
    requires |remap| == |reached| && MovesUp(reached, remap)
    ensures KeepsOrder(remap) && Injective(remap) && Onto(remap, Kept(reached, |reached|))
  {
    forall u: nat, v: nat | u < v < |remap| && remap[u].Some? && remap[v].Some?
      ensures remap[u].value < remap[v].value
    {
      KeptGrows(reached, u, v);
    }
    forall v: nat | v < |remap| && remap[v].Some?
      ensures remap[v].value < Kept(reached, |reached|)
    {
      KeptGrows(reached, v, |reached|);
    }
    forall k: nat | k < Kept(reached, |reached|)
      ensures Some(k) in remap
    {
      var v := KeptHits(reached, |reached|, k);
      assert remap[v] == Some(k);
    }
  }

  /** Drops the nodes that are not kept. */
  method Retain<N>(nodes: seq<Node<N>>, renamed: seq<Node<N>>, reached: seq<bool>, ghost remap: seq<Option<nat>>) returns (kept: seq<Node<N>>)
    requires Consistent(nodes) && |remap| == |nodes| == |renamed| == |reached| && MovesUp(reached, remap)
    requires forall v: nat :: v < |nodes| ==> renamed[v] == Renamed(remap, nodes[v])
    ensures IsRenaming(nodes, remap, kept)
  {
    kept := [];
    for i := 0 to |renamed|
      invariant |kept| == Kept(reached, i)
      invariant forall v: nat :: v < i && remap[v].Some? ==> remap[v].value < |kept| && kept[remap[v].value] == renamed[v]
    {
      if reached[i] {
        kept := kept + [renamed[i]];
      }
    }
    RemapIsOneToOne(reached, remap);
  }

  /** The reachable nodes in their order, with their edges renamed. */
  method RemoveUnreachable<N>(nodes: seq<Node<N>>) returns (kept: seq<Node<N>>, ghost index: seq<Option<nat>>)
    requires nodes != [] && Consistent(nodes)
    ensures IsRenaming(nodes, index, kept) && NumbersReachable(Succ(nodes), index) && index[0] == Some(0)
    ensures Consistent(kept) && KeepsOrder(index)
  {
    assert WellFormed(Succ(nodes));
    var trace, s := Dfs(Succ(nodes), 0);
    var reached := MarkReachable(Succ(nodes), trace, s);
    var remap, count := Compact(reached);
    MarkedIsReachable(Succ(nodes), s, reached, remap);
    var renamed := RemapEdges(nodes, remap);
    kept := Retain(nodes, renamed, reached, remap);
    index := remap;
    SortedConsistent(nodes, index, kept);
    RemapIsOneToOne(reached, remap);
  }

  lemma MarkedIsReachable(succ: Graph, s: Search, reached: seq<bool>, remap: seq<Option<nat>>)
    requires Done(succ, 0, s) && |reached| == |remap| == |succ| && MovesUp(reached, remap)
    requires forall v :: 0 <= v < |succ| ==> (reached[v] <==> v in s.pre)
    ensures NumbersReachable(succ, remap) && remap[0] == Some(0)
  {
    forall v: nat | v < |succ|
      ensures remap[v].Some? <==> Reaches(succ, 0, v)
    {
      EnteredIffReachable(succ, 0, s, v);
    }
    ReachesSelf(succ, 0);
    assert Kept(reached, 0) == 0;
  }

  /** Every reachable node but the entry has a reachable predecessor before it. */
  ghost predicate ParentsEarlier(succ: Graph) {
    forall v: nat :: 0 < v < |succ| && Reaches(succ, 0, v) ==> exists u: nat :: u < v && Reaches(succ, 0, u) && v in succ[u]
  }

  /** All nodes can be reached, and all but the entry have a predecessor before them. */
  ghost predicate IsOrdered(succ: Graph) {
    && WellFormed(succ) && succ != []
    && (forall b: nat :: b < |succ| ==> Reaches(succ, 0, b))
    && forall b: nat :: 0 < b < |succ| ==> HasEarlierPred(succ, b)
  }

  /** Without the unreachable nodes, predecessors that were earlier are still earlier. */
  lemma KeptIsOrdered<N>(nodes: seq<Node<N>>, index: seq<Option<nat>>, kept: seq<Node<N>>)
    requires IsRenaming(nodes, index, kept) && NumbersReachable(Succ(nodes), index) && nodes != [] && index[0] == Some(0)
    requires Consistent(kept) && KeepsOrder(index) && ParentsEarlier(Succ(nodes))
    ensures IsOrdered(Succ(kept))
  {
    forall b: nat | b < |kept|
      ensures Reaches(Succ(kept), 0, b)
    {
      var v := Origin(nodes, index, kept, b);
      ReachesRenamed(nodes, index, kept, 0, v);
    }
    forall b: nat | 0 < b < |kept|
      ensures HasEarlierPred(Succ(kept), b)
    {
      EarlierAfterwards(nodes, index, kept, b);
    }
  }

  lemma EarlierAfterwards<N>(nodes: seq<Node<N>>, index: seq<Option<nat>>, kept: seq<Node<N>>, b: nat)
    requires IsRenaming(nodes, index, kept) && NumbersReachable(Succ(nodes), index) && nodes != [] && index[0] == Some(0)
    requires KeepsOrder(index) && ParentsEarlier(Succ(nodes)) && 0 < b < |kept|
    ensures HasEarlierPred(Succ(kept), b)
  {
    var v := Origin(nodes, index, kept, b);
    assert v != 0;
    assert Reaches(Succ(nodes), 0, v);
    var u: nat :| u < v && Reaches(Succ(nodes), 0, u) && v in Succ(nodes)[u];
    EdgeRenamed(nodes, index, kept, u, v);
    assert index[u].value < b && b in Succ(kept)[index[u].value];
  }
}
