/** A control-flow graph from blocks and edges: order, dominance and loops together
    (crates/deko-compiler-utils/src/cfg.rs). */
module ControlFlow {
  import opened Machine
  import opened DepthFirstSearch
  import opened Dominance
  import opened CfgOrder
  import opened CfgReachable
  import opened CfgLoops

  // ----- Nodes from edges -----

  /** Where the edges to `s` come from, in the order in which they are listed. */
  function Sources(edges: seq<(nat, nat)>, s: nat): seq<nat> {
    if edges == [] then [] else
      var (p, t) := edges[|edges| - 1];
      Sources(edges[..|edges| - 1], s) + if t == s then [p] else []
  }

  function Targets(edges: seq<(nat, nat)>, p: nat): seq<nat> {
    if edges == [] then [] else
      var (q, t) := edges[|edges| - 1];
      Targets(edges[..|edges| - 1], p) + if q == p then [t] else []
  }

  lemma {:induction false} EdgeListed(edges: seq<(nat, nat)>, p: nat, s: nat)
    ensures p in Sources(edges, s) <==> (p, s) in edges
    ensures s in Targets(edges, p) <==> (p, s) in edges
  {
    if edges != [] {
      var shorter, last := edges[..|edges| - 1], edges[|edges| - 1];
      EdgeListed(shorter, p, s);
      assert edges == shorter + [last];
      assert (p, s) in edges <==> (p, s) in shorter || last == (p, s);
    }
  }

  ghost predicate HasEdges<N>(nodes: seq<Node<N>>, edges: seq<(nat, nat)>) {
    forall i :: 0 <= i < |nodes| ==> nodes[i].pred == Sources(edges, i) && nodes[i].succ == Targets(edges, i)
  }

  method AddEdges<N>(blocks: seq<N>, edges: seq<(nat, nat)>) returns (nodes: seq<Node<N>>)
    requires forall e :: e in edges ==> e.0 < |blocks| && e.1 < |blocks|
    ensures |nodes| == |blocks| && (forall i :: 0 <= i < |nodes| ==> nodes[i].payload == blocks[i]) && HasEdges(nodes, edges) && Consistent(nodes)
  {
    nodes := seq(|blocks|, i requires 0 <= i < |blocks| => Node(blocks[i], [], []));
    for k := 0 to |edges|
      invariant |nodes| == |blocks| && (forall i :: 0 <= i < |nodes| ==> nodes[i].payload == blocks[i]) && HasEdges(nodes, edges[..k])
    {
      var (p, s) := edges[k];
      assert edges[k] in edges && edges[..k + 1][..k] == edges[..k];
      nodes := nodes[s := nodes[s].(pred := nodes[s].pred + [p])];
      nodes := nodes[p := nodes[p].(succ := nodes[p].succ + [s])];
    }
    assert edges[..|edges|] == edges;
    EdgesAgree(nodes, edges);
  }

  lemma EdgesAgree<N>(nodes: seq<Node<N>>, edges: seq<(nat, nat)>)
    requires HasEdges(nodes, edges) && forall e :: e in edges ==> e.0 < |nodes| && e.1 < |nodes|
    ensures Consistent(nodes)
  {
    forall u, v | 0 <= u < |nodes| && v in nodes[u].succ
      ensures IsPred(nodes, u, v)
    {
      EdgeListed(edges, u, v);
    }
    forall u, v | 0 <= v < |nodes| && u in nodes[v].pred
      ensures IsSucc(nodes, u, v)
    {
      EdgeListed(edges, u, v);
    }
  }

  // ----- The order that dominance needs -----

  /** The first predecessor of every block but the entry comes before it. */
  ghost predicate FirstPredsEarlier(pred: Graph) {
    forall b :: 0 < b < |pred| ==> pred[b] != [] && pred[b][0] < b
  }

  const UNSET: int := -1

  /** The first round of the dominance computation, while most parents are not known yet.  It fails where it
      would look for the parent of a block whose own parent is not known. */
  method FirstRound(pred: Graph, ghost succ: Graph) returns (ok: bool)
    requires IsOrdered(succ) && |pred| == |succ|
    requires forall p: nat, b: nat {:trigger p in pred[b]} :: b < |pred| ==> (p in pred[b] <==> p < |succ| && b in succ[p])
    ensures ok <==> FirstPredsEarlier(pred)
  {
    var dom := new int[|pred|](_ => UNSET);
    dom[0] := 0;
    for i := 1 to |pred|
      invariant 1 <= i <= |pred| && Tree(dom[..], i) && forall j :: i <= j < |pred| ==> dom[j] == UNSET
      invariant forall j :: 0 < j < i ==> pred[j] != [] && pred[j][0] < j
    {
      assert HasEarlierPred(succ, i);
      ghost var earlier: nat :| earlier < i && i in succ[earlier];
      assert earlier in pred[i];
      var d: nat := pred[i][0];
      assert d in pred[i];
      for k := 1 to |pred[i]|
        invariant Tree(dom[..], i) && forall j :: i <= j < |pred| ==> dom[j] == UNSET
        invariant d < |pred| && (d < i <==> pred[i][0] < i) && (d >= i ==> forall l :: 0 <= l < k ==> pred[i][l] >= i)
      {
        var p := pred[i][k];
        assert p in pred[i];
        if dom[p] != UNSET {
          // The walk starts at the larger of the two, which is `d` if its parent is not known.
          if d > p && dom[d] == UNSET {
            return false;
          }
          d := FindCommonDom(dom, i, d, p);
        }
      }
      ghost var l :| 0 <= l < |pred[i]| && pred[i][l] == earlier;
      dom[i] := d;
    }
    return true;
  }

  // ----- Back to the original blocks -----

  /** The new places of the nodes on a path. */
  ghost predicate IsRenamed(index: seq<Option<nat>>, path: seq<nat>, path': seq<nat>) {
    |path| == |path'| && forall i :: 0 <= i < |path| ==> path[i] < |index| && index[path[i]] == Some(path'[i])
  }

  lemma {:induction false} RenamePath<N>(nodes: seq<Node<N>>, index: seq<Option<nat>>, sorted: seq<Node<N>>, path: seq<nat>) returns (path': seq<nat>)
    requires IsRenaming(nodes, index, sorted) && NumbersReachable(Succ(nodes), index) && IsPath(Succ(nodes), path) && index[path[0]].Some?
    ensures IsPath(Succ(sorted), path') && IsRenamed(index, path, path')
    decreases |path|
  {
    var n := |path| - 1;
    PathRenamed(nodes, index, sorted, path, n);
    var last := index[path[n]].value;
    if n == 0 {
      path' := [last];
    } else {
      var shorter := path[..n];
      assert IsPath(Succ(nodes), shorter);
      path' := RenamePath(nodes, index, sorted, shorter);
      assert path[n - 1 + 1] in Succ(nodes)[path[n - 1]];
      EdgeRenamed(nodes, index, sorted, path[n - 1], path[n]);
      StepAdded(Succ(sorted), path', last);
      path' := path' + [last];
    }
  }

  lemma StepAdded(g: Graph, path: seq<nat>, v: nat)
    requires IsPath(g, path) && v < |g| && v in g[path[|path| - 1]]
    ensures IsPath(g, path + [v])
  {
    var longer := path + [v];
    forall i | 0 <= i < |longer| - 1
      ensures longer[i + 1] in g[longer[i]]
    {
      if i < |path| - 1 {
        assert path[i + 1] in g[path[i]];
      }
    }
  }

  lemma {:induction false} OriginalPath<N>(nodes: seq<Node<N>>, index: seq<Option<nat>>, sorted: seq<Node<N>>, path': seq<nat>) returns (path: seq<nat>)
    requires IsRenaming(nodes, index, sorted) && IsPath(Succ(sorted), path')
    ensures IsPath(Succ(nodes), path) && IsRenamed(index, path, path')
    decreases |path'|
  {
    var n := |path'| - 1;
    if n == 0 {
      var v := Origin(nodes, index, sorted, path'[0]);
      path := [v];
    } else {
      var shorter := path'[..n];
      assert IsPath(Succ(sorted), shorter);
      path := OriginalPath(nodes, index, sorted, shorter);
      assert path'[n - 1 + 1] in Succ(sorted)[path'[n - 1]];
      var v := SuccOrigin(nodes, index, sorted, path[n - 1], path'[n]);
      StepAdded(Succ(nodes), path, v);
      path := path + [v];
    }
  }

  lemma SameNode<N>(nodes: seq<Node<N>>, index: seq<Option<nat>>, sorted: seq<Node<N>>, path: seq<nat>, path': seq<nat>, v: nat)
    requires IsRenaming(nodes, index, sorted) && IsRenamed(index, path, path') && v < |index| && index[v].Some?
    ensures v in path <==> index[v].value in path'
  {
    if v in path {
      var i :| 0 <= i < |path| && path[i] == v;
      assert path'[i] == index[v].value;
    }
    if index[v].value in path' {
      var i :| 0 <= i < |path'| && path'[i] == index[v].value;
      assert path[i] == v;
    }
  }

  /** Dominance among the reachable blocks is not changed by sorting them. */
  lemma DominanceRenamed<N>(nodes: seq<Node<N>>, index: seq<Option<nat>>, sorted: seq<Node<N>>, u: nat, v: nat)
    requires IsRenaming(nodes, index, sorted) && NumbersReachable(Succ(nodes), index) && nodes != [] && index[0] == Some(0)
    requires u < |nodes| && v < |nodes| && index[u].Some? && index[v].Some?
    ensures Dominates(Succ(sorted), index[u].value, index[v].value) <==> Dominates(Succ(nodes), u, v)
  {
    hide NumbersReachable, Consistent, Injective, Onto;
    if Dominates(Succ(sorted), index[u].value, index[v].value) {
      forall path | Connects(Succ(nodes), path, 0, v)
        ensures u in path
      {
        var path' := RenamePath(nodes, index, sorted, path);
        assert Connects(Succ(sorted), path', 0, index[v].value);
        SameNode(nodes, index, sorted, path, path', u);
      }
    }
    if Dominates(Succ(nodes), u, v) {
      forall path' | Connects(Succ(sorted), path', 0, index[v].value)
        ensures index[u].value in path'
      {
        var path := OriginalPath(nodes, index, sorted, path');
        EndsAgree(nodes, index, sorted, path, path', v);
        assert Connects(Succ(nodes), path, 0, v);
        SameNode(nodes, index, sorted, path, path', u);
      }
    }
  }

  lemma EndsAgree<N>(nodes: seq<Node<N>>, index: seq<Option<nat>>, sorted: seq<Node<N>>, path: seq<nat>, path': seq<nat>, v: nat)
    requires IsRenaming(nodes, index, sorted) && IsRenamed(index, path, path') && path' != [] && nodes != [] && index[0] == Some(0)
    requires v < |nodes| && path'[0] == 0 && index[v] == Some(path'[|path'| - 1])
    ensures path[0] == 0 && path[|path| - 1] == v
  {
  }

  ghost predicate IsReachableCycle(g: Graph, path: seq<nat>) {
    IsCycle(g, path) && Reaches(g, 0, path[0])
  }

  /** Neither is whether there is a loop. */
  lemma CyclesRenamed<N>(nodes: seq<Node<N>>, index: seq<Option<nat>>, sorted: seq<Node<N>>)
    requires IsRenaming(nodes, index, sorted) && NumbersReachable(Succ(nodes), index)
    ensures (exists path :: IsCycle(Succ(sorted), path)) <==> exists path :: IsReachableCycle(Succ(nodes), path)
  {
    if path' :| IsCycle(Succ(sorted), path') {
      var path := OriginalPath(nodes, index, sorted, path');
      CycleOriginal(nodes, index, sorted, path, path');
      assert IsReachableCycle(Succ(nodes), path);
    }
    if path :| IsReachableCycle(Succ(nodes), path) {
      var path' := RenamePath(nodes, index, sorted, path);
      assert IsCycle(Succ(sorted), path');
    }
  }

  lemma CycleOriginal<N>(nodes: seq<Node<N>>, index: seq<Option<nat>>, sorted: seq<Node<N>>, path: seq<nat>, path': seq<nat>)
    requires IsRenaming(nodes, index, sorted) && NumbersReachable(Succ(nodes), index) && IsCycle(Succ(sorted), path')
    requires IsPath(Succ(nodes), path) && IsRenamed(index, path, path')
    ensures IsReachableCycle(Succ(nodes), path)
  {
    assert index[path[0]] == index[path[|path| - 1]];
  }

  // ----- The whole graph -----

  /** Sorted blocks, the dominator tree, whether there is a loop, and the loop headers. */
  datatype CfgOf<N> = CfgOf(nodes: seq<Node<N>>, tree: DomTree, hasLoop: bool, lph: seq<Option<nat>>)

  /** What the queries of the graph say about the blocks and edges that it was made from.  `index` tells where
      the reachable blocks have gone. */
  ghost predicate Describes<N>(cfg: CfgOf<N>, nodes: seq<Node<N>>, index: seq<Option<nat>>)
    requires |index| == |nodes|
  {
    var n := |cfg.nodes|;
    && |cfg.tree.preIdx| == |cfg.tree.postIdx| == n
    && IsRenaming(nodes, index, cfg.nodes) && NumbersReachable(Succ(nodes), index)
    && (forall u: nat, v: nat :: u < |nodes| && v < |nodes| && index[u].Some? && index[v].Some? && index[u].value < n && index[v].value < n ==>
          (cfg.tree.DominatesQuery(index[u].value, index[v].value) <==> Dominates(Succ(nodes), u, v)))
    && (cfg.hasLoop <==> exists path :: IsReachableCycle(Succ(nodes), path))
    && exists backEdges :: LoopsOk(Succ(cfg.nodes), cfg.lph, backEdges)
  }

  /** The loop headers are right for the back edges of a depth-first search. */
  ghost predicate LoopsOk(g: Graph, lph: seq<Option<nat>>, backEdges: seq<(nat, nat)>) {
    && |lph| == |g| && (forall v: nat :: v < |lph| ==> IsLoopHeaderOf(g, backEdges, v, lph[v]))
    && exists s :: Done(g, 0, s) && AllBackEdges(g, s, backEdges)
  }

  /** The reachable blocks, sorted or in the order in which they are. */
  method Arrange<N>(nodes: seq<Node<N>>, sortNodes: bool) returns (arranged: seq<Node<N>>, ghost index: seq<Option<nat>>)
    requires nodes != [] && Consistent(nodes) && (sortNodes || ParentsEarlier(Succ(nodes)))
    ensures IsRenaming(nodes, index, arranged) && NumbersReachable(Succ(nodes), index) && index[0] == Some(0)
    ensures Consistent(arranged) && IsOrdered(Succ(arranged)) && IsArranged(Succ(arranged), index, sortNodes)
  {
    if sortNodes {
      arranged, index := RevPostOrderSort(nodes);
    } else {
      arranged, index := RemoveUnreachable(nodes);
      KeptIsOrdered(nodes, index, arranged);
    }
  }

  ghost predicate IsArranged(succ: Graph, index: seq<Option<nat>>, sortNodes: bool) {
    if sortNodes then InReversePostOrder(succ) else KeepsOrder(index)
  }

  lemma EdgesAreSucc<N>(nodes: seq<Node<N>>, edges: seq<(nat, nat)>)
    requires HasEdges(nodes, edges)
    ensures Succ(nodes) == Adjacent(|nodes|, edges)
  {
  }

  /** The graph that the edges describe. */
  function Adjacent(n: nat, edges: seq<(nat, nat)>): Graph {
    seq(n, i requires 0 <= i < n => Targets(edges, i))
  }

  /** The control-flow graph of the blocks that can be reached from the first, sorted, or in the given order if
      that has a predecessor before every block.  Building it fails exactly when the predecessor that is listed
      first for some block does not come before it: when a back edge to the block is listed before all others. */
  method FromBlocksEdges<N>(blocks: seq<N>, edges: seq<(nat, nat)>, sortNodes: bool)
    returns (cfg: Option<CfgOf<N>>, ghost nodes: seq<Node<N>>, ghost index: seq<Option<nat>>, ghost sorted: seq<Node<N>>)
    requires blocks != [] && forall e :: e in edges ==> e.0 < |blocks| && e.1 < |blocks|
    requires sortNodes || ParentsEarlier(Adjacent(|blocks|, edges))
    ensures |nodes| == |blocks| == |index| && HasEdges(nodes, edges)
    ensures IsRenaming(nodes, index, sorted) && NumbersReachable(Succ(nodes), index) && IsArranged(Succ(sorted), index, sortNodes)
    ensures cfg.Some? <==> FirstPredsEarlier(Preds(sorted))
    ensures cfg.Some? ==> cfg.value.nodes == sorted && Describes(cfg.value, nodes, index)
    ensures cfg.Some? ==> FirstPredsEarlier(Preds(cfg.value.nodes))
    ensures cfg.Some? ==> (cfg.value.hasLoop <==> exists path :: IsReachableCycle(Adjacent(|blocks|, edges), path))
  {
    hide IsRenaming, NumbersReachable, FirstPredsEarlier, Dominates, LoopsOk, IsReachableCycle, IsOrdered, IsArranged, ParentsEarlier, IsLoopHeaderOf, Cfg.Valid, ExactTree;
    var made := AddEdges(blocks, edges);
    EdgesAreSucc(made, edges);
    nodes := made;
    var order;
    order, index := Arrange(made, sortNodes);
    sorted := order;
    Sizes(nodes, index, sorted);
    var c := Cfg(Succ(order), Preds(order));
    var ok := FirstRound(c.pred, c.succ);
    if !ok {
      return None, nodes, index, sorted;
    }
    var done := Analyse(nodes, index, order);
    return Some(done), nodes, index, sorted;
  }

  /** Dominators and loops of the arranged blocks. */
  method Analyse<N>(ghost nodes: seq<Node<N>>, ghost index: seq<Option<nat>>, order: seq<Node<N>>) returns (cfg: CfgOf<N>)
    requires IsRenaming(nodes, index, order) && NumbersReachable(Succ(nodes), index) && nodes != [] && index[0] == Some(0)
    requires Consistent(order) && IsOrdered(Succ(order)) && FirstPredsEarlier(Preds(order))
    ensures cfg.nodes == order && |index| == |nodes| && Describes(cfg, nodes, index)
  {
    hide IsRenaming, NumbersReachable, FirstPredsEarlier, Dominates, LoopsOk, IsReachableCycle, IsOrdered, IsLoopHeaderOf, Cfg.Valid, ExactTree;
    Sizes(nodes, index, order);
    IsValid(order);
    var c := Cfg(Succ(order), Preds(order));
    var tree := CalcDominance(c);
    TreeIsExact(c, tree);
    var hasLoop, lph;
    ghost var backEdges, s;
    hasLoop, lph, backEdges, s := DetectLoops(c, tree.dom);
    CyclesRenamed(nodes, index, order);
    forall u: nat, v: nat | u < |nodes| && v < |nodes| && index[u].Some? && index[v].Some? && index[u].value < |order| && index[v].value < |order|
      ensures tree.DominatesQuery(index[u].value, index[v].value) <==> Dominates(Succ(nodes), u, v)
    {
      DominanceRenamed(nodes, index, order, u, v);
    }
    assert LoopsOk(Succ(order), lph, backEdges) by { HeadersOk(Succ(order), lph, backEdges, s); }
    cfg := CfgOf(order, tree, hasLoop, lph);
  }

  lemma Sizes<N>(nodes: seq<Node<N>>, index: seq<Option<nat>>, sorted: seq<Node<N>>)
    requires IsRenaming(nodes, index, sorted) && Consistent(sorted)
    ensures |index| == |nodes|
    ensures forall p: nat, b: nat {:trigger p in Preds(sorted)[b]} :: b < |sorted| ==> (p in Preds(sorted)[b] <==> p < |sorted| && b in Succ(sorted)[p])
  {
    forall p: nat, b: nat | b < |sorted|
      ensures p in Preds(sorted)[b] <==> p < |sorted| && b in Succ(sorted)[p]
    {
      assert p in sorted[b].pred ==> IsSucc(sorted, p, b);
      assert p < |sorted| && b in sorted[p].succ ==> IsPred(sorted, p, b);
    }
  }

  lemma IsValid<N>(sorted: seq<Node<N>>)
    requires Consistent(sorted) && IsOrdered(Succ(sorted)) && FirstPredsEarlier(Preds(sorted))
    requires forall p: nat, b: nat {:trigger p in Preds(sorted)[b]} :: b < |sorted| ==> (p in Preds(sorted)[b] <==> p < |sorted| && b in Succ(sorted)[p])
    ensures Cfg(Succ(sorted), Preds(sorted)).Valid()
  {
  }

  lemma TreeIsExact(c: Cfg, t: DomTree)
    requires c.Valid() && |t.dom| == |c.pred| && Tree(t.dom, |c.pred|)
    requires forall p: nat, v: nat :: p < |c.pred| && v < |c.pred| ==> (p in Anc(t.dom, |c.pred|, v) <==> Dominates(c.succ, p, v))
    ensures ExactTree(c, t.dom)
  {
  }

  lemma HeadersOk(g: Graph, lph: seq<Option<nat>>, backEdges: seq<(nat, nat)>, s: Search)
    requires Done(g, 0, s) && AllBackEdges(g, s, backEdges) && |lph| == |g| && forall v: nat :: v < |lph| ==> IsLoopHeaderOf(g, backEdges, v, lph[v])
    ensures LoopsOk(g, lph, backEdges)
  {
  }
}
