/** Back edges and loop headers of a control-flow graph (crates/deko-compiler-utils/src/cfg.rs). */
module CfgLoops {
  import opened Machine
  import opened DepthFirstSearch
  import opened Dominance

  // ----- Back edges -----

  /** At the time an edge is visited its child has been entered but not left exactly if the child
      encloses the parent. */
  lemma OpenIffEncloses(g: Graph, s: Search, i: nat, u: nat, v: nat)
    requires Done(g, 0, s) && i < |s.trace| && s.trace[i] == Edge(u, v)
    ensures u in s.pre && v in s.pre && u in s.post && v in s.post && u < |g| && v in g[u]
    ensures s.pre[v] < i <= s.post[v] <==> Encloses(s, v, u)
  {
    assert EdgeTime(g, s, i, u, v);
    AllClosed(g, 0, s);
    assert s.trace[s.post[v]] == Post(v);
    DistinctTimes(g, 0, s, u, v);
    NestedEitherWay(s, i, u, v);
  }

  lemma NestedEitherWay(s: Search, i: nat, u: nat, v: nat)
    requires Nested(s) && u in s.pre && v in s.pre && u in s.post && v in s.post
    requires s.pre[u] < i < s.post[u] && Innermost(s, u, i) && s.post[v] != i && (u != v ==> s.pre[u] != s.pre[v])
    ensures s.pre[v] < i <= s.post[v] <==> Encloses(s, v, u)
  {
  }

  ghost predicate IsBackEdge(g: Graph, s: Search, u: nat, v: nat) {
    u in s.pre && v in s.pre && u in s.post && v in s.post && u < |g| && v in g[u] && Encloses(s, v, u)
  }

  ghost predicate AllBackEdges(g: Graph, s: Search, backEdges: seq<(nat, nat)>) {
    forall e :: e in backEdges <==> IsBackEdge(g, s, e.0, e.1)
  }

  /** The first `t` events of a finished search: which nodes have been entered and left. */
  ghost predicate Progressed(s: Search, t: nat, pre: set<nat>, post: set<nat>) {
    && (forall v :: v in pre <==> v in s.pre && s.pre[v] < t)
    && (forall v :: v in post <==> v in s.post && s.post[v] < t)
  }

  lemma ProgressStep(g: Graph, s: Search, t: nat, pre: set<nat>, post: set<nat>)
    requires Times(g, s) && t < |s.trace| && Progressed(s, t, pre, post)
    ensures s.trace[t].Pre? ==> Progressed(s, t + 1, pre + {s.trace[t].id}, post)
    ensures s.trace[t].Post? ==> Progressed(s, t + 1, pre, post + {s.trace[t].id})
    ensures s.trace[t].Edge? ==> Progressed(s, t + 1, pre, post)
  {
    TimesAt(g, s, t);
  }

  ghost predicate VisitedBefore(s: Search, t: nat, u: nat, v: nat)
    requires t <= |s.trace|
  {
    exists i :: 0 <= i < t && s.trace[i] == Edge(u, v)
  }

  ghost predicate BackEdgesUpTo(g: Graph, s: Search, t: nat, edges: set<(nat, nat)>)
    requires t <= |s.trace|
  {
    forall e :: e in edges <==> VisitedBefore(s, t, e.0, e.1) && IsBackEdge(g, s, e.0, e.1)
  }

  lemma NoEdgeVisited(g: Graph, s: Search, t: nat, edges: set<(nat, nat)>)
    requires t < |s.trace| && BackEdgesUpTo(g, s, t, edges) && !s.trace[t].Edge?
    ensures BackEdgesUpTo(g, s, t + 1, edges)
  {
    forall u: nat, v: nat
      ensures VisitedBefore(s, t + 1, u, v) <==> VisitedBefore(s, t, u, v)
    {
    }
  }

  lemma OneEdgeVisited(g: Graph, s: Search, t: nat, u: nat, v: nat, edges: set<(nat, nat)>)
    requires t < |s.trace| && BackEdgesUpTo(g, s, t, edges) && s.trace[t] == Edge(u, v)
    ensures BackEdgesUpTo(g, s, t + 1, if IsBackEdge(g, s, u, v) then edges + {(u, v)} else edges)
  {
    forall x: nat, y: nat
      ensures VisitedBefore(s, t + 1, x, y) <==> VisitedBefore(s, t, x, y) || (x, y) == (u, v)
    {
    }
  }

  lemma OpenIsBackEdge(g: Graph, s: Search, t: nat, u: nat, v: nat, pre: set<nat>, post: set<nat>)
    requires Done(g, 0, s) && t < |s.trace| && s.trace[t] == Edge(u, v) && Progressed(s, t, pre, post)
    ensures v in pre && v !in post <==> IsBackEdge(g, s, u, v)
  {
    OpenIffEncloses(g, s, t, u, v);
  }

  /** The edges to nodes that are still open when the edge is visited. */
  method FindBackEdges(g: Graph) returns (backEdges: seq<(nat, nat)>, ghost s: Search)
    requires WellFormed(g) && |g| > 0
    ensures Done(g, 0, s) && AllBackEdges(g, s, backEdges)
    ensures forall e :: e in backEdges ==> e.0 < |g| && e.1 in g[e.0]
    ensures forall path :: IsCycle(g, path) && Reaches(g, 0, path[0]) ==> !Avoids(backEdges, path)
  {
    var trace: seq<Event>;
    trace, s := Dfs(g, 0);
    var pre: set<nat>, post: set<nat> := {}, {};
    backEdges := [];
    ghost var edges: set<(nat, nat)> := {};
    for t := 0 to |trace|
      invariant Progressed(s, t, pre, post) && BackEdgesUpTo(g, s, t, edges)
      invariant forall e :: e in backEdges <==> e in edges
    {
      ProgressStep(g, s, t, pre, post);
      match trace[t]
      case Pre(id) =>
        NoEdgeVisited(g, s, t, edges);
        pre := pre + {id};
      case Post(id) =>
        NoEdgeVisited(g, s, t, edges);
        post := post + {id};
      case Edge(parent, child) =>
        OpenIsBackEdge(g, s, t, parent, child, pre, post);
        OneEdgeVisited(g, s, t, parent, child, edges);
        if child in pre && child !in post {
          backEdges := backEdges + [(parent, child)];
          edges := edges + {(parent, child)};
        }
    }
    EveryEdgeVisited(g, s, edges);
    assert AllBackEdges(g, s, backEdges);
    forall path | IsCycle(g, path) && Reaches(g, 0, path[0])
      ensures !Avoids(backEdges, path)
    {
      CyclesUseBackEdges(g, s, backEdges, path);
    }
  }

  lemma EveryEdgeVisited(g: Graph, s: Search, edges: set<(nat, nat)>)
    requires Done(g, 0, s) && BackEdgesUpTo(g, s, |s.trace|, edges)
    ensures forall e :: e in edges <==> IsBackEdge(g, s, e.0, e.1)
  {
    forall e: (nat, nat) | IsBackEdge(g, s, e.0, e.1)
      ensures VisitedBefore(s, |s.trace|, e.0, e.1)
    {
      assert VisitedUpTo(g, s, e.0, |g[e.0]|);
      var k :| 0 <= k < |g[e.0]| && g[e.0][k] == e.1;
      assert Visited(s, e.0, g[e.0][k]);
    }
  }

  // ----- Back edges and cycles -----

  /** A path from a node back to itself, over at least one edge. */
  ghost predicate IsCycle(g: Graph, path: seq<nat>) {
    IsPath(g, path) && |path| > 1 && path[0] == path[|path| - 1]
  }

  ghost predicate Avoids(backEdges: seq<(nat, nat)>, path: seq<nat>) {
    forall i :: 0 <= i < |path| - 1 ==> (path[i], path[i + 1]) !in backEdges
  }

  /** Without back edges the leaving times fall along a path. */
  lemma {:induction false} LeavingTimesFall(g: Graph, s: Search, backEdges: seq<(nat, nat)>, path: seq<nat>, n: nat)
    requires Done(g, 0, s) && AllBackEdges(g, s, backEdges)
    requires IsPath(g, path) && path[0] in s.pre && n < |path| && Avoids(backEdges, path)
    ensures path[0] in s.post && path[n] in s.pre && path[n] in s.post && s.post[path[n]] <= s.post[path[0]]
    ensures n > 0 ==> s.post[path[n]] < s.post[path[0]]
  {
    AllClosed(g, 0, s);
    if n > 0 {
      LeavingTimesFall(g, s, backEdges, path, n - 1);
      var u, v := path[n - 1], path[n];
      assert path[n - 1 + 1] in g[path[n - 1]];
      EdgeFallsOrGoesBack(g, 0, s, u, v);
      var e: (nat, nat) := (u, v);
      assert (path[n - 1], path[n - 1 + 1]) !in backEdges && e !in backEdges;
      assert !IsBackEdge(g, s, u, v);
    }
  }

  /** Removing the back edges leaves no reachable cycle. */
  lemma CyclesUseBackEdges(g: Graph, s: Search, backEdges: seq<(nat, nat)>, path: seq<nat>)
    requires Done(g, 0, s) && AllBackEdges(g, s, backEdges)
    requires IsCycle(g, path) && Reaches(g, 0, path[0])
    ensures !Avoids(backEdges, path)
  {
    EnteredIffReachable(g, 0, s, path[0]);
    if Avoids(backEdges, path) {
      LeavingTimesFall(g, s, backEdges, path, |path| - 1);
    }
  }

  /** Every back edge closes a reachable cycle. */
  lemma BackEdgeClosesCycle(g: Graph, s: Search, u: nat, v: nat) returns (path: seq<nat>)
    requires Done(g, 0, s) && IsBackEdge(g, s, u, v)
    ensures IsCycle(g, path) && Reaches(g, 0, path[0]) && path[0] == v
  {
    EnclosingReaches(g, 0, s, v, u);
    var there :| Connects(g, there, v, u);
    path := there + [v];
    ReachesByOneMore(g, there, v);
    EnteredIffReachable(g, 0, s, v);
  }

  lemma ReachesByOneMore(g: Graph, path: seq<nat>, v: nat)
    requires IsPath(g, path) && v < |g| && v in g[path[|path| - 1]]
    ensures IsPath(g, path + [v])
  {
    var longer := path + [v];
    forall i | 0 <= i < |longer| - 1
      ensures longer[i + 1] in g[longer[i]]
    {
      if i < |path| - 1 {
        assert path[i + 1] in g[path[i]];
      }
    }
  }

  // ----- The nodes that reach the source of a back edge -----

  /** A path from `n` to `c` on which `h` does not occur. */
  ghost predicate GoesAround(g: Graph, path: seq<nat>, n: nat, c: nat, h: nat) {
    Connects(g, path, n, c) && h !in path
  }

  /** The predecessor graph, in which the walk stops at `stop`. */
  function StopAt(pred: Graph, stop: nat): Graph {
    seq(|pred|, i requires 0 <= i < |pred| => if i == stop then [] else pred[i])
  }

  function Backwards(path: seq<nat>): (r: seq<nat>)
    ensures |r| == |path| && forall i :: 0 <= i < |path| ==> r[i] == path[|path| - 1 - i]
  {
    seq(|path|, i requires 0 <= i < |path| => path[|path| - 1 - i])
  }

  lemma AroundIsWalkedBack(c: Cfg, path: seq<nat>, n: nat, e: nat, stop: nat)
    requires c.Valid() && GoesAround(c.succ, path, n, e, stop)
    ensures Connects(StopAt(c.pred, stop), Backwards(path), e, n)
  {
    var back, h := Backwards(path), StopAt(c.pred, stop);
    forall i | 0 <= i < |back| - 1
      ensures back[i + 1] in h[back[i]]
    {
      var j := |path| - 2 - i;
      assert path[j + 1] in c.succ[path[j]];
      assert back[i] == path[j + 1] && back[i + 1] == path[j];
      assert path[j + 1] in path;
    }
  }

  lemma WalkedBackIsAround(c: Cfg, back: seq<nat>, n: nat, e: nat, stop: nat)
    requires c.Valid() && Connects(StopAt(c.pred, stop), back, e, n) && n != stop
    ensures GoesAround(c.succ, Backwards(back), n, e, stop)
  {
    var path, h := Backwards(back), StopAt(c.pred, stop);
    forall j | 0 <= j < |path| - 1
      ensures path[j + 1] in c.succ[path[j]]
    {
      var i := |back| - 2 - j;
      assert back[i + 1] in h[back[i]];
      assert path[j] == back[i + 1] && path[j + 1] == back[i];
    }
    forall i | 0 <= i < |back|
      ensures back[i] != stop
    {
      if i < |back| - 1 {
        assert back[i + 1] in h[back[i]];
      }
    }
  }

  ghost predicate ReachesAround(g: Graph, n: nat, c: nat, h: nat) {
    exists path :: GoesAround(g, path, n, c, h)
  }

  /** The nodes from which the back edge's source can be reached without passing through its target. */
  method ReachesEdge(c: Cfg, edge: (nat, nat)) returns (r: set<nat>)
    requires c.Valid() && edge.0 < |c.succ|
    ensures forall n :: n in r <==> ReachesAround(c.succ, n, edge.0, edge.1)
  {
    var h := StopAt(c.pred, edge.1);
    assert WellFormed(h) by { StopWellFormed(c, edge.1); }
    var trace, s := Dfs(h, edge.0);
    r := {};
    for t := 0 to |trace|
      invariant forall v :: v in r <==> v in s.pre && s.pre[v] < t && v != edge.1
    {
      TimesAt(h, s, t);
      if trace[t].Pre? && trace[t].id != edge.1 {
        r := r + {trace[t].id};
      }
    }
    forall n: nat
      ensures n in r <==> ReachesAround(c.succ, n, edge.0, edge.1)
    {
      EnteredIffAround(c, h, s, edge, n);
    }
  }

  lemma StopWellFormed(c: Cfg, stop: nat)
    requires c.Valid()
    ensures WellFormed(StopAt(c.pred, stop))
  {
  }

  lemma EnteredIffAround(c: Cfg, h: Graph, s: Search, edge: (nat, nat), n: nat)
    requires c.Valid() && edge.0 < |c.succ| && h == StopAt(c.pred, edge.1) && Done(h, edge.0, s)
    ensures n in s.pre && n != edge.1 <==> ReachesAround(c.succ, n, edge.0, edge.1)
  {
    EnteredIffReachable(h, edge.0, s, n);
    if n in s.pre && n != edge.1 {
      var back :| Connects(h, back, edge.0, n);
      WalkedBackIsAround(c, back, n, edge.0, edge.1);
    }
    if ReachesAround(c.succ, n, edge.0, edge.1) {
      var path :| GoesAround(c.succ, path, n, edge.0, edge.1);
      AroundIsWalkedBack(c, path, n, edge.0, edge.1);
      assert path[0] in path;
    }
  }

  // ----- Loop headers -----

  ghost predicate IsHeader(backEdges: seq<(nat, nat)>, h: nat) {
    exists c :: (c, h) in backEdges
  }

  /** `n` reaches the source of a back edge to `h` without passing through `h`. */
  ghost predicate InLoopUpTo(g: Graph, backEdges: seq<(nat, nat)>, k: nat, h: nat, n: nat)
    requires k <= |backEdges|
  {
    exists i :: 0 <= i < k && backEdges[i].1 == h && ReachesAround(g, n, backEdges[i].0, h)
  }

  ghost predicate InLoop(g: Graph, backEdges: seq<(nat, nat)>, h: nat, n: nat) {
    InLoopUpTo(g, backEdges, |backEdges|, h, n)
  }

  ghost predicate Collected(g: Graph, backEdges: seq<(nat, nat)>, k: nat, headers: set<nat>, nodeLoops: seq<set<nat>>)
    requires k <= |backEdges|
  {
    && (forall h :: h in headers <==> exists i :: 0 <= i < k && backEdges[i].1 == h)
    && |nodeLoops| == |g|
    && (forall n, h {:trigger h in nodeLoops[n]} :: 0 <= n < |g| ==> (h in nodeLoops[n] <==> InLoopUpTo(g, backEdges, k, h, n)))
  }

  function AddTo(nodeLoops: seq<set<nat>>, nodes: set<nat>, h: nat): seq<set<nat>> {
    seq(|nodeLoops|, n requires 0 <= n < |nodeLoops| => if n in nodes then nodeLoops[n] + {h} else nodeLoops[n])
  }

  /** For every node the headers of the loops it belongs to. */
  method CollectLoops(c: Cfg, backEdges: seq<(nat, nat)>) returns (headers: set<nat>, nodeLoops: seq<set<nat>>)
    requires c.Valid() && forall e :: e in backEdges ==> e.0 < |c.succ|
    ensures Collected(c.succ, backEdges, |backEdges|, headers, nodeLoops)
  {
    headers := {};
    nodeLoops := seq(|c.succ|, i => {});
    for k := 0 to |backEdges|
      invariant Collected(c.succ, backEdges, k, headers, nodeLoops)
    {
      assert backEdges[k] in backEdges;
      var h := backEdges[k].1;
      var reached := ReachesEdge(c, backEdges[k]);
      CollectStep(c.succ, backEdges, k, headers, nodeLoops, reached);
      headers := headers + {h};
      nodeLoops := AddTo(nodeLoops, reached, h);
    }
  }

  lemma CollectStep(g: Graph, backEdges: seq<(nat, nat)>, k: nat, headers: set<nat>, nodeLoops: seq<set<nat>>, reached: set<nat>)
    requires k < |backEdges| && Collected(g, backEdges, k, headers, nodeLoops)
    requires forall n :: n in reached <==> ReachesAround(g, n, backEdges[k].0, backEdges[k].1)
    ensures Collected(g, backEdges, k + 1, headers + {backEdges[k].1}, AddTo(nodeLoops, reached, backEdges[k].1))
  {
    forall h: nat, n: nat
      ensures InLoopUpTo(g, backEdges, k + 1, h, n)
              <==> InLoopUpTo(g, backEdges, k, h, n) || (backEdges[k].1 == h && ReachesAround(g, n, backEdges[k].0, h))
    {
    }
    CollectHeaders(backEdges, k, headers);
  }

  lemma CollectHeaders(backEdges: seq<(nat, nat)>, k: nat, headers: set<nat>)
    requires k < |backEdges| && forall h :: h in headers <==> exists i :: 0 <= i < k && backEdges[i].1 == h
    ensures forall h :: h in headers + {backEdges[k].1} <==> exists i :: 0 <= i < k + 1 && backEdges[i].1 == h
  {
  }

  /** `h` strictly dominates `n` and heads a loop that contains `n`. */
  ghost predicate Contains(g: Graph, backEdges: seq<(nat, nat)>, h: nat, n: nat) {
    h < |g| && h != n && Dominates(g, h, n) && InLoop(g, backEdges, h, n)
  }

  /** The loop header of node `n`: itself if a back edge goes there, otherwise its nearest strict
      dominator that heads a loop containing `n`, if there is one. */
  ghost predicate IsLoopHeaderOf(g: Graph, backEdges: seq<(nat, nat)>, n: nat, lph: Option<nat>) {
    if IsHeader(backEdges, n) then lph == Some(n)
    else match lph
      case None => forall h :: !Contains(g, backEdges, h, n)
      case Some(h) => Contains(g, backEdges, h, n) && forall k :: Contains(g, backEdges, k, n) ==> Dominates(g, k, h)
  }

  ghost predicate ExactTree(c: Cfg, dom: seq<int>) {
    && c.Valid() && |dom| == |c.pred| && Tree(dom, |dom|)
    && forall p: nat, v: nat :: p < |dom| && v < |dom| ==> (p in Anc(dom, |dom|, v) <==> Dominates(c.succ, p, v))
  }

  /** Walks up the dominator tree from `i` to the nearest ancestor in `loops`. */
  method NearestHeader(c: Cfg, dom: seq<int>, loops: set<nat>, i: nat) returns (lph: Option<nat>)
    requires ExactTree(c, dom) && i < |dom|
    ensures lph.None? ==> forall h :: h in Anc(dom, |dom|, i) && h != i ==> h !in loops
    ensures lph.Some? ==>
              && lph.value in Anc(dom, |dom|, i) && lph.value != i && lph.value in loops
              && forall h :: h in Anc(dom, |dom|, i) && h != i && h in loops ==> h in Anc(dom, |dom|, lph.value)
  {
    lph := None;
    var n := i;
    while n != 0
      invariant n < |dom| && lph == None && n in Anc(dom, |dom|, i)
      invariant n <= i && forall h :: h in Anc(dom, |dom|, i) && h != i && h in loops ==> h in Anc(dom, |dom|, n) && h != n
      decreases n
    {
      var d: nat := dom[n];
      AncClosed(dom, |dom|, i, n);
      assert d in Anc(dom, |dom|, d);
      if d in loops {
        lph := Some(d);
        break;
      }
      n := d;
    }
  }

  /** Finds the header of the innermost loop of every node, and whether there is a loop at all. */
  method DetectLoops(c: Cfg, dom: seq<int>) returns (hasLoop: bool, lph: seq<Option<nat>>, ghost backEdges: seq<(nat, nat)>, ghost s: Search)
    requires ExactTree(c, dom)
    ensures Done(c.succ, 0, s) && AllBackEdges(c.succ, s, backEdges)
    ensures hasLoop <==> exists path :: IsCycle(c.succ, path)
    ensures |lph| == |c.succ| && forall n: nat :: n < |lph| ==> IsLoopHeaderOf(c.succ, backEdges, n, lph[n])
  {
    var edges;
    edges, s := FindBackEdges(c.succ);
    backEdges := edges;
    HasLoopIffCycle(c, s, edges);
    lph := seq(|c.succ|, i => None);
    hasLoop := edges != [];
    if !hasLoop {
      return;
    }
    lph := AssignHeaders(c, dom, edges);
  }

  method AssignHeaders(c: Cfg, dom: seq<int>, backEdges: seq<(nat, nat)>) returns (lph: seq<Option<nat>>)
    requires ExactTree(c, dom) && forall e :: e in backEdges ==> e.0 < |c.succ|
    ensures |lph| == |c.succ| && forall n: nat :: n < |lph| ==> IsLoopHeaderOf(c.succ, backEdges, n, lph[n])
  {
    var headers, nodeLoops := CollectLoops(c, backEdges);
    lph := [];
    for i := 0 to |c.succ|
      invariant |lph| == i && forall n: nat :: n < i ==> IsLoopHeaderOf(c.succ, backEdges, n, lph[n])
    {
      var header := Some(i);
      if i !in headers {
        header := NearestHeader(c, dom, nodeLoops[i], i);
      }
      HeaderIsRight(c, dom, backEdges, headers, nodeLoops, i, header);
      lph := lph + [header];
    }
  }

  lemma HeaderIsRight(c: Cfg, dom: seq<int>, backEdges: seq<(nat, nat)>, headers: set<nat>, nodeLoops: seq<set<nat>>, i: nat, lph: Option<nat>)
    requires ExactTree(c, dom) && i < |dom| && Collected(c.succ, backEdges, |backEdges|, headers, nodeLoops)
    requires i in headers ==> lph == Some(i)
    requires i !in headers && lph.None? ==> forall h :: h in Anc(dom, |dom|, i) && h != i ==> h !in nodeLoops[i]
    requires i !in headers && lph.Some? ==>
               && lph.value in Anc(dom, |dom|, i) && lph.value != i && lph.value in nodeLoops[i]
               && forall h :: h in Anc(dom, |dom|, i) && h != i && h in nodeLoops[i] ==> h in Anc(dom, |dom|, lph.value)
    ensures IsLoopHeaderOf(c.succ, backEdges, i, lph)
  {
    assert IsHeader(backEdges, i) <==> i in headers by {
      if k :| 0 <= k < |backEdges| && backEdges[k].1 == i {
        assert (backEdges[k].0, i) in backEdges;
      }
      if e :| (e, i) in backEdges {
        var k :| 0 <= k < |backEdges| && backEdges[k] == (e, i);
      }
    }
    forall h: nat
      ensures Contains(c.succ, backEdges, h, i) <==> h in Anc(dom, |dom|, i) && h != i && h in nodeLoops[i]
    {
      assert h in nodeLoops[i] <==> InLoop(c.succ, backEdges, h, i);
    }
  }

  lemma HasLoopIffCycle(c: Cfg, s: Search, backEdges: seq<(nat, nat)>)
    requires c.Valid() && Done(c.succ, 0, s) && AllBackEdges(c.succ, s, backEdges)
    ensures backEdges != [] <==> exists path :: IsCycle(c.succ, path)
  {
    if backEdges != [] {
      var e := backEdges[0];
      assert (e.0, e.1) in backEdges;
      var path := BackEdgeClosesCycle(c.succ, s, e.0, e.1);
    }
    if path :| IsCycle(c.succ, path) {
      EntryReachesAll(c, path[0]);
      CyclesUseBackEdges(c.succ, s, backEdges, path);
    }
  }

  lemma {:induction false} EntryReachesAll(c: Cfg, b: nat)
    requires c.Valid() && b < |c.succ|
    ensures Reaches(c.succ, 0, b)
  {
    if b == 0 {
      ReachesSelf(c.succ, 0);
    } else {
      var p := c.pred[b][0];
      EntryReachesAll(c, p);
      assert p in c.pred[b] && b in c.succ[p];
      ReachesStep(c.succ, 0, p, b);
    }
  }
}
