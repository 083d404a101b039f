/** Reverse post-order renumbering of a control-flow graph (crates/deko-compiler-utils/src/cfg.rs). */
module CfgOrder {
  import opened Machine
  import opened DepthFirstSearch

  datatype Node<N> = Node(payload: N, pred: seq<nat>, succ: seq<nat>)

  function Backwards<T>(s: seq<T>): seq<T> {
    seq(|s|, i requires 0 <= i < |s| => s[|s| - 1 - i])
  }

  lemma BackwardsKeepsElements<T>(s: seq<T>)
    ensures forall x :: x in Backwards(s) <==> x in s
  {
    forall x | x in s
      ensures x in Backwards(s)
    {
      var i :| 0 <= i < |s| && s[i] == x;
      assert Backwards(s)[|s| - 1 - i] == x;
    }
  }

  /** The graph whose children are visited: successors in reverse order. */
  function Visited(succ: Graph): Graph {
    seq(|succ|, i requires 0 <= i < |succ| => Backwards(succ[i]))
  }

  lemma VisitedSameEdges(succ: Graph)
    ensures |Visited(succ)| == |succ|
    ensures forall u, v :: 0 <= u < |succ| ==> (v in Visited(succ)[u] <==> v in succ[u])
  {
    forall u | 0 <= u < |succ|
      ensures forall v :: v in Visited(succ)[u] <==> v in succ[u]
    {
      BackwardsKeepsElements(succ[u]);
    }
  }

  lemma SameReaches(g: Graph, h: Graph, a: nat, b: nat)
    requires |g| == |h| && forall u, v :: 0 <= u < |g| ==> (v in g[u] <==> v in h[u])
    requires Reaches(g, a, b)
    ensures Reaches(h, a, b)
  {
    var path :| Connects(g, path, a, b);
    assert Connects(h, path, a, b);
  }

  // ----- Counting the nodes as they are left -----

  ghost function Leaves(trace: seq<Event>, t: nat): nat
    requires t <= |trace|
  {
    if t == 0 then 0 else Leaves(trace, t - 1) + if trace[t - 1].Post? then 1 else 0
  }

  lemma {:induction false} LeavesGrow(trace: seq<Event>, t: nat, u: nat)
    requires t <= u <= |trace|
    ensures Leaves(trace, t) <= Leaves(trace, u)
    ensures t < u && trace[t].Post? ==> Leaves(trace, t) < Leaves(trace, u)
  {
    if t < u {
      LeavesGrow(trace, t, u - 1);
    }
  }

  lemma {:induction false} LeavesHit(trace: seq<Event>, t: nat, k: nat) returns (i: nat)
    requires t <= |trace| && k < Leaves(trace, t)
    ensures i < t && trace[i].Post? && Leaves(trace, i) == k
  {
    if k < Leaves(trace, t - 1) {
      i := LeavesHit(trace, t - 1, k);
    } else {
      i := t - 1;
    }
  }

  ghost predicate Counted(g: Graph, s: Search, postIdx: seq<Option<nat>>, t: nat)
    requires t <= |s.trace|
  {
    && |postIdx| == |g|
    && forall v :: 0 <= v < |g| ==> CountedNode(s, postIdx[v], t, v)
  }

  ghost predicate CountedNode(s: Search, idx: Option<nat>, t: nat, v: nat)
    requires t <= |s.trace|
  {
    if v in s.post && s.post[v] < t then idx == Some(Leaves(s.trace, s.post[v])) else idx == None
  }

  lemma LeavesAt(g: Graph, s: Search, t: nat)
    requires Times(g, s) && t < |s.trace|
    ensures s.trace[t].Post? ==> s.trace[t].id < |g| && s.trace[t].id in s.post && s.post[s.trace[t].id] == t
    ensures forall v :: v in s.post && s.post[v] == t ==> s.trace[t] == Post(v)
  {
  }

  lemma CountStep(g: Graph, s: Search, postIdx: seq<Option<nat>>, t: nat, postIdx': seq<Option<nat>>)
    requires t < |s.trace| && Counted(g, s, postIdx, t)
    requires forall v :: v in s.post && s.post[v] == t ==> s.trace[t] == Post(v)
    requires s.trace[t].Post? ==> s.trace[t].id < |g| && s.trace[t].id in s.post && s.post[s.trace[t].id] == t
    requires postIdx' == if s.trace[t].Post? then postIdx[s.trace[t].id := Some(Leaves(s.trace, t))] else postIdx
    ensures Counted(g, s, postIdx', t + 1)
  {
    forall v | 0 <= v < |g|
      ensures CountedNode(s, postIdx'[v], t + 1, v)
    {
      assert CountedNode(s, postIdx[v], t, v);
    }
  }

  /** The order in which the depth-first search leaves the nodes. */
  method PostOrder(succ: Graph) returns (postIdx: seq<Option<nat>>, count: nat)
    requires WellFormed(succ) && |succ| > 0
    ensures IsPostOrder(succ, postIdx, count)
  {
    VisitedSameEdges(succ);
    var g := Visited(succ);
    var trace, s := Dfs(g, 0);
    postIdx, count := Count(g, trace, s);
    PostOrderFromSearch(succ, s, postIdx, count);
  }

  /** The callbacks of the numbering visitor. */
  method Count(g: Graph, trace: seq<Event>, ghost s: Search) returns (postIdx: seq<Option<nat>>, count: nat)
    requires Times(g, s) && s.trace == trace
    ensures count == Leaves(s.trace, |s.trace|) && Counted(g, s, postIdx, |s.trace|)
  {
    postIdx := seq(|g|, i => None);
    count := 0;
    for t := 0 to |trace|
      invariant count == Leaves(trace, t) && Counted(g, s, postIdx, t)
    {
      LeavesAt(g, s, t);
      ghost var was := postIdx;
      if trace[t].Post? {
        postIdx := postIdx[trace[t].id := Some(count)];
        count := count + 1;
      }
      CountStep(g, s, was, t, postIdx);
    }
  }

  // ----- What the order is good for -----

  ghost predicate NumbersReachable(succ: Graph, postIdx: seq<Option<nat>>) {
    && |postIdx| == |succ|
    && forall v: nat {:trigger postIdx[v]} {:trigger Reaches(succ, 0, v)} :: v < |succ| ==> (postIdx[v].Some? <==> Reaches(succ, 0, v))
  }

  ghost predicate Injective(postIdx: seq<Option<nat>>) {
    forall u: nat, v: nat :: u < |postIdx| && v < |postIdx| && postIdx[u].Some? && postIdx[u] == postIdx[v] ==> u == v
  }

  ghost predicate Onto(postIdx: seq<Option<nat>>, count: nat) {
    && (forall v: nat :: v < |postIdx| && postIdx[v].Some? ==> postIdx[v].value < count)
    && (forall k: nat :: k < count ==> Some(k) in postIdx)
  }

  /** Numbers exactly the nodes reachable from the entry, one to one from 0 to `count`, the entry last. */
  ghost predicate Numbers(succ: Graph, postIdx: seq<Option<nat>>, count: nat) {
    && NumbersReachable(succ, postIdx) && Injective(postIdx) && Onto(postIdx, count)
    && 0 < count && postIdx != [] && postIdx[0] == Some(count - 1)
  }

  /** An edge that does not go down closes a cycle. */
  ghost predicate EdgesFall(succ: Graph, postIdx: seq<Option<nat>>) {
    && |postIdx| == |succ|
    && forall u: nat, v: nat {:trigger v in succ[u]} :: u < |succ| && v in succ[u] && postIdx[u].Some? ==>
         && v < |succ| && postIdx[v].Some?
         && (postIdx[v].value < postIdx[u].value || Reaches(succ, v, u))
  }

  ghost predicate ComesFrom(succ: Graph, postIdx: seq<Option<nat>>, u: nat, v: nat)
    requires |postIdx| == |succ| && v < |succ| && postIdx[v].Some?
  {
    u < |succ| && v in succ[u] && postIdx[u].Some? && postIdx[v].value < postIdx[u].value
  }

  /** Every node but the entry has a predecessor that is left after it. */
  ghost predicate HasParents(succ: Graph, postIdx: seq<Option<nat>>) {
    && |postIdx| == |succ|
    && forall v: nat :: 0 < v < |succ| && postIdx[v].Some? ==> exists u: nat :: ComesFrom(succ, postIdx, u, v)
  }

  ghost predicate IsPostOrder(succ: Graph, postIdx: seq<Option<nat>>, count: nat) {
    Numbers(succ, postIdx, count) && EdgesFall(succ, postIdx) && HasParents(succ, postIdx)
  }

  lemma PostOrderFromSearch(succ: Graph, s: Search, postIdx: seq<Option<nat>>, count: nat)
    requires |succ| > 0 && Done(Visited(succ), 0, s)
    requires count == Leaves(s.trace, |s.trace|) && Counted(Visited(succ), s, postIdx, |s.trace|)
    ensures IsPostOrder(succ, postIdx, count)
  {
    VisitedSameEdges(succ);
    var g := Visited(succ);
    CountedAll(g, s, postIdx);
    ReachableFromSearch(succ, s, postIdx);
    InjectiveFromSearch(g, s, postIdx);
    OntoFromSearch(g, s, postIdx, count);
    EntryIsLast(g, s);
    EdgesFromSearch(succ, g, s, postIdx);
    ParentsFromSearch(succ, g, s, postIdx);
  }

  lemma ReachedIsLeft(succ: Graph, s: Search, v: nat)
    requires |succ| > 0 && Done(Visited(succ), 0, s) && v < |succ|
    ensures v in s.post <==> Reaches(succ, 0, v)
    ensures v in s.post ==> s.post[v] < |s.trace|
  {
    var g := Visited(succ);
    VisitedSameEdges(succ);
    AllClosed(g, 0, s);
    EnteredIffReachable(g, 0, s, v);
    if Reaches(g, 0, v) { SameReaches(g, succ, 0, v); }
    if Reaches(succ, 0, v) { SameReaches(succ, g, 0, v); }
  }

  /** What the counter says in terms of leaving times. */
  ghost predicate FromTimes(s: Search, postIdx: seq<Option<nat>>) {
    && (forall v :: v in s.post ==> s.post[v] < |s.trace|)
    && forall v: nat :: v < |postIdx| ==> postIdx[v] == if v in s.post then Some(Leaves(s.trace, s.post[v])) else None
  }

  lemma CountedAll(g: Graph, s: Search, postIdx: seq<Option<nat>>)
    requires Times(g, s) && Counted(g, s, postIdx, |s.trace|)
    ensures |postIdx| == |g| && FromTimes(s, postIdx)
  {
    forall v: nat | v < |postIdx|
      ensures postIdx[v] == if v in s.post then Some(Leaves(s.trace, s.post[v])) else None
    {
      assert CountedNode(s, postIdx[v], |s.trace|, v);
    }
  }

  lemma ReachableFromSearch(succ: Graph, s: Search, postIdx: seq<Option<nat>>)
    requires |succ| == |postIdx| > 0 && Done(Visited(succ), 0, s) && FromTimes(s, postIdx)
    ensures NumbersReachable(succ, postIdx)
  {
    forall v: nat | v < |succ|
      ensures postIdx[v].Some? <==> Reaches(succ, 0, v)
    {
      ReachedIsLeft(succ, s, v);
    }
  }

  lemma CountCompare(g: Graph, s: Search, u: nat, v: nat)
    requires Times(g, s) && u in s.post && v in s.post
    ensures s.post[u] < s.post[v] <==> Leaves(s.trace, s.post[u]) < Leaves(s.trace, s.post[v])
    ensures Leaves(s.trace, s.post[u]) < Leaves(s.trace, |s.trace|)
  {
    LeavesGrow(s.trace, s.post[u], |s.trace|);
    if s.post[u] <= s.post[v] {
      LeavesGrow(s.trace, s.post[u], s.post[v]);
    } else {
      LeavesGrow(s.trace, s.post[v], s.post[u]);
    }
  }

  lemma InjectiveFromSearch(g: Graph, s: Search, postIdx: seq<Option<nat>>)
    requires |g| == |postIdx| && Done(g, 0, s) && FromTimes(s, postIdx)
    ensures Injective(postIdx)
  {
    forall u: nat, v: nat | u < |postIdx| && v < |postIdx| && postIdx[u].Some? && postIdx[u] == postIdx[v]
      ensures u == v
    {
      SameCountSameNode(g, s, u, v);
    }
  }

  lemma SameCountSameNode(g: Graph, s: Search, u: nat, v: nat)
    requires Done(g, 0, s) && u in s.post && v in s.post && s.post[u] < |s.trace| && s.post[v] < |s.trace|
    requires Leaves(s.trace, s.post[u]) == Leaves(s.trace, s.post[v])
    ensures u == v
  {
    CountCompare(g, s, u, v);
    CountCompare(g, s, v, u);
    AllClosed(g, 0, s);
    DistinctTimes(g, 0, s, u, v);
  }

  lemma OntoFromSearch(g: Graph, s: Search, postIdx: seq<Option<nat>>, count: nat)
    requires |g| == |postIdx| && Times(g, s) && FromTimes(s, postIdx)
    requires count == Leaves(s.trace, |s.trace|)
    ensures Onto(postIdx, count)
  {
    forall v: nat | v < |postIdx| && postIdx[v].Some?
      ensures postIdx[v].value < count
    {
      CountCompare(g, s, v, v);
    }
    forall k: nat | k < count
      ensures Some(k) in postIdx
    {
      var i := LeavesHit(s.trace, |s.trace|, k);
      LeavesAt(g, s, i);
      assert postIdx[s.trace[i].id] == Some(k);
    }
  }

  lemma EntryIsLast(g: Graph, s: Search)
    requires Done(g, 0, s)
    ensures 0 in s.post && Leaves(s.trace, s.post[0]) + 1 == Leaves(s.trace, |s.trace|)
  {
    AllClosed(g, 0, s);
    var t := s.post[0];
    CountCompare(g, s, 0, 0);
    if Leaves(s.trace, t) + 1 < Leaves(s.trace, |s.trace|) {
      var i := LeavesHit(s.trace, |s.trace|, Leaves(s.trace, t) + 1);
      LeavesAt(g, s, i);
      var v := s.trace[i].id;
      StartEncloses(g, 0, s, v);
      CountCompare(g, s, 0, v);
    }
  }

  lemma EdgesFromSearch(succ: Graph, g: Graph, s: Search, postIdx: seq<Option<nat>>)
    requires |succ| == |g| == |postIdx| && Done(g, 0, s) && FromTimes(s, postIdx)
    requires forall u, v :: 0 <= u < |succ| ==> (v in g[u] <==> v in succ[u])
    ensures EdgesFall(succ, postIdx)
  {
    forall u: nat, v: nat | u < |succ| && v in succ[u] && postIdx[u].Some?
      ensures v < |succ| && postIdx[v].Some? && (postIdx[v].value < postIdx[u].value || Reaches(succ, v, u))
    {
      AllClosed(g, 0, s);
      assert v in g[u];
      EdgeFallsOrGoesBack(g, 0, s, u, v);
      CountCompare(g, s, v, u);
      if s.post[v] >= s.post[u] {
        EnclosingReaches(g, 0, s, v, u);
        SameReaches(g, succ, v, u);
      }
    }
  }

  lemma ParentsFromSearch(succ: Graph, g: Graph, s: Search, postIdx: seq<Option<nat>>)
    requires |succ| == |g| == |postIdx| && Done(g, 0, s) && FromTimes(s, postIdx)
    requires forall u, v :: 0 <= u < |succ| ==> (v in g[u] <==> v in succ[u])
    ensures HasParents(succ, postIdx)
  {
    forall v: nat | 0 < v < |succ| && postIdx[v].Some?
      ensures exists u: nat :: ComesFrom(succ, postIdx, u, v)
    {
      AllClosed(g, 0, s);
      TreeEdgeTo(g, 0, s, v);
      var u := Parent(s, v);
      assert v in g[u];
      TreeEdgeEncloses(g, s, u, v);
      CountCompare(g, s, v, u);
      assert ComesFrom(succ, postIdx, u, v);
    }
  }

  // ----- Renumbering the nodes -----

  /** The place of a node in reverse post-order; unreachable nodes have none. */
  function RemapIdx(postIdx: seq<Option<nat>>, count: nat, i: nat): (r: Option<nat>)
    requires i < |postIdx| && Onto(postIdx, count)
    ensures r.Some? ==> r.value < count
  {
    if postIdx[i].Some? then Some(count - 1 - postIdx[i].value) else None
  }

  ghost predicate InRange(edges: seq<nat>, n: nat) {
    forall v :: v in edges ==> v < n
  }

  /** Renames the targets of an edge list and drops those that have no new name. */
  function Retained(index: seq<Option<nat>>, edges: seq<nat>): seq<nat>
    requires InRange(edges, |index|)
  {
    if edges == [] then []
    else
      assert edges[0] in edges && forall v :: v in edges[1..] ==> v in edges;
      var rest := Retained(index, edges[1..]);
      if index[edges[0]].Some? then [index[edges[0]].value] + rest else rest
  }

  lemma {:induction false} RetainedElements(index: seq<Option<nat>>, edges: seq<nat>, r: nat)
    requires InRange(edges, |index|)
    ensures r in Retained(index, edges) <==> exists v :: v in edges && index[v] == Some(r)
  {
    if edges != [] {
      assert forall v :: v in edges[1..] ==> v in edges;
      RetainedElements(index, edges[1..], r);
      if v :| v in edges && index[v] == Some(r) {
        assert v == edges[0] || v in edges[1..];
      }
    }
  }

  /** Predecessor and successor lists describe the same edges. */
  ghost predicate Consistent<N>(nodes: seq<Node<N>>) {
    && (forall u, v {:trigger v in nodes[u].succ} :: 0 <= u < |nodes| && v in nodes[u].succ ==> IsPred(nodes, u, v))
    && (forall u, v {:trigger u in nodes[v].pred} :: 0 <= v < |nodes| && u in nodes[v].pred ==> IsSucc(nodes, u, v))
  }

  ghost predicate IsPred<N>(nodes: seq<Node<N>>, u: nat, v: nat) {
    v < |nodes| && u in nodes[v].pred
  }

  ghost predicate IsSucc<N>(nodes: seq<Node<N>>, u: nat, v: nat) {
    u < |nodes| && v in nodes[u].succ
  }

  function Succ<N>(nodes: seq<Node<N>>): Graph {
    seq(|nodes|, i requires 0 <= i < |nodes| => nodes[i].succ)
  }

  function Preds<N>(nodes: seq<Node<N>>): Graph {
    seq(|nodes|, i requires 0 <= i < |nodes| => nodes[i].pred)
  }

  function Renamed<N>(index: seq<Option<nat>>, n: Node<N>): Node<N>
    requires InRange(n.pred, |index|) && InRange(n.succ, |index|)
  {
    Node(n.payload, Retained(index, n.pred), Retained(index, n.succ))
  }

  /** `sorted` holds the numbered nodes at their new places, with their edges renamed. */
  ghost predicate IsRenaming<N>(nodes: seq<Node<N>>, index: seq<Option<nat>>, sorted: seq<Node<N>>) {
    && |index| == |nodes| && Consistent(nodes) && Injective(index) && Onto(index, |sorted|)
    && forall v: nat :: v < |nodes| && index[v].Some? ==> sorted[index[v].value] == Renamed(index, nodes[v])
  }

  /** Sorts the reachable nodes in reverse post-order. */
  method RevPostOrderSort<N>(nodes: seq<Node<N>>) returns (sorted: seq<Node<N>>, ghost index: seq<Option<nat>>)
    requires nodes != [] && Consistent(nodes)
    ensures IsRenaming(nodes, index, sorted) && NumbersReachable(Succ(nodes), index) && index[0] == Some(0)
    ensures Consistent(sorted) && InReversePostOrder(Succ(sorted))
  {
    assert WellFormed(Succ(nodes));
    var postIdx, count := PostOrder(Succ(nodes));
    var remap := seq(|nodes|, i requires 0 <= i < |nodes| && Onto(postIdx, count) => RemapIdx(postIdx, count, i));
    RemapNumbers(Succ(nodes), postIdx, count, remap);
    var renamed := RemapEdges(nodes, remap);
    sorted := Place(nodes, renamed, remap, count);
    index := remap;
    SortedIsOrdered(nodes, postIdx, index, sorted);
  }

  lemma RemapNumbers(succ: Graph, postIdx: seq<Option<nat>>, count: nat, index: seq<Option<nat>>)
    requires Numbers(succ, postIdx, count)
    requires |index| == |postIdx| && forall i :: 0 <= i < |index| ==> index[i] == RemapIdx(postIdx, count, i)
    ensures NumbersReachable(succ, index) && Injective(index) && Onto(index, count) && index[0] == Some(0)
  {
    forall u: nat, v: nat | u < |index| && v < |index| && index[u].Some? && index[u] == index[v]
      ensures u == v
    {
      assert postIdx[u] == postIdx[v];
    }
    forall k: nat | k < count
      ensures Some(k) in index
    {
      var j: nat := count - 1 - k;
      assert Some(j) in postIdx;
      var i :| 0 <= i < |postIdx| && postIdx[i] == Some(j);
      assert index[i] == Some(k);
    }
  }

  /** Renames the edges of all nodes. */
  method RemapEdges<N>(nodes: seq<Node<N>>, remap: seq<Option<nat>>) returns (renamed: seq<Node<N>>)
    requires Consistent(nodes) && |remap| == |nodes|
    ensures |renamed| == |nodes| && forall v: nat :: v < |nodes| ==> renamed[v] == Renamed(remap, nodes[v])
  {
    renamed := [];
    for i := 0 to |nodes|
      invariant |renamed| == i && forall v: nat :: v < i ==> renamed[v] == Renamed(remap, nodes[v])
    {
      renamed := renamed + [Renamed(remap, nodes[i])];
    }
  }

  /** Moves every numbered node to its place.  Each place is written exactly once: it is still empty
      when it is written, and none is empty at the end. */
  method Place<N>(nodes: seq<Node<N>>, renamed: seq<Node<N>>, remap: seq<Option<nat>>, count: nat) returns (sorted: seq<Node<N>>)
    requires Consistent(nodes) && |remap| == |nodes| == |renamed| && Injective(remap) && Onto(remap, count)
    requires forall v: nat :: v < |nodes| ==> renamed[v] == Renamed(remap, nodes[v])
    ensures |sorted| == count && IsRenaming(nodes, remap, sorted)
  {
    var slots: array<Option<Node<N>>> := new Option<Node<N>>[count](_ => None);
    for i := 0 to |renamed|
      invariant Filled(remap, renamed, slots[..], i)
    {
      ghost var was := slots[..];
      if remap[i].Some? {
        var r := remap[i].value;
        StillEmpty(remap, renamed, slots[..], i);
        assert slots[r] == None;
        slots[r] := Some(renamed[i]);
        assert slots[..] == was[r := Some(renamed[i])];
      }
      FillOne(remap, renamed, was, slots[..], i);
    }
    AllFilled(remap, renamed, slots[..]);
    sorted := [];
    for r := 0 to count
      invariant |sorted| == r && forall q :: 0 <= q < r ==> slots[q] == Some(sorted[q])
    {
      assert slots[..][r] == slots[r];
      sorted := sorted + [slots[r].value];
    }
    forall v: nat | v < |nodes| && remap[v].Some?
      ensures sorted[remap[v].value] == Renamed(remap, nodes[v])
    {
      assert slots[..][remap[v].value] == Some(renamed[v]);
    }
  }

  /** The first `n` nodes are in their places, and the other places are empty. */
  ghost predicate Filled<N>(remap: seq<Option<nat>>, renamed: seq<Node<N>>, slots: seq<Option<Node<N>>>, n: nat) {
    && n <= |remap| == |renamed| && Onto(remap, |slots|) && Injective(remap)
    && (forall v: nat :: v < n && remap[v].Some? ==> slots[remap[v].value] == Some(renamed[v]))
    && (forall r: nat :: r < |slots| && Some(r) !in remap[..n] ==> slots[r] == None)
  }

  lemma StillEmpty<N>(remap: seq<Option<nat>>, renamed: seq<Node<N>>, slots: seq<Option<Node<N>>>, i: nat)
    requires Filled(remap, renamed, slots, i) && i < |remap| && remap[i].Some?
    ensures slots[remap[i].value] == None
  {
    assert forall u: nat :: u < i ==> remap[u] != remap[i];
  }

  lemma FillOne<N>(remap: seq<Option<nat>>, renamed: seq<Node<N>>, slots: seq<Option<Node<N>>>, slots': seq<Option<Node<N>>>, i: nat)
    requires Filled(remap, renamed, slots, i) && i < |remap|
    requires slots' == if remap[i].Some? then slots[remap[i].value := Some(renamed[i])] else slots
    ensures Filled(remap, renamed, slots', i + 1)
  {
    assert remap[..i + 1] == remap[..i] + [remap[i]];
    forall v: nat | v < i + 1 && remap[v].Some?
      ensures slots'[remap[v].value] == Some(renamed[v])
    {
      if v < i && remap[i].Some? {
        assert remap[v] != remap[i];
      }
    }
  }

  lemma AllFilled<N>(remap: seq<Option<nat>>, renamed: seq<Node<N>>, slots: seq<Option<Node<N>>>)
    requires Filled(remap, renamed, slots, |remap|)
    ensures forall r: nat :: r < |slots| ==> slots[r].Some?
  {
    forall r: nat | r < |slots|
      ensures slots[r].Some?
    {
      assert Some(r) in remap;
      var v: nat :| v < |remap| && remap[v] == Some(r);
    }
  }

  // ----- The sorted graph -----

  ghost predicate HasEarlierPred(succ: Graph, b: nat)
    requires b < |succ|
  {
    exists a: nat :: a < b && b in succ[a]
  }

  /** All nodes are reachable from node 0; every other node has a predecessor before it; an edge that
      does not go forward closes a cycle. */
  ghost predicate InReversePostOrder(succ: Graph) {
    && WellFormed(succ) && succ != []
    && (forall b: nat :: b < |succ| ==> Reaches(succ, 0, b))
    && (forall b: nat :: 0 < b < |succ| ==> HasEarlierPred(succ, b))
    && (forall a: nat, b: nat {:trigger b in succ[a]} :: a < |succ| && b in succ[a] && b <= a ==> Reaches(succ, b, a))
  }

  /** An edge joins new places exactly when it joined the nodes there. */
  lemma EdgeRenamed<N>(nodes: seq<Node<N>>, index: seq<Option<nat>>, sorted: seq<Node<N>>, u: nat, v: nat)
    requires IsRenaming(nodes, index, sorted) && u < |nodes| && v < |nodes| && index[u].Some? && index[v].Some?
    ensures index[v].value in sorted[index[u].value].succ <==> v in nodes[u].succ
    ensures index[u].value in sorted[index[v].value].pred <==> u in nodes[v].pred
  {
    RetainedElements(index, nodes[u].succ, index[v].value);
    RetainedElements(index, nodes[v].pred, index[u].value);
  }

  lemma Origin<N>(nodes: seq<Node<N>>, index: seq<Option<nat>>, sorted: seq<Node<N>>, r: nat) returns (v: nat)
    requires IsRenaming(nodes, index, sorted) && r < |sorted|
    ensures v < |nodes| && index[v] == Some(r)
  {
    assert Some(r) in index;
    v :| v < |nodes| && index[v] == Some(r);
  }

  lemma SuccOrigin<N>(nodes: seq<Node<N>>, index: seq<Option<nat>>, sorted: seq<Node<N>>, u: nat, b: nat) returns (v: nat)
    requires IsRenaming(nodes, index, sorted) && u < |nodes| && index[u].Some? && b in sorted[index[u].value].succ
    ensures v in nodes[u].succ && v < |nodes| && index[v] == Some(b)
  {
    RetainedElements(index, nodes[u].succ, b);
    v :| v in nodes[u].succ && index[v] == Some(b);
  }

  lemma PredOrigin<N>(nodes: seq<Node<N>>, index: seq<Option<nat>>, sorted: seq<Node<N>>, v: nat, a: nat) returns (u: nat)
    requires IsRenaming(nodes, index, sorted) && v < |nodes| && index[v].Some? && a in sorted[index[v].value].pred
    ensures u in nodes[v].pred && u < |nodes| && index[u] == Some(a)
  {
    RetainedElements(index, nodes[v].pred, a);
    u :| u in nodes[v].pred && index[u] == Some(a);
  }

  lemma SortedConsistent<N>(nodes: seq<Node<N>>, index: seq<Option<nat>>, sorted: seq<Node<N>>)
    requires IsRenaming(nodes, index, sorted)
    ensures Consistent(sorted)
  {
    forall a, b | 0 <= a < |sorted| && b in sorted[a].succ
      ensures IsPred(sorted, a, b)
    {
      SuccIsPred(nodes, index, sorted, a, b);
    }
    forall a, b | 0 <= b < |sorted| && a in sorted[b].pred
      ensures IsSucc(sorted, a, b)
    {
      PredIsSucc(nodes, index, sorted, a, b);
    }
  }

  lemma SuccIsPred<N>(nodes: seq<Node<N>>, index: seq<Option<nat>>, sorted: seq<Node<N>>, a: nat, b: nat)
    requires IsRenaming(nodes, index, sorted) && a < |sorted| && b in sorted[a].succ
    ensures b < |sorted| && a in sorted[b].pred
  {
    var u := Origin(nodes, index, sorted, a);
    var v := SuccOrigin(nodes, index, sorted, u, b);
    EdgeRenamed(nodes, index, sorted, u, v);
  }

  lemma PredIsSucc<N>(nodes: seq<Node<N>>, index: seq<Option<nat>>, sorted: seq<Node<N>>, a: nat, b: nat)
    requires IsRenaming(nodes, index, sorted) && b < |sorted| && a in sorted[b].pred
    ensures a < |sorted| && b in sorted[a].succ
  {
    var v := Origin(nodes, index, sorted, b);
    var u := PredOrigin(nodes, index, sorted, v, a);
    EdgeRenamed(nodes, index, sorted, u, v);
  }

  /** Paths between numbered nodes are renamed along with them. */
  lemma {:induction false} PathRenamed<N>(nodes: seq<Node<N>>, index: seq<Option<nat>>, sorted: seq<Node<N>>, path: seq<nat>, n: nat)
    requires IsRenaming(nodes, index, sorted) && NumbersReachable(Succ(nodes), index)
    requires IsPath(Succ(nodes), path) && index[path[0]].Some? && n < |path|
    ensures index[path[n]].Some? && Reaches(Succ(sorted), index[path[0]].value, index[path[n]].value)
  {
    var succ := Succ(nodes);
    if n == 0 {
      ReachesSelf(Succ(sorted), index[path[0]].value);
    } else {
      PathRenamed(nodes, index, sorted, path, n - 1);
      var u, v := path[n - 1], path[n];
      assert path[n - 1 + 1] in succ[path[n - 1]];
      assert WellFormed(succ);
      assert Reaches(succ, 0, u);
      ReachesStep(succ, 0, u, v);
      EdgeRenamed(nodes, index, sorted, u, v);
      SortedConsistent(nodes, index, sorted);
      assert WellFormed(Succ(sorted));
      ReachesStep(Succ(sorted), index[path[0]].value, index[u].value, index[v].value);
    }
  }

  lemma ReachesRenamed<N>(nodes: seq<Node<N>>, index: seq<Option<nat>>, sorted: seq<Node<N>>, u: nat, v: nat)
    requires IsRenaming(nodes, index, sorted) && NumbersReachable(Succ(nodes), index)
    requires u < |nodes| && v < |nodes| && index[u].Some? && Reaches(Succ(nodes), u, v)
    ensures index[v].Some? && Reaches(Succ(sorted), index[u].value, index[v].value)
  {
    var path :| Connects(Succ(nodes), path, u, v);
    PathRenamed(nodes, index, sorted, path, |path| - 1);
  }

  ghost predicate Reversed(postIdx: seq<Option<nat>>, index: seq<Option<nat>>) {
    && |postIdx| == |index|
    && (forall v: nat :: v < |index| ==> (postIdx[v].Some? <==> index[v].Some?))
    && (forall u: nat, v: nat :: u < |index| && v < |index| && index[u].Some? && index[v].Some? ==>
          (postIdx[v].value < postIdx[u].value <==> index[u].value < index[v].value))
  }

  lemma SortedIsOrdered<N>(nodes: seq<Node<N>>, postIdx: seq<Option<nat>>, index: seq<Option<nat>>, sorted: seq<Node<N>>)
    requires IsPostOrder(Succ(nodes), postIdx, |sorted|)
    requires IsRenaming(nodes, index, sorted) && NumbersReachable(Succ(nodes), index) && index[0] == Some(0)
    requires forall i :: 0 <= i < |index| ==> index[i] == RemapIdx(postIdx, |sorted|, i)
    ensures Consistent(sorted) && InReversePostOrder(Succ(sorted))
  {
    SortedConsistent(nodes, index, sorted);
    IndexReversed(postIdx, index, |sorted|);
    forall b: nat | b < |sorted|
      ensures Reaches(Succ(sorted), 0, b)
    {
      var v := Origin(nodes, index, sorted, b);
      ReachesRenamed(nodes, index, sorted, 0, v);
    }
    forall b: nat | 0 < b < |sorted|
      ensures HasEarlierPred(Succ(sorted), b)
    {
      ParentBefore(nodes, postIdx, index, sorted, b);
    }
    forall a: nat, b: nat | a < |sorted| && b in Succ(sorted)[a] && b <= a
      ensures Reaches(Succ(sorted), b, a)
    {
      BackClosesCycle(nodes, postIdx, index, sorted, a, b);
    }
  }

  lemma IndexReversed(postIdx: seq<Option<nat>>, index: seq<Option<nat>>, count: nat)
    requires Onto(postIdx, count) && |index| == |postIdx|
    requires forall i :: 0 <= i < |index| ==> index[i] == RemapIdx(postIdx, count, i)
    ensures Reversed(postIdx, index)
  {
  }

  lemma ParentBefore<N>(nodes: seq<Node<N>>, postIdx: seq<Option<nat>>, index: seq<Option<nat>>, sorted: seq<Node<N>>, b: nat)
    requires HasParents(Succ(nodes), postIdx) && Reversed(postIdx, index)
    requires IsRenaming(nodes, index, sorted) && nodes != [] && index[0] == Some(0) && 0 < b < |sorted|
    ensures HasEarlierPred(Succ(sorted), b)
  {
    var v := Origin(nodes, index, sorted, b);
    var u: nat :| ComesFrom(Succ(nodes), postIdx, u, v);
    EdgeRenamed(nodes, index, sorted, u, v);
    assert index[u].value < b && b in Succ(sorted)[index[u].value];
  }

  lemma BackClosesCycle<N>(nodes: seq<Node<N>>, postIdx: seq<Option<nat>>, index: seq<Option<nat>>, sorted: seq<Node<N>>, a: nat, b: nat)
    requires EdgesFall(Succ(nodes), postIdx) && Reversed(postIdx, index)
    requires IsRenaming(nodes, index, sorted) && NumbersReachable(Succ(nodes), index)
    requires a < |sorted| && b in sorted[a].succ && b <= a
    ensures Reaches(Succ(sorted), b, a)
  {
    var u := Origin(nodes, index, sorted, a);
    var v := SuccOrigin(nodes, index, sorted, u, b);
    assert v in Succ(nodes)[u];
    ReachesRenamed(nodes, index, sorted, v, u);
  }
}
