/** Depth-first search with an explicit stack (crates/deko-compiler-utils/src/depth_first_search.rs).

    The visitor's callbacks become events of a trace, in the order in which they are made; each
    analysis then consumes the trace.  The theorems are about the times (trace positions) at which a
    node is entered and left. */
module DepthFirstSearch {

  datatype Event = Pre(id: nat) | Edge(parent: nat, child: nat) | Post(id: nat)

  type Graph = seq<seq<nat>>

  ghost predicate WellFormed(g: Graph) {
    forall u, v {:trigger v in g[u]} :: 0 <= u < |g| && v in g[u] ==> v < |g|
  }

  ghost predicate IsPath(g: Graph, path: seq<nat>) {
    && path != []
    && (forall i :: 0 <= i < |path| ==> path[i] < |g|)
    && (forall i :: 0 <= i < |path| - 1 ==> path[i + 1] in g[path[i]])
  }

  ghost predicate Connects(g: Graph, path: seq<nat>, a: nat, b: nat) {
    IsPath(g, path) && path[0] == a && path[|path| - 1] == b
  }

  ghost predicate Reaches(g: Graph, a: nat, b: nat) {
    exists path :: Connects(g, path, a, b)
  }

  lemma ReachesSelf(g: Graph, a: nat)
    requires a < |g|
    ensures Reaches(g, a, a)
  {
    assert Connects(g, [a], a, a);
  }

  lemma ReachesStep(g: Graph, a: nat, b: nat, c: nat)
    requires WellFormed(g) && b < |g| && Reaches(g, a, b) && c in g[b]
    ensures Reaches(g, a, c)
  {
    var path :| Connects(g, path, a, b);
    assert Connects(g, path + [c], a, c);
  }

  // ----- The state of a search -----

  datatype Frame = Frame(id: nat, next: nat)

  /** A search under way.  `pre` and `post` are the times at which nodes were entered and left,
      `tree` the node from which a node was entered. */
  datatype Search = Search(trace: seq<Event>, stack: seq<Frame>, pre: map<nat, nat>, post: map<nat, nat>, tree: map<nat, nat>)

  ghost predicate Times(g: Graph, s: Search) {
    && (forall u :: u in s.pre ==> u < |g| && s.pre[u] < |s.trace| && s.trace[s.pre[u]] == Pre(u))
    && (forall u :: u in s.post ==> u in s.pre && s.pre[u] < s.post[u] < |s.trace| && s.trace[s.post[u]] == Post(u))
    && (forall i :: 0 <= i < |s.trace| && s.trace[i].Pre? ==> s.trace[i].id in s.pre && s.pre[s.trace[i].id] == i)
    && (forall i :: 0 <= i < |s.trace| && s.trace[i].Post? ==> s.trace[i].id in s.post && s.post[s.trace[i].id] == i)
  }

  /** Every edge is visited while its parent is open, and its child is entered no later than that. */
  ghost predicate EdgeTimes(g: Graph, s: Search) {
    forall i :: 0 <= i < |s.trace| && s.trace[i].Edge? ==> EdgeTime(g, s, i, s.trace[i].parent, s.trace[i].child)
  }

  ghost predicate EdgeTime(g: Graph, s: Search, i: nat, u: nat, v: nat) {
    && u in s.pre && v in s.pre && u < |g| && v in g[u]
    && s.pre[u] < i && (u in s.post ==> i < s.post[u])
    && s.pre[v] <= i + 1
    && Innermost(s, u, i)
  }

  /** Whatever is entered after `u` and before time `i` is also left before `i`. */
  ghost predicate Innermost(s: Search, u: nat, i: nat)
    requires u in s.pre
  {
    forall w :: w in s.pre && s.pre[u] < s.pre[w] < i ==> w in s.post && s.post[w] < i
  }

  ghost predicate Visited(s: Search, u: nat, v: nat) {
    exists i :: 0 <= i < |s.trace| && s.trace[i] == Edge(u, v)
  }

  /** Exactly the open nodes are on the stack, in the order of being entered. */
  ghost predicate StackOk(g: Graph, s: Search) {
    && (forall a :: 0 <= a < |s.stack| ==> s.stack[a].id in s.pre && s.stack[a].id !in s.post)
    && (forall a, b :: 0 <= a < b < |s.stack| ==> s.pre[s.stack[a].id] < s.pre[s.stack[b].id])
    && (forall u :: u in s.pre && u !in s.post ==> Open(s.stack, u))
  }

  ghost predicate Open(stack: seq<Frame>, u: nat) {
    exists a :: 0 <= a < |stack| && stack[a].id == u
  }

  /** All edges of a closed node, and the first `next` of an open one, have been visited. */
  ghost predicate EdgesDone(g: Graph, s: Search) {
    && (forall u :: u in s.post ==> u < |g| && VisitedUpTo(g, s, u, |g[u]|))
    && (forall a :: 0 <= a < |s.stack| ==> FrameDone(g, s, s.stack[a]))
  }

  ghost predicate VisitedUpTo(g: Graph, s: Search, u: nat, n: nat)
    requires u < |g|
  {
    n <= |g[u]| && forall k :: 0 <= k < n ==> Visited(s, u, g[u][k])
  }

  ghost predicate FrameDone(g: Graph, s: Search, f: Frame) {
    f.id < |g| && VisitedUpTo(g, s, f.id, f.next)
  }

  /** Visits nest. */
  ghost predicate Nested(s: Search) {
    forall u, v {:trigger s.pre[v], s.post[u]} :: u in s.post && u in s.pre && v in s.pre && s.pre[u] < s.pre[v] < s.post[u]
      ==> v in s.post && s.post[v] < s.post[u]
  }

  /** A node other than the start was entered through an edge from the innermost open node. */
  ghost predicate TreeOk(g: Graph, start: nat, s: Search) {
    && s.tree.Keys == s.pre.Keys - {start} && start in s.pre
    && (forall v {:trigger Parent(s, v)} :: v in s.tree ==> TreeEdge(g, s, Parent(s, v), v))
  }

  ghost function Parent(s: Search, v: nat): nat
    requires v in s.tree
  {
    s.tree[v]
  }

  ghost predicate TreeEdge(g: Graph, s: Search, u: nat, v: nat)
    requires v in s.pre
  {
    && u in s.pre && u < |g| && v in g[u] && s.pre[u] < s.pre[v]
    && (u in s.post ==> s.pre[v] < s.post[u])
    && (forall w :: w in s.pre && s.pre[u] < s.pre[w] < s.pre[v] ==> w in s.post && s.post[w] < s.pre[v])
  }

  ghost predicate Inv(g: Graph, start: nat, s: Search) {
    && Times(g, s) && EdgeTimes(g, s) && StackOk(g, s) && EdgesDone(g, s) && Nested(s) && TreeOk(g, start, s)
  }

  // ----- The steps keep the invariant -----

  function Enter(s: Search, v: nat): Search {
    s.(trace := s.trace + [Pre(v)], stack := s.stack + [Frame(v, 0)], pre := s.pre[v := |s.trace|])
  }

  function Begin(start: nat): Search {
    Enter(Search([], [], map[], map[], map[]), start)
  }

  /** Visits the next edge of the innermost open node, to an already entered child. */
  function Skip(s: Search, v: nat): Search
    requires s.stack != []
  {
    var top := s.stack[|s.stack| - 1];
    s.(trace := s.trace + [Edge(top.id, v)], stack := s.stack[|s.stack| - 1 := top.(next := top.next + 1)])
  }

  /** Visits the next edge of the innermost open node and enters the child. */
  function Descend(s: Search, v: nat): Search
    requires s.stack != []
  {
    var u := s.stack[|s.stack| - 1].id;
    var s1 := Enter(Skip(s, v), v);
    s1.(tree := s1.tree[v := u])
  }

  function Leave(s: Search): Search
    requires s.stack != []
  {
    var u := s.stack[|s.stack| - 1].id;
    s.(trace := s.trace + [Post(u)], stack := s.stack[..|s.stack| - 1], post := s.post[u := |s.trace|])
  }

  lemma BeginOk(g: Graph, start: nat)
    requires start < |g|
    ensures Inv(g, start, Begin(start))
  {
    var s := Begin(start);
    assert s.trace == [Pre(start)] && s.stack == [Frame(start, 0)];
    assert s.pre == map[start := 0] && s.post == map[] && s.tree == map[];
    assert FrameDone(g, s, s.stack[0]);
    assert s.stack[0].id == start;
  }

  lemma VisitedStays(g: Graph, s: Search, s': Search, u: nat, n: nat)
    requires u < |g| && VisitedUpTo(g, s, u, n) && s.trace <= s'.trace
    ensures VisitedUpTo(g, s', u, n)
  {
    forall k | 0 <= k < n
      ensures Visited(s', u, g[u][k])
    {
      var i :| 0 <= i < |s.trace| && s.trace[i] == Edge(u, g[u][k]);
      assert s'.trace[i] == Edge(u, g[u][k]);
    }
  }

  /** `EdgesDone` survives a step that adds one visited edge to the innermost frame, closes it, or
      opens a new one. */
  lemma EdgesDoneStep(g: Graph, s: Search, s': Search)
    requires EdgesDone(g, s) && s.trace <= s'.trace
    requires forall u :: u in s'.post ==>
               u in s.post || exists a :: 0 <= a < |s.stack| && s.stack[a].id == u && s.stack[a].next == |g[u]|
    requires forall a :: 0 <= a < |s'.stack| ==>
               || (a < |s.stack| && s'.stack[a] == s.stack[a])
               || (s'.stack[a].id < |g| && s'.stack[a].next == 0)
               || (a < |s.stack| && s'.stack[a] == s.stack[a].(next := s.stack[a].next + 1) && FrameDone(g, s', s'.stack[a]))
    ensures EdgesDone(g, s')
  {
    forall u | u in s'.post
      ensures u < |g| && VisitedUpTo(g, s', u, |g[u]|)
    {
      if u !in s.post {
        var a :| 0 <= a < |s.stack| && s.stack[a].id == u && s.stack[a].next == |g[u]|;
        assert FrameDone(g, s, s.stack[a]);
      }
      VisitedStays(g, s, s', u, |g[u]|);
    }
    forall a | 0 <= a < |s'.stack|
      ensures FrameDone(g, s', s'.stack[a])
    {
      if a < |s.stack| && s'.stack[a] == s.stack[a] {
        assert FrameDone(g, s, s.stack[a]);
        VisitedStays(g, s, s', s.stack[a].id, s.stack[a].next);
      }
    }
  }

  lemma EdgeVisited(g: Graph, s: Search, s': Search, f: Frame)
    requires FrameDone(g, s, f) && f.next < |g[f.id]| && s.trace + [Edge(f.id, g[f.id][f.next])] <= s'.trace
    ensures FrameDone(g, s', f.(next := f.next + 1))
  {
    VisitedStays(g, s, s', f.id, f.next);
    assert s'.trace[|s.trace|] == Edge(f.id, g[f.id][f.next]);
  }

  lemma SkipOk(g: Graph, start: nat, s: Search, v: nat)
    requires WellFormed(g) && Inv(g, start, s) && s.stack != [] && v in s.pre
    requires var top := s.stack[|s.stack| - 1]; top.id < |g| && top.next < |g[top.id]| && g[top.id][top.next] == v
    ensures Inv(g, start, Skip(s, v))
  {
    SkipEdges(g, s, v);
    TopInnermost(g, s);
    SkipTimes(g, s, v);
    SkipStack(g, s, v);
    SkipTree(g, start, s, v);
  }

  lemma TopInnermost(g: Graph, s: Search)
    requires Times(g, s) && StackOk(g, s) && s.stack != []
    ensures s.stack[|s.stack| - 1].id in s.pre && Innermost(s, s.stack[|s.stack| - 1].id, |s.trace|)
  {
    var top := s.stack[|s.stack| - 1].id;
    forall w | w in s.pre && s.pre[top] < s.pre[w]
      ensures w in s.post && s.post[w] < |s.trace|
    {
      TopIsInnermost(g, s, w);
    }
  }

  lemma SkipEdges(g: Graph, s: Search, v: nat)
    requires EdgesDone(g, s) && s.stack != []
    requires var top := s.stack[|s.stack| - 1]; top.id < |g| && top.next < |g[top.id]| && g[top.id][top.next] == v
    ensures EdgesDone(g, Skip(s, v))
  {
    EdgeVisited(g, s, Skip(s, v), s.stack[|s.stack| - 1]);
    EdgesDoneStep(g, s, Skip(s, v));
  }

  lemma SkipTree(g: Graph, start: nat, s: Search, v: nat)
    requires TreeOk(g, start, s) && Nested(s) && s.stack != []
    ensures TreeOk(g, start, Skip(s, v)) && Nested(Skip(s, v))
  {
    forall w | w in s.tree
      ensures TreeEdge(g, Skip(s, v), Parent(s, w), w)
    {
    }
    assert forall w :: w in s.tree ==> Parent(Skip(s, v), w) == Parent(s, w);
  }

  /** The times of the past do not change. */
  ghost predicate Extends(s: Search, s': Search) {
    && s.trace <= s'.trace
    && (forall w :: w in s.pre ==> w in s'.pre && s'.pre[w] == s.pre[w])
    && (forall w :: w in s'.pre && w !in s.pre ==> s'.pre[w] >= |s.trace|)
    && (forall w :: w in s.post ==> w in s'.post && s'.post[w] == s.post[w])
    && (forall w :: w in s'.post && w !in s.post ==> s'.post[w] >= |s.trace|)
  }

  lemma EdgeTimeStays(g: Graph, s: Search, s': Search, i: nat)
    requires EdgeTimes(g, s) && Extends(s, s') && i < |s.trace| && s.trace[i].Edge?
    ensures s'.trace[i] == s.trace[i] && EdgeTime(g, s', i, s'.trace[i].parent, s'.trace[i].child)
  {
    assert s'.trace[i] == s.trace[i];
    assert EdgeTime(g, s, i, s.trace[i].parent, s.trace[i].child);
  }

  lemma SkipTimes(g: Graph, s: Search, v: nat)
    requires Times(g, s) && EdgeTimes(g, s) && s.stack != [] && v in s.pre
    requires var top := s.stack[|s.stack| - 1].id; top < |g| && v in g[top] && top in s.pre && top !in s.post && Innermost(s, top, |s.trace|)
    ensures Times(g, Skip(s, v)) && EdgeTimes(g, Skip(s, v))
  {
    var s' := Skip(s, v);
    assert forall i :: 0 <= i < |s.trace| ==> s'.trace[i] == s.trace[i];
    assert Times(g, s');
    forall i | 0 <= i < |s'.trace| && s'.trace[i].Edge?
      ensures EdgeTime(g, s', i, s'.trace[i].parent, s'.trace[i].child)
    {
      if i < |s.trace| {
        EdgeTimeStays(g, s, s', i);
      }
    }
  }

  lemma SkipStack(g: Graph, s: Search, v: nat)
    requires StackOk(g, s) && s.stack != []
    ensures StackOk(g, Skip(s, v))
  {
    var s' := Skip(s, v);
    assert forall a :: 0 <= a < |s.stack| ==> s'.stack[a].id == s.stack[a].id;
  }

  lemma DescendOk(g: Graph, start: nat, s: Search, v: nat)
    requires WellFormed(g) && Inv(g, start, s) && s.stack != [] && v !in s.pre && v < |g|
    requires var top := s.stack[|s.stack| - 1]; top.id < |g| && top.next < |g[top.id]| && g[top.id][top.next] == v
    ensures Inv(g, start, Descend(s, v))
  {
    DescendEdges(g, s, v);
    TopInnermost(g, s);
    DescendTimes(g, s, v);
    DescendStack(g, s, v);
    DescendTree(g, start, s, v);
    DescendNested(g, s, v);
  }

  lemma DescendEdges(g: Graph, s: Search, v: nat)
    requires EdgesDone(g, s) && s.stack != [] && v < |g|
    requires var top := s.stack[|s.stack| - 1]; top.id < |g| && top.next < |g[top.id]| && g[top.id][top.next] == v
    ensures EdgesDone(g, Descend(s, v))
  {
    var top, s' := s.stack[|s.stack| - 1], Descend(s, v);
    assert s'.trace == (s.trace + [Edge(top.id, v)]) + [Pre(v)];
    EdgeVisited(g, s, s', top);
    assert s'.stack == s.stack[|s.stack| - 1 := top.(next := top.next + 1)] + [Frame(v, 0)];
    EdgesDoneStep(g, s, s');
  }

  lemma DescendTimes(g: Graph, s: Search, v: nat)
    requires Times(g, s) && EdgeTimes(g, s) && s.stack != [] && v !in s.pre && v < |g|
    requires var top := s.stack[|s.stack| - 1].id; top < |g| && v in g[top] && top in s.pre && top !in s.post && Innermost(s, top, |s.trace|)
    ensures Times(g, Descend(s, v)) && EdgeTimes(g, Descend(s, v))
  {
    var top, s' := s.stack[|s.stack| - 1].id, Descend(s, v);
    assert s'.trace == s.trace + [Edge(top, v), Pre(v)];
    EnterTimes(g, s, s', v);
    assert Innermost(s', top, |s.trace|) by { InnermostStays(s, s', top); }
    forall i | 0 <= i < |s'.trace| && s'.trace[i].Edge?
      ensures EdgeTime(g, s', i, s'.trace[i].parent, s'.trace[i].child)
    {
      if i < |s.trace| {
        EdgeTimeStays(g, s, s', i);
      }
    }
  }

  lemma InnermostStays(s: Search, s': Search, u: nat)
    requires u in s.pre && Innermost(s, u, |s.trace|) && Extends(s, s')
    ensures Innermost(s', u, |s.trace|)
  {
  }

  lemma EnterTimes(g: Graph, s: Search, s': Search, v: nat)
    requires Times(g, s) && v !in s.pre && v < |g|
    requires |s'.trace| == |s.trace| + 2 && s.trace <= s'.trace && s'.trace[|s.trace|].Edge?
    requires s'.trace[|s.trace| + 1] == Pre(v) && s'.pre == s.pre[v := |s.trace| + 1] && s'.post == s.post
    ensures Times(g, s')
  {
    assert forall i :: 0 <= i < |s.trace| ==> s'.trace[i] == s.trace[i];
    forall i | 0 <= i < |s'.trace| && s'.trace[i].Pre?
      ensures s'.trace[i].id in s'.pre && s'.pre[s'.trace[i].id] == i
    {
      if i < |s.trace| {
        assert s.trace[i].Pre?;
      }
    }
  }

  lemma DescendStack(g: Graph, s: Search, v: nat)
    requires StackOk(g, s) && Times(g, s) && s.stack != [] && v !in s.pre
    ensures StackOk(g, Descend(s, v))
  {
    var s' := Descend(s, v);
    assert forall a :: 0 <= a < |s'.stack| ==> s'.stack[a].id == if a < |s.stack| then s.stack[a].id else v;
    PushStack(g, s, s', v);
  }

  lemma PushStack(g: Graph, s: Search, s': Search, v: nat)
    requires StackOk(g, s) && v !in s.pre && v !in s.post
    requires |s'.stack| == |s.stack| + 1
    requires forall a :: 0 <= a < |s'.stack| ==> s'.stack[a].id == if a < |s.stack| then s.stack[a].id else v
    requires s'.post == s.post && s'.pre == s.pre[v := |s.trace| + 1] && forall u :: u in s.pre ==> s.pre[u] < |s.trace|
    ensures StackOk(g, s')
  {
    PushedOrder(g, s, s', v);
    forall u | u in s'.pre && u !in s'.post
      ensures Open(s'.stack, u)
    {
      if u != v {
        var a :| 0 <= a < |s.stack| && s.stack[a].id == u;
        assert s'.stack[a].id == u;
      } else {
        assert s'.stack[|s.stack|].id == v;
      }
    }
  }

  lemma PushedOrder(g: Graph, s: Search, s': Search, v: nat)
    requires StackOk(g, s) && v !in s.pre && v !in s.post
    requires |s'.stack| == |s.stack| + 1
    requires forall a :: 0 <= a < |s'.stack| ==> s'.stack[a].id == if a < |s.stack| then s.stack[a].id else v
    requires s'.post == s.post && s'.pre == s.pre[v := |s.trace| + 1] && forall u :: u in s.pre ==> s.pre[u] < |s.trace|
    ensures forall a :: 0 <= a < |s'.stack| ==> s'.stack[a].id in s'.pre && s'.stack[a].id !in s'.post
    ensures forall a, b :: 0 <= a < b < |s'.stack| ==> s'.pre[s'.stack[a].id] < s'.pre[s'.stack[b].id]
  {
  }

  /** Whatever was entered after the innermost open node is closed again. */
  lemma TopIsInnermost(g: Graph, s: Search, w: nat)
    requires StackOk(g, s) && s.stack != [] && w in s.pre && s.pre[s.stack[|s.stack| - 1].id] < s.pre[w]
    ensures w in s.post
  {
  }

  lemma DescendTree(g: Graph, start: nat, s: Search, v: nat)
    requires Times(g, s) && StackOk(g, s) && TreeOk(g, start, s) && s.stack != [] && v !in s.pre
    requires var top := s.stack[|s.stack| - 1].id; top < |g| && v in g[top]
    ensures TreeOk(g, start, Descend(s, v))
  {
    var top := s.stack[|s.stack| - 1].id;
    forall x | x in s.pre && s.pre[top] < s.pre[x]
      ensures x in s.post
    {
      TopIsInnermost(g, s, x);
    }
    TreeAfterEntering(g, start, s, Descend(s, v), top, v);
  }

  lemma TreeAfterEntering(g: Graph, start: nat, s: Search, s': Search, u: nat, v: nat)
    requires Times(g, s) && TreeOk(g, start, s) && v !in s.pre
    requires s'.pre == s.pre[v := |s.trace| + 1] && s'.post == s.post && s'.tree == s.tree[v := u]
    requires u < |g| && v in g[u] && u in s.pre && u !in s.post
    requires forall x :: x in s.pre && s.pre[u] < s.pre[x] ==> x in s.post
    ensures TreeOk(g, start, s')
  {
    OldTreeEdges(g, start, s, s', v);
    assert TreeEdge(g, s', u, v);
    TreeGrows(g, start, s, s', u, v);
  }

  lemma DescendNested(g: Graph, s: Search, v: nat)
    requires Times(g, s) && Nested(s) && s.stack != [] && v !in s.pre
    ensures Nested(Descend(s, v))
  {
    NestedStays(g, s, Descend(s, v), v);
  }

  lemma NestedStays(g: Graph, s: Search, s': Search, v: nat)
    requires (forall u :: u in s.post ==> u in s.pre && s.post[u] < |s.trace|) && Nested(s) && v !in s.pre
    requires s'.pre == s.pre[v := |s.trace| + 1] && s'.post == s.post
    ensures Nested(s')
  {
    forall u, w | u in s.post && w in s'.pre && s'.pre[u] < s'.pre[w] < s'.post[u]
      ensures w in s.post && s.post[w] < s.post[u]
    {
      assert u in s.pre && w != v;
    }
  }

  lemma TreeGrows(g: Graph, start: nat, s: Search, s': Search, u: nat, v: nat)
    requires s.tree.Keys == s.pre.Keys - {start} && start in s.pre && v !in s.pre
    requires forall w {:trigger Parent(s, w)} :: w in s.tree ==> w in s'.pre && TreeEdge(g, s', Parent(s, w), w)
    requires s'.pre.Keys == s.pre.Keys + {v} && s'.tree == s.tree[v := u]
    requires v in s'.pre && TreeEdge(g, s', u, v)
    ensures TreeOk(g, start, s')
  {
    forall w | w in s'.tree
      ensures TreeEdge(g, s', Parent(s', w), w)
    {
      assert w != v ==> Parent(s', w) == Parent(s, w);
    }
  }

  lemma OldTreeEdges(g: Graph, start: nat, s: Search, s': Search, v: nat)
    requires Times(g, s) && TreeOk(g, start, s) && v !in s.pre
    requires s'.pre == s.pre[v := |s.trace| + 1] && s'.post == s.post
    ensures forall w {:trigger Parent(s, w)} :: w in s.tree ==> w in s'.pre && TreeEdge(g, s', Parent(s, w), w)
  {
    forall w | w in s.tree
      ensures w in s'.pre && TreeEdge(g, s', Parent(s, w), w)
    {
      OldTreeEdge(g, s, s', Parent(s, w), w, v);
    }
  }

  lemma OldTreeEdge(g: Graph, s: Search, s': Search, u: nat, w: nat, v: nat)
    requires Times(g, s) && w in s.pre && TreeEdge(g, s, u, w)
    requires v !in s.pre && s'.pre == s.pre[v := |s.trace| + 1] && s'.post == s.post
    ensures TreeEdge(g, s', u, w)
  {
  }

  lemma LeaveOk(g: Graph, start: nat, s: Search)
    requires WellFormed(g) && Inv(g, start, s) && s.stack != []
    requires var top := s.stack[|s.stack| - 1]; top.id < |g| && top.next == |g[top.id]|
    ensures Inv(g, start, Leave(s))
  {
    LeaveEdges(g, s);
    LeaveTimes(g, s);
    LeaveStack(g, s);
    LeaveNested(g, s);
    LeaveTree(g, start, s);
  }

  lemma LeaveEdges(g: Graph, s: Search)
    requires EdgesDone(g, s) && s.stack != []
    requires var top := s.stack[|s.stack| - 1]; top.id < |g| && top.next == |g[top.id]|
    ensures EdgesDone(g, Leave(s))
  {
    EdgesDoneStep(g, s, Leave(s));
  }

  lemma LeaveTimes(g: Graph, s: Search)
    requires Times(g, s) && EdgeTimes(g, s) && s.stack != []
    requires var top := s.stack[|s.stack| - 1].id; top in s.pre && top !in s.post
    ensures Times(g, Leave(s)) && EdgeTimes(g, Leave(s))
  {
    LeaveEdgeTimes(g, s);
    var s' := Leave(s);
    assert forall i :: 0 <= i < |s.trace| ==> s'.trace[i] == s.trace[i];
  }

  lemma LeaveEdgeTimes(g: Graph, s: Search)
    requires EdgeTimes(g, s) && s.stack != [] && s.stack[|s.stack| - 1].id !in s.post
    ensures EdgeTimes(g, Leave(s))
  {
    var s' := Leave(s);
    forall i | 0 <= i < |s'.trace| && s'.trace[i].Edge?
      ensures EdgeTime(g, s', i, s'.trace[i].parent, s'.trace[i].child)
    {
      assert s'.trace[i] == s.trace[i];
      EdgeTimeStays(g, s, s', i);
    }
  }

  lemma LeaveStack(g: Graph, s: Search)
    requires StackOk(g, s) && s.stack != []
    ensures StackOk(g, Leave(s))
  {
    var s' := Leave(s);
    assert forall a :: 0 <= a < |s'.stack| ==> s'.stack[a] == s.stack[a];
    forall u | u in s'.pre && u !in s'.post
      ensures Open(s'.stack, u)
    {
      var a :| 0 <= a < |s.stack| && s.stack[a].id == u;
      assert s'.stack[a].id == u;
    }
  }

  lemma LeaveNested(g: Graph, s: Search)
    requires Times(g, s) && StackOk(g, s) && Nested(s) && s.stack != []
    ensures Nested(Leave(s))
  {
    var top := s.stack[|s.stack| - 1].id;
    forall w | w in s.pre && s.pre[top] < s.pre[w]
      ensures w in s.post && s.post[w] < |s.trace|
    {
      TopIsInnermost(g, s, w);
    }
    NestedAfterClose(s, Leave(s), top);
  }

  lemma NestedAfterClose(s: Search, s': Search, top: nat)
    requires Nested(s) && top in s.pre && top !in s.post
    requires forall w :: w in s.pre && s.pre[top] < s.pre[w] ==> w in s.post && s.post[w] < |s.trace|
    requires s'.pre == s.pre && s'.post == s.post[top := |s.trace|]
    requires forall u :: u in s.post ==> s.post[u] < |s.trace|
    ensures Nested(s')
  {
    forall u, v | u in s'.post && u in s'.pre && v in s'.pre && s'.pre[u] < s'.pre[v] < s'.post[u]
      ensures v in s'.post && s'.post[v] < s'.post[u]
    {
      if u != top {
        assert u in s.post && s.pre[u] < s.pre[v] < s.post[u];
        assert v in s.post && v != top;
      }
    }
  }

  lemma LeaveTree(g: Graph, start: nat, s: Search)
    requires Times(g, s) && StackOk(g, s) && TreeOk(g, start, s) && s.stack != []
    ensures TreeOk(g, start, Leave(s))
  {
    var top, s' := s.stack[|s.stack| - 1].id, Leave(s);
    forall w | w in s.tree
      ensures Parent(s', w) == Parent(s, w) && TreeEdge(g, s', Parent(s, w), w)
    {
      ClosedTreeEdge(g, s, s', Parent(s, w), w, top);
    }
  }

  lemma ClosedTreeEdge(g: Graph, s: Search, s': Search, u: nat, w: nat, top: nat)
    requires Times(g, s) && w in s.pre && TreeEdge(g, s, u, w)
    requires top !in s.post && s'.pre == s.pre && s'.post == s.post[top := |s.trace|]
    ensures TreeEdge(g, s', u, w)
  {
  }

  // ----- The search -----

  /** Edges of open nodes that have not been visited, and the open nodes themselves. */
  ghost function Remaining(g: Graph, stack: seq<Frame>): nat {
    if stack == [] then 0 else
      var top := stack[|stack| - 1];
      Remaining(g, stack[..|stack| - 1]) + 1
        + if top.id < |g| && top.next <= |g[top.id]| then |g[top.id]| - top.next else 0
  }

  ghost function Nodes(n: nat): (r: set<nat>)
    ensures |r| == n && forall u: nat :: u in r <==> u < n
  {
    if n == 0 then {} else
      var rest := Nodes(n - 1);
      assert n - 1 !in rest;
      rest + {n - 1}
  }

  lemma {:induction false} SubsetSize<T>(a: set<T>, b: set<T>)
    requires a <= b
    ensures |a| <= |b|
    ensures |a| == |b| ==> a == b
  {
    if a != {} {
      var x :| x in a;
      SubsetSize(a - {x}, b - {x});
    }
  }

  /** One iteration: visits the next edge of the innermost open node, or closes it. */
  ghost function Next(g: Graph, s: Search): Search
    requires s.stack != []
  {
    var top := s.stack[|s.stack| - 1];
    if top.id < |g| && top.next < |g[top.id]| then
      var v := g[top.id][top.next];
      if v in s.pre then Skip(s, v) else Descend(s, v)
    else Leave(s)
  }

  ghost predicate Progress(g: Graph, s: Search, s': Search) {
    || |g| - |s'.pre.Keys| < |g| - |s.pre.Keys|
    || (s'.pre == s.pre && Remaining(g, s'.stack) < Remaining(g, s.stack))
  }

  lemma FrameBound(g: Graph, s: Search)
    requires EdgesDone(g, s) && s.stack != []
    ensures var top := s.stack[|s.stack| - 1]; top.id < |g| && top.next <= |g[top.id]|
  {
    assert FrameDone(g, s, s.stack[|s.stack| - 1]);
  }

  lemma NextOk(g: Graph, start: nat, s: Search)
    requires WellFormed(g) && Inv(g, start, s) && s.stack != []
    ensures Inv(g, start, Next(g, s))
    ensures s.stack[|s.stack| - 1].id < |g|
  {
    FrameBound(g, s);
    NextKeepsInv(g, start, s, s.stack[|s.stack| - 1]);
  }

  lemma NextKeepsInv(g: Graph, start: nat, s: Search, top: Frame)
    requires WellFormed(g) && Inv(g, start, s) && s.stack != [] && top == s.stack[|s.stack| - 1]
    requires top.id < |g| && top.next <= |g[top.id]|
    ensures Inv(g, start, Next(g, s))
  {
    if top.next == |g[top.id]| {
      assert Next(g, s) == Leave(s);
      LeaveOk(g, start, s);
    } else {
      var v := g[top.id][top.next];
      assert v in g[top.id];
      if v in s.pre {
        assert Next(g, s) == Skip(s, v);
        SkipOk(g, start, s, v);
      } else {
        assert Next(g, s) == Descend(s, v);
        DescendOk(g, start, s, v);
      }
    }
  }

  lemma RemainingAfterVisit(g: Graph, stack: seq<Frame>)
    requires stack != []
    requires var top := stack[|stack| - 1]; top.id < |g| && top.next < |g[top.id]|
    ensures var top := stack[|stack| - 1];
            Remaining(g, stack[|stack| - 1 := top.(next := top.next + 1)]) < Remaining(g, stack)
  {
    var top := stack[|stack| - 1];
    assert stack[|stack| - 1 := top.(next := top.next + 1)][..|stack| - 1] == stack[..|stack| - 1];
  }

  lemma OneMoreKey(pre: map<nat, nat>, v: nat, t: nat)
    requires v !in pre
    ensures |pre[v := t].Keys| == |pre.Keys| + 1
  {
    assert pre[v := t].Keys == pre.Keys + {v};
  }

  lemma NextProgresses(g: Graph, s: Search)
    requires s.stack != [] && |s.pre.Keys| <= |g| && |Next(g, s).pre.Keys| <= |g|
    requires var top := s.stack[|s.stack| - 1]; top.id < |g| && top.next <= |g[top.id]|
    ensures Progress(g, s, Next(g, s))
  {
    var top := s.stack[|s.stack| - 1];
    if top.next == |g[top.id]| {
      assert Next(g, s) == Leave(s);
    } else {
      var v := g[top.id][top.next];
      if v in s.pre {
        assert Next(g, s) == Skip(s, v);
        RemainingAfterVisit(g, s.stack);
      } else {
        assert Next(g, s) == Descend(s, v);
        OneMoreKey(s.pre, v, |s.trace| + 1);
      }
    }
  }

  lemma SeenIsBounded(g: Graph, s: Search)
    requires Times(g, s)
    ensures |s.pre.Keys| <= |g|
  {
    SubsetSize(s.pre.Keys, Nodes(|g|));
  }

  /** Searches `g` from `start` and reports the events in order.  The ghost result holds the times. */
  method Dfs(g: Graph, start: nat) returns (trace: seq<Event>, ghost s: Search)
    requires WellFormed(g) && start < |g|
    ensures Inv(g, start, s) && s.stack == [] && s.trace == trace
  {
    var seen := {start};
    var stack := [Frame(start, 0)];
    trace := [Pre(start)];
    s := Begin(start);
    BeginOk(g, start);
    while stack != []
      invariant Inv(g, start, s)
      invariant s.trace == trace && s.stack == stack && s.pre.Keys == seen
      decreases |g| - |seen|, Remaining(g, stack)
    {
      NextOk(g, start, s);
      SeenIsBounded(g, s);
      SeenIsBounded(g, Next(g, s));
      FrameBound(g, s);
      NextProgresses(g, s);
      s := Next(g, s);
      trace, stack, seen := Iterate(g, trace, stack, seen);
    }
  }

  /** The body of the search loop. */
  method Iterate(g: Graph, trace: seq<Event>, stack: seq<Frame>, seen: set<nat>)
    returns (trace': seq<Event>, stack': seq<Frame>, seen': set<nat>)
    requires stack != [] && stack[|stack| - 1].id < |g|
    ensures forall s: Search :: s.trace == trace && s.stack == stack && s.pre.Keys == seen ==>
              Next(g, s).trace == trace' && Next(g, s).stack == stack' && Next(g, s).pre.Keys == seen'
  {
    var top := stack[|stack| - 1];
    seen' := seen;
    if top.next < |g[top.id]| {
      var v := g[top.id][top.next];
      trace' := trace + [Edge(top.id, v)];
      stack' := stack[|stack| - 1 := top.(next := top.next + 1)];
      if v !in seen {
        seen' := seen + {v};
        trace' := trace' + [Pre(v)];
        stack' := stack' + [Frame(v, 0)];
      }
    } else {
      trace' := trace + [Post(top.id)];
      stack' := stack[..|stack| - 1];
    }
  }

  // ----- What a finished search tells -----

  ghost predicate Done(g: Graph, start: nat, s: Search) {
    WellFormed(g) && start < |g| && Inv(g, start, s) && s.stack == []
  }

  /** `a` was open for as long as `b` was. */
  ghost predicate Encloses(s: Search, a: nat, b: nat)
    requires a in s.pre && a in s.post && b in s.pre && b in s.post
  {
    s.pre[a] <= s.pre[b] && s.post[b] <= s.post[a]
  }

  lemma AllClosed(g: Graph, start: nat, s: Search)
    requires Done(g, start, s)
    ensures s.post.Keys == s.pre.Keys
    ensures forall u :: u in s.pre ==> u in s.post && u < |g|
  {
  }

  /** The target of a visited edge has been entered before its source is left. */
  lemma EdgeSeen(g: Graph, start: nat, s: Search, u: nat, v: nat)
    requires Done(g, start, s) && u in s.pre && u < |g| && v in g[u]
    ensures u in s.post && v in s.pre && v in s.post && s.pre[v] < s.post[u]
  {
    AllClosed(g, start, s);
    assert VisitedUpTo(g, s, u, |g[u]|);
    var k :| 0 <= k < |g[u]| && g[u][k] == v;
    assert Visited(s, u, g[u][k]);
    var i :| 0 <= i < |s.trace| && s.trace[i] == Edge(u, v);
    assert EdgeTime(g, s, i, u, v);
    assert s.pre[v] != s.post[u] by {
      assert s.trace[s.pre[v]] == Pre(v) && s.trace[s.post[u]] == Post(u);
    }
  }

  /** Along an edge the leaving times fall, except for an edge back to a node that is still open. */
  lemma EdgeFallsOrGoesBack(g: Graph, start: nat, s: Search, u: nat, v: nat)
    requires Done(g, start, s) && u in s.pre && u < |g| && v in g[u]
    ensures u in s.post && v in s.pre && v in s.post
    ensures s.post[v] < s.post[u] || Encloses(s, v, u)
  {
    EdgeSeen(g, start, s, u, v);
    DistinctTimes(g, start, s, u, v);
    if s.pre[u] < s.pre[v] {
      assert s.post[v] < s.post[u];
    }
  }

  lemma DistinctTimes(g: Graph, start: nat, s: Search, u: nat, v: nat)
    requires Done(g, start, s) && u in s.pre && v in s.pre
    ensures u in s.post && v in s.post && s.pre[u] < s.post[u]
    ensures u != v ==> s.pre[u] != s.pre[v] && s.post[u] != s.post[v]
    ensures s.pre[u] != s.post[v]
  {
    AllClosed(g, start, s);
    assert s.trace[s.pre[u]] == Pre(u) && s.trace[s.pre[v]] == Pre(v);
    assert s.trace[s.post[u]] == Post(u) && s.trace[s.post[v]] == Post(v);
  }

  /** A node that encloses another reaches it. */
  lemma {:induction false} EnclosingReaches(g: Graph, start: nat, s: Search, a: nat, b: nat)
    requires Done(g, start, s) && a in s.pre && b in s.pre && a in s.post && b in s.post
    requires Encloses(s, a, b)
    ensures Reaches(g, a, b)
    decreases s.pre[b]
  {
    AllClosed(g, start, s);
    if a == b {
      ReachesSelf(g, a);
    } else {
      DistinctTimes(g, start, s, a, b);
      ParentIsEnclosed(g, start, s, a, b);
      var u := Parent(s, b);
      EnclosingReaches(g, start, s, a, u);
      ReachesStep(g, a, u, b);
    }
  }

  lemma TreeEdgeTo(g: Graph, start: nat, s: Search, b: nat)
    requires TreeOk(g, start, s) && b in s.pre && b != start
    ensures b in s.tree && TreeEdge(g, s, Parent(s, b), b)
  {
  }

  lemma ParentIsEnclosed(g: Graph, start: nat, s: Search, a: nat, b: nat)
    requires Done(g, start, s) && a in s.pre && b in s.pre && a in s.post && b in s.post
    requires s.pre[a] < s.pre[b] && s.post[b] < s.post[a]
    ensures b in s.tree
    ensures var u := Parent(s, b);
            && u in s.pre && u in s.post && u < |g| && b in g[u] && s.pre[u] < s.pre[b] && Encloses(s, a, u)
  {
    StartIsFirst(g, start, s, a);
    TreeEdgeTo(g, start, s, b);
    var u := Parent(s, b);
    DistinctTimes(g, start, s, a, u);
    DistinctTimes(g, start, s, b, a);
    EnclosedParent(g, s, a, b, u);
  }

  lemma EnclosedParent(g: Graph, s: Search, a: nat, b: nat, u: nat)
    requires Nested(s) && a in s.pre && b in s.pre && a in s.post && u in s.pre && u in s.post
    requires s.pre[a] < s.pre[b] < s.post[a] && TreeEdge(g, s, u, b)
    requires a == u || s.pre[a] != s.pre[u]
    ensures Encloses(s, a, u)
  {
    // Otherwise `a` would have been closed before `b` was entered.
    assert s.pre[a] <= s.pre[u];
  }

  lemma {:induction false} StartIsFirst(g: Graph, start: nat, s: Search, u: nat)
    requires Done(g, start, s) && u in s.pre
    ensures s.pre[start] <= s.pre[u]
    decreases s.pre[u]
  {
    if u != start {
      TreeEdgeTo(g, start, s, u);
      var w := Parent(s, u);
      StartIsFirst(g, start, s, w);
    }
  }

  /** The start stays open until everything else has been closed. */
  lemma {:induction false} StartEncloses(g: Graph, start: nat, s: Search, u: nat)
    requires Done(g, start, s) && u in s.pre
    ensures u in s.post && start in s.pre && start in s.post && Encloses(s, start, u)
    decreases s.pre[u]
  {
    AllClosed(g, start, s);
    if u != start {
      TreeEdgeTo(g, start, s, u);
      var w := Parent(s, u);
      StartEncloses(g, start, s, w);
      TreeEdgeEncloses(g, s, w, u);
    }
  }

  lemma TreeEdgeEncloses(g: Graph, s: Search, u: nat, v: nat)
    requires Nested(s) && v in s.pre && v in s.post && TreeEdge(g, s, u, v) && u in s.post
    ensures Encloses(s, u, v) && s.post[v] < s.post[u]
  {
  }

  lemma {:induction false} EnteredIsReachable(g: Graph, start: nat, s: Search, u: nat)
    requires Done(g, start, s) && u in s.pre
    ensures Reaches(g, start, u)
    decreases s.pre[u]
  {
    if u == start {
      ReachesSelf(g, start);
    } else {
      TreeEdgeTo(g, start, s, u);
      var w := Parent(s, u);
      EnteredIsReachable(g, start, s, w);
      ReachesStep(g, start, w, u);
    }
  }

  ghost predicate Closed(g: Graph, nodes: set<nat>) {
    forall u, v {:trigger u in nodes, v in g[u]} :: u in nodes && u < |g| && v in g[u] ==> v in nodes
  }

  lemma {:induction false} PathStaysInside(g: Graph, nodes: set<nat>, path: seq<nat>, n: nat)
    requires Closed(g, nodes) && IsPath(g, path) && path[0] in nodes && n < |path|
    ensures path[n] in nodes
  {
    if n > 0 {
      PathStaysInside(g, nodes, path, n - 1);
      assert path[n - 1 + 1] in g[path[n - 1]];
    }
  }

  lemma EnteredIsClosed(g: Graph, start: nat, s: Search)
    requires Done(g, start, s)
    ensures Closed(g, s.pre.Keys)
  {
    forall u, v | u in s.pre && u < |g| && v in g[u]
      ensures v in s.pre
    {
      EdgeSeen(g, start, s, u, v);
    }
  }

  /** Exactly the reachable nodes are entered. */
  lemma EnteredIffReachable(g: Graph, start: nat, s: Search, u: nat)
    requires Done(g, start, s)
    ensures u in s.pre <==> Reaches(g, start, u)
  {
    if u in s.pre {
      EnteredIsReachable(g, start, s, u);
    }
    if Reaches(g, start, u) {
      var path :| Connects(g, path, start, u);
      EnteredIsClosed(g, start, s);
      PathStaysInside(g, s.pre.Keys, path, |path| - 1);
    }
  }
}
