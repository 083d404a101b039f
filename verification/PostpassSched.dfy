/** List scheduling of a block from its end (crates/deko-nak/src/opt_instr_sched_postpass.rs,
    crates/deko-nak/src/opt_instr_sched_common.rs). */
module PostpassSched {
  import opened Machine
  import opened ReorderedRuns
  import opened PostpassGraph

  // ----- Graphs -----

  /** How many edges point to `h`. */
  ghost function CountHead(edges: seq<Edge>, h: nat): nat {
    if edges == [] then 0 else CountHead(edges[..|edges| - 1], h) + if edges[|edges| - 1].head == h then 1 else 0
  }

  ghost predicate InGraph(g: seq<seq<Edge>>) {
    forall i, k {:trigger g[i][k]} :: 0 <= i < |g| && 0 <= k < |g[i]| ==> i < g[i][k].head < |g|
  }

  lemma CountAppend(edges: seq<Edge>, e: Edge, h: nat)
    ensures CountHead(edges + [e], h) == CountHead(edges, h) + if e.head == h then 1 else 0
  {
    assert (edges + [e])[..|edges|] == edges;
  }

  /** `r` holds the edges of `g` the other way round. */
  ghost predicate IsReverse(g: seq<seq<Edge>>, r: seq<seq<Edge>>) {
    && |r| == |g|
    && (forall i: nat, j: nat {:trigger CountHead(r[j], i)} :: i < |g| && j < |g| ==> CountHead(r[j], i) == CountHead(g[i], j))
    && (forall i, k {:trigger g[i][k]} :: 0 <= i < |g| && 0 <= k < |g[i]| && g[i][k].head < |r| ==> Edge(i, g[i][k].latency) in r[g[i][k].head])
    && (forall j, k {:trigger r[j][k]} :: 0 <= j < |r| && 0 <= k < |r[j]| ==> r[j][k].head < |g|)
  }

  /** The edges of the first `n` nodes, and the first `m` edges of node `n`, have been turned round. */
  ghost predicate PartlyReversed(g: seq<seq<Edge>>, r: seq<seq<Edge>>, n: nat, m: nat)
    requires n <= |g| && (n < |g| ==> m <= |g[n]|)
  {
    |r| == |g| && CountsReversed(g, r, n, m) && EdgesReversed(g, r, n, m)
  }

  ghost predicate CountsReversed(g: seq<seq<Edge>>, r: seq<seq<Edge>>, n: nat, m: nat)
    requires n <= |g| == |r| && (n < |g| ==> m <= |g[n]|)
  {
    forall i: nat, j: nat {:trigger CountHead(r[j], i)} :: i < |g| && j < |g| ==> CountHead(r[j], i) == Turned(g, n, m, i, j)
  }

  ghost function Turned(g: seq<seq<Edge>>, n: nat, m: nat, i: nat, j: nat): nat
    requires n <= |g| && (n < |g| ==> m <= |g[n]|) && i < |g|
  {
    if i < n then CountHead(g[i], j) else if i == n then CountHead(g[i][..m], j) else 0
  }

  ghost predicate EdgesReversed(g: seq<seq<Edge>>, r: seq<seq<Edge>>, n: nat, m: nat)
    requires n <= |g| == |r|
  {
    && (forall i, k {:trigger g[i][k]} :: 0 <= i < |g| && 0 <= k < |g[i]| && (i < n || (i == n && k < m)) && g[i][k].head < |r| ==>
          Edge(i, g[i][k].latency) in r[g[i][k].head])
    && (forall j, k {:trigger r[j][k]} :: 0 <= j < |r| && 0 <= k < |r[j]| ==> r[j][k].head < |g|)
  }

  function Appended(r: seq<seq<Edge>>, h: nat, e: Edge): seq<seq<Edge>>
    requires h < |r|
  {
    r[h := r[h] + [e]]
  }

  method Reverse(g: seq<seq<Edge>>) returns (r: seq<seq<Edge>>)
    requires InGraph(g)
    ensures IsReverse(g, r)
  {
    hide PartlyReversed;
    r := seq(|g|, i => []);
    NothingReversed(g, r);
    for i := 0 to |g|
      invariant |r| == |g| && PartlyReversed(g, r, i, 0)
    {
      for k := 0 to |g[i]|
        invariant |r| == |g| && PartlyReversed(g, r, i, k)
      {
        var e := g[i][k];
        ReverseOne(g, r, i, k);
        r := Appended(r, e.head, Edge(i, e.latency));
      }
      NodeReversed(g, r, i);
    }
    AllReversed(g, r);
  }

  lemma NothingReversed(g: seq<seq<Edge>>, r: seq<seq<Edge>>)
    requires |r| == |g| && forall j :: 0 <= j < |r| ==> r[j] == []
    ensures PartlyReversed(g, r, 0, 0)
  {
  }

  lemma AllReversed(g: seq<seq<Edge>>, r: seq<seq<Edge>>)
    requires PartlyReversed(g, r, |g|, 0)
    ensures IsReverse(g, r)
  {
  }

  lemma NodeReversed(g: seq<seq<Edge>>, r: seq<seq<Edge>>, n: nat)
    requires n < |g| && PartlyReversed(g, r, n, |g[n]|)
    ensures PartlyReversed(g, r, n + 1, 0)
  {
    assert g[n][..|g[n]|] == g[n];
    assert forall i: nat :: i < |g| ==> g[i][..0] == [];
  }

  lemma ReverseOne(g: seq<seq<Edge>>, r: seq<seq<Edge>>, n: nat, m: nat)
    requires InGraph(g) && n < |g| && m < |g[n]| && PartlyReversed(g, r, n, m)
    ensures PartlyReversed(g, Appended(r, g[n][m].head, Edge(n, g[n][m].latency)), n, m + 1)
  {
    hide CountsReversed, EdgesReversed;
    ReverseCounts(g, r, n, m);
    ReverseEdge(g, r, n, m);
  }

  lemma ReverseCounts(g: seq<seq<Edge>>, r: seq<seq<Edge>>, n: nat, m: nat)
    requires InGraph(g) && n < |g| == |r| && m < |g[n]| && CountsReversed(g, r, n, m)
    ensures CountsReversed(g, Appended(r, g[n][m].head, Edge(n, g[n][m].latency)), n, m + 1)
  {
    hide CountHead;
    var e := g[n][m];
    var r': seq<seq<Edge>> := Appended(r, e.head, Edge(n, e.latency));
    assert g[n][..m + 1] == g[n][..m] + [e];
    forall i: nat, j: nat | i < |g| && j < |g|
      ensures CountHead(r'[j], i) == Turned(g, n, m + 1, i, j)
    {
      CountAppend(r[e.head], Edge(n, e.latency), i);
      CountAppend(g[n][..m], e, j);
      CountNothing(j);
      assert r'[j] == if j == e.head then r[j] + [Edge(n, e.latency)] else r[j];
      assert CountHead(r[j], i) == Turned(g, n, m, i, j);
    }
    assert CountsReversed(g, r', n, m + 1);
  }

  lemma ReverseEdge(g: seq<seq<Edge>>, r: seq<seq<Edge>>, n: nat, m: nat)
    requires InGraph(g) && n < |g| == |r| && m < |g[n]| && EdgesReversed(g, r, n, m)
    ensures EdgesReversed(g, Appended(r, g[n][m].head, Edge(n, g[n][m].latency)), n, m + 1)
  {
    var e := g[n][m];
    var r': seq<seq<Edge>> := Appended(r, e.head, Edge(n, e.latency));
    forall i, k | 0 <= i < |g| && 0 <= k < |g[i]| && (i < n || (i == n && k < m + 1)) && g[i][k].head < |r|
      ensures Edge(i, g[i][k].latency) in r'[g[i][k].head]
    {
      if i < n || k < m {
        assert Edge(i, g[i][k].latency) in r[g[i][k].head];
      }
    }
    forall j: nat, k: nat | j < |r'| && k < |r'[j]|
      ensures r'[j][k].head < |g|
    {
      if k < |r[j]| {
        assert r'[j][k] == r[j][k];
      }
    }
  }

  lemma CountNothing(h: nat)
    ensures CountHead([], h) == 0
  {
  }

  // ----- Scheduling -----

  /** How many edges of a node lead to instructions that have not been scheduled yet. */
  ghost function Pending(edges: seq<Edge>, done: set<nat>): nat {
    if edges == [] then 0 else Pending(edges[..|edges| - 1], done) + if edges[|edges| - 1].head in done then 0 else 1
  }

  lemma {:induction false} PendingAfter(edges: seq<Edge>, done: set<nat>, j: nat)
    requires j !in done
    ensures Pending(edges, done) == Pending(edges, done + {j}) + CountHead(edges, j)
  {
    if edges != [] {
      PendingAfter(edges[..|edges| - 1], done, j);
    }
  }

  lemma {:induction false} NonePending(edges: seq<Edge>, done: set<nat>)
    ensures Pending(edges, done) == 0 <==> forall k :: 0 <= k < |edges| ==> edges[k].head in done
  {
    if edges != [] {
      var shorter := edges[..|edges| - 1];
      NonePending(shorter, done);
      assert forall k :: 0 <= k < |shorter| ==> shorter[k] == edges[k];
    }
  }

  /** The distance of node `i` from the end is that of its farthest edge. */
  ghost predicate IsFarthest(g: seq<seq<Edge>>, cyclesToEnd: seq<nat>, i: nat)
    requires InGraph(g) && |cyclesToEnd| == |g| && i < |g|
  {
    && (forall k :: 0 <= k < |g[i]| ==> cyclesToEnd[i] >= Via(g, cyclesToEnd, i, k))
    && (cyclesToEnd[i] == 0 || exists k :: 0 <= k < |g[i]| && cyclesToEnd[i] == Via(g, cyclesToEnd, i, k))
  }

  ghost function Via(g: seq<seq<Edge>>, cyclesToEnd: seq<nat>, i: nat, k: nat): nat
    requires InGraph(g) && |cyclesToEnd| == |g| && i < |g| && k < |g[i]|
  {
    cyclesToEnd[g[i][k].head] + g[i][k].latency
  }

  /** Edges go forward: what has been found for later nodes stays. */
  lemma FarthestStays(g: seq<seq<Edge>>, was: seq<nat>, cyclesToEnd: seq<nat>, i: nat)
    requires InGraph(g) && |was| == |cyclesToEnd| == |g| && i < |g| && cyclesToEnd == was[i := cyclesToEnd[i]]
    requires forall j :: i < j < |g| ==> IsFarthest(g, was, j)
    requires forall k :: 0 <= k < |g[i]| ==> cyclesToEnd[i] >= Via(g, was, i, k)
    requires cyclesToEnd[i] == 0 || exists k :: 0 <= k < |g[i]| && cyclesToEnd[i] == Via(g, was, i, k)
    ensures forall j :: i <= j < |g| ==> IsFarthest(g, cyclesToEnd, j)
  {
    forall j: nat | i <= j < |g|
      ensures IsFarthest(g, cyclesToEnd, j)
    {
      assert forall k :: 0 <= k < |g[j]| ==> Via(g, was, j, k) == Via(g, cyclesToEnd, j, k);
      assert j > i ==> IsFarthest(g, was, j);
    }
  }

  /** The statistics that scheduling starts with: the distance of each node from the end, how many edges it
      has, and the nodes without any. */
  method CalcStatistics(g: seq<seq<Edge>>) returns (cyclesToEnd: seq<nat>, numUses: seq<nat>, ready: set<nat>)
    requires InGraph(g)
    ensures |cyclesToEnd| == |numUses| == |g| && forall i :: 0 <= i < |g| ==> numUses[i] == |g[i]|
    ensures forall i :: i in ready <==> 0 <= i < |g| && g[i] == []
    ensures forall i :: 0 <= i < |g| ==> IsFarthest(g, cyclesToEnd, i)
  {
    cyclesToEnd, numUses, ready := seq(|g|, i => 0), seq(|g|, i => 0), {};
    for i := |g| downto 0
      invariant |cyclesToEnd| == |numUses| == |g| && forall j :: i <= j < |g| ==> numUses[j] == |g[j]|
      invariant forall j :: j in ready <==> i <= j < |g| && g[j] == []
      invariant forall j :: i <= j < |g| ==> IsFarthest(g, cyclesToEnd, j)
    {
      var maxDelay: nat := 0;
      for k := 0 to |g[i]|
        invariant forall l :: 0 <= l < k ==> maxDelay >= Via(g, cyclesToEnd, i, l)
        invariant maxDelay == 0 || exists l :: 0 <= l < k && maxDelay == Via(g, cyclesToEnd, i, l)
      {
        var delay := cyclesToEnd[g[i][k].head] + g[i][k].latency;
        assert delay == Via(g, cyclesToEnd, i, k);
        maxDelay := Max(maxDelay, delay);
      }
      ghost var was := cyclesToEnd;
      cyclesToEnd := cyclesToEnd[i := maxDelay];
      FarthestStays(g, was, cyclesToEnd, i);
      numUses := numUses[i := |g[i]|];
      if g[i] == [] {
        ready := ready + {i};
      }
    }
  }

  /** What scheduling knows: the order so far, the instructions that could come next now and later, how
      many edges of each are open, when each can start at the earliest, and the current cycle. */
  datatype Sched = Sched(order: seq<nat>, ready: set<nat>, future: set<nat>, numUses: seq<nat>, readyCycle: seq<nat>, current: nat)

  function Done(order: seq<nat>): set<nat> {
    set i | i in order
  }

  ghost predicate OpenCounted(g: seq<seq<Edge>>, s: Sched) {
    |s.numUses| == |g| && forall i: nat :: i < |g| ==> s.numUses[i] == Pending(g[i], Done(s.order))
  }

  ghost predicate ListsOk(g: seq<seq<Edge>>, s: Sched) {
    && |s.numUses| == |s.readyCycle| == |g|
    && (forall i :: 0 <= i < |s.order| ==> s.order[i] < |g|) && (forall i, j :: 0 <= i < j < |s.order| ==> s.order[i] != s.order[j])
    && s.ready !! s.future && (forall i: nat :: i in s.ready || i in s.future <==> i < |g| && i !in s.order && s.numUses[i] == 0)
  }

  /** Instructions come after all those that their edges lead to. */
  ghost predicate Backward(g: seq<seq<Edge>>, order: seq<nat>) {
    forall a, k {:trigger g[order[a]][k]} :: 0 <= a < |order| && order[a] < |g| && 0 <= k < |g[order[a]]| ==> g[order[a]][k].head in order[..a]
  }

  /** The cycle, counted from the end of the block, from which on an instruction can be taken: it starts
      no earlier than its ready cycle allows if it takes its execution latency until then. */
  function Due(readyCycle: seq<nat>, exec: seq<nat>, i: nat): nat
    requires i < |readyCycle| && i < |exec|
  {
    if exec[i] < readyCycle[i] then readyCycle[i] - exec[i] else 0
  }

  /** `at` says in which cycle an instruction has been scheduled; it starts its execution latency before. */
  ghost predicate OnTime(g: seq<seq<Edge>>, exec: seq<nat>, s: Sched, at: map<nat, nat>) {
    && |exec| == |g| == |s.readyCycle|
    && (forall i :: i in at <==> i in s.order)
    && (forall i, k {:trigger g[i][k]} :: 0 <= i < |g| && 0 <= k < |g[i]| && g[i][k].head in at && g[i][k].head < |g| ==>
          (if i in at then at[i] + exec[i] else s.readyCycle[i]) >= at[g[i][k].head] + exec[g[i][k].head] + g[i][k].latency)
    && (forall i :: i in s.ready && i < |g| ==> s.readyCycle[i] <= s.current + exec[i])
  }

  ghost predicate SchedOk(g: seq<seq<Edge>>, exec: seq<nat>, s: Sched, at: map<nat, nat>) {
    InGraph(g) && OpenCounted(g, s) && ListsOk(g, s) && Backward(g, s.order) && OnTime(g, exec, s, at)
  }

  /** An instruction that could come first. */
  method Earliest(future: set<nat>, readyCycle: seq<nat>, exec: seq<nat>) returns (i: nat)
    requires future != {} && forall j :: j in future ==> j < |readyCycle| && j < |exec|
    ensures i in future && forall j :: j in future ==> Due(readyCycle, exec, i) <= Due(readyCycle, exec, j)
  {
    i :| i in future;
    var rest := future - {i};
    while rest != {}
      invariant rest <= future && i in future && forall j :: j in future && j !in rest ==> Due(readyCycle, exec, i) <= Due(readyCycle, exec, j)
      decreases rest
    {
      var j :| j in rest;
      rest := rest - {j};
      if Due(readyCycle, exec, j) < Due(readyCycle, exec, i) {
        i := j;
      }
    }
  }

  /** Moves the instructions whose time has come to the ready list. */
  method MoveReady(g: seq<seq<Edge>>, exec: seq<nat>, s0: Sched, ghost at: map<nat, nat>) returns (s: Sched)
    requires SchedOk(g, exec, s0, at)
    ensures SchedOk(g, exec, s, at) && s == s0.(ready := s.ready, future := s.future) && s.future <= s0.future
    ensures s.ready == s0.ready + (s0.future - s.future) && forall i :: i in s.future && i < |g| && |g| == |s.readyCycle| == |exec| ==> Due(s.readyCycle, exec, i) > s.current
    ensures s.future == s0.future ==> s == s0
    ensures forall i :: i in s.ready && i !in s0.ready && i < |s.readyCycle| == |exec| ==> Due(s.readyCycle, exec, i) <= s.current
  {
    hide OpenCounted, Backward;
    s := s0;
    while s.future != {}
      invariant SchedOk(g, exec, s, at) && s == s0.(ready := s.ready, future := s.future) && s.future <= s0.future
      invariant s.ready == s0.ready + (s0.future - s.future)
      invariant forall i :: i in s.ready && i !in s0.ready && i < |s.readyCycle| == |exec| ==> Due(s.readyCycle, exec, i) <= s.current
      decreases s.future
    {
      var i := Earliest(s.future, s.readyCycle, exec);
      if s.current < Due(s.readyCycle, exec, i) {
        return;
      }
      ghost var before := s;
      s := s.(ready := s.ready + {i}, future := s.future - {i});
      SameCounts(g, before, s);
    }
  }

  lemma SameCounts(g: seq<seq<Edge>>, s: Sched, s': Sched)
    requires OpenCounted(g, s) && s'.order == s.order && s'.numUses == s.numUses
    ensures OpenCounted(g, s')
  {
  }

  // ----- Scheduling one instruction -----

  /** The first `n` of the edges that lead to the scheduled instruction `x` have been closed. */
  ghost predicate Closing(g: seq<seq<Edge>>, exec: seq<nat>, s: Sched, s': Sched, x: nat, edges: seq<Edge>, n: nat)
    requires n <= |edges|
  {
    && |s'.numUses| == |s.numUses| == |g| == |s'.readyCycle| == |s.readyCycle|
    && s'.order == s.order + [x] && s'.ready == s.ready - {x} && s'.current == s.current + (if x < |exec| then exec[x] else 0)
    && (forall i: nat :: i < |g| ==> s'.numUses[i] + CountHead(edges[..n], i) == s.numUses[i])
    && (forall i: nat :: i < |g| ==> s'.readyCycle[i] >= s.readyCycle[i] && (s.numUses[i] == 0 ==> s'.readyCycle[i] == s.readyCycle[i]))
    && (forall k :: 0 <= k < n && edges[k].head < |g| ==> s'.readyCycle[edges[k].head] >= s'.current + edges[k].latency)
    && (forall i: nat :: i in s'.future <==> i in s.future || (i < |g| && s.numUses[i] > 0 && s'.numUses[i] == 0))
  }

  lemma {:induction false} CountPrefix(edges: seq<Edge>, n: nat, h: nat)
    requires n <= |edges|
    ensures CountHead(edges[..n], h) <= CountHead(edges, h)
    decreases |edges|
  {
    if n < |edges| {
      assert edges[..|edges| - 1][..n] == edges[..n];
      CountPrefix(edges[..|edges| - 1], n, h);
    } else {
      assert edges[..n] == edges;
    }
  }

  method CloseEdges(g: seq<seq<Edge>>, exec: seq<nat>, s: Sched, x: nat, edges: seq<Edge>) returns (s': Sched)
    requires |s.numUses| == |s.readyCycle| == |g| == |exec| && x < |g|
    requires (forall i: nat :: i < |g| ==> CountHead(edges, i) <= s.numUses[i]) && forall k :: 0 <= k < |edges| ==> edges[k].head < |g|
    ensures Closing(g, exec, s, s', x, edges, |edges|)
  {
    hide CountHead;
    s' := s.(order := s.order + [x], ready := s.ready - {x}, current := s.current + exec[x]);
    forall i: nat
      ensures CountHead(edges[..0], i) == 0
    {
      CountNothing(i);
      assert edges[..0] == [];
    }
    for k := 0 to |edges|
      invariant Closing(g, exec, s, s', x, edges, k)
    {
      var e := edges[k];
      assert edges[..k + 1] == edges[..k] + [e];
      CountPrefix(edges, k + 1, e.head);
      forall i: nat
        ensures CountHead(edges[..k + 1], i) == CountHead(edges[..k], i) + if e.head == i then 1 else 0
      {
        CountAppend(edges[..k], e, i);
      }
      ghost var before := s';
      var uses := s'.numUses[e.head] - 1;
      s' := s'.(readyCycle := s'.readyCycle[e.head := Max(s'.readyCycle[e.head], s'.current + e.latency)],
                numUses := s'.numUses[e.head := uses],
                future := if uses == 0 then s'.future + {e.head} else s'.future);
    }
    assert edges[..|edges|] == edges;
  }

  /** What scheduling one instruction keeps. */
  lemma ScheduleOne(g: seq<seq<Edge>>, r: seq<seq<Edge>>, exec: seq<nat>, s: Sched, s': Sched, x: nat, at: map<nat, nat>)
    requires SchedOk(g, exec, s, at) && IsReverse(g, r) && x in s.ready && x < |g| && Closing(g, exec, s, s', x, r[x], |r[x]|)
    ensures SchedOk(g, exec, s', at[x := s.current])
  {
    hide CountHead, Pending, InGraph, Backward, OnTime, Closing;
    CountsAfter(g, r, exec, s, s', x);
    NoneOpen(g, s);
    ListsAfter(g, r, exec, s, s', x);
    BackwardAfter(g, s, s', x, exec, r[x]);
    OnTimeAfter(g, r, exec, s, s', x, at);
  }

  lemma CountsAfter(g: seq<seq<Edge>>, r: seq<seq<Edge>>, exec: seq<nat>, s: Sched, s': Sched, x: nat)
    requires OpenCounted(g, s) && ListsOk(g, s) && IsReverse(g, r) && x in s.ready && x < |g| && Closing(g, exec, s, s', x, r[x], |r[x]|)
    ensures OpenCounted(g, s')
  {
    hide CountHead, Pending;
    assert r[x][..|r[x]|] == r[x];
    assert Done(s'.order) == Done(s.order) + {x};
    forall i: nat | i < |g|
      ensures s'.numUses[i] == Pending(g[i], Done(s'.order))
    {
      assert CountHead(r[x], i) == CountHead(g[i], x);
      PendingAfter(g[i], Done(s.order), x);
    }
  }

  lemma NoneOpen(g: seq<seq<Edge>>, s: Sched)
    requires OpenCounted(g, s) && ListsOk(g, s) && Backward(g, s.order)
    ensures forall i: nat :: i in s.order ==> i < |g| && s.numUses[i] == 0
  {
    hide Pending, Backward;
    forall i: nat | i in s.order
      ensures i < |g| && s.numUses[i] == 0
    {
      NonePending(g[i], Done(s.order));
      forall k | 0 <= k < |g[i]|
        ensures g[i][k].head in s.order
      {
        HeadScheduled(g, s.order, i, k);
      }
    }
  }

  lemma ListsAfter(g: seq<seq<Edge>>, r: seq<seq<Edge>>, exec: seq<nat>, s: Sched, s': Sched, x: nat)
    requires ListsOk(g, s) && x in s.ready && x < |g| && x < |r| && Closing(g, exec, s, s', x, r[x], |r[x]|)
    requires forall i: nat :: i in s.order ==> i < |g| && s.numUses[i] == 0
    ensures ListsOk(g, s')
  {
    hide CountHead;
    assert x !in s.order && forall i :: 0 <= i < |s.order| ==> s.order[i] in s.order;
    forall i: nat
      ensures i in s'.ready || i in s'.future <==> i < |g| && i !in s'.order && s'.numUses[i] == 0
    {
      assert i in s.ready || i in s.future <==> i < |g| && i !in s.order && s.numUses[i] == 0;
      assert i in s'.order <==> i in s.order || i == x;
      assert i < |g| ==> s'.numUses[i] + CountHead(r[x][..|r[x]|], i) == s.numUses[i];
      assert x !in s.future;
    }
    assert s'.ready !! s'.future;
  }

  lemma BackwardAfter(g: seq<seq<Edge>>, s: Sched, s': Sched, x: nat, exec: seq<nat>, edges: seq<Edge>)
    requires OpenCounted(g, s) && ListsOk(g, s) && Backward(g, s.order) && x in s.ready && x < |g| && Closing(g, exec, s, s', x, edges, |edges|)
    ensures Backward(g, s'.order)
  {
    hide CountHead, Pending;
    NonePending(g[x], Done(s.order));
    assert s'.order == s.order + [x];
    assert forall a :: 0 <= a <= |s.order| ==> s'.order[..a] == s.order[..a];
    assert s'.order[..|s.order|] == s.order;
  }

  lemma OnTimeAfter(g: seq<seq<Edge>>, r: seq<seq<Edge>>, exec: seq<nat>, s: Sched, s': Sched, x: nat, at: map<nat, nat>)
    requires OpenCounted(g, s) && ListsOk(g, s) && OnTime(g, exec, s, at) && InGraph(g) && IsReverse(g, r) && x in s.ready && x < |g|
    requires Closing(g, exec, s, s', x, r[x], |r[x]|) && Backward(g, s.order)
    ensures OnTime(g, exec, s', at[x := s.current])
  {
    hide CountHead, Pending;
    var at' := at[x := s.current];
    forall i, k | 0 <= i < |g| && 0 <= k < |g[i]| && g[i][k].head in at' && g[i][k].head < |g|
      ensures (if i in at' then at'[i] + exec[i] else s'.readyCycle[i]) >= at'[g[i][k].head] + exec[g[i][k].head] + g[i][k].latency
    {
      EdgeOnTime(g, r, exec, s, s', x, at, i, k);
    }
    ReadyStays(g, exec, s, s', x, r[x]);
    forall i
      ensures i in at' <==> i in s'.order
    {
      assert i in s'.order <==> i in s.order || i == x;
    }
  }

  lemma ReadyStays(g: seq<seq<Edge>>, exec: seq<nat>, s: Sched, s': Sched, x: nat, edges: seq<Edge>)
    requires ListsOk(g, s) && Closing(g, exec, s, s', x, edges, |edges|) && |exec| == |g|
    requires forall i :: i in s.ready && i < |g| ==> s.readyCycle[i] <= s.current + exec[i]
    ensures forall i :: i in s'.ready && i < |g| ==> s'.readyCycle[i] <= s'.current + exec[i]
  {
    hide CountHead;
    forall i | i in s'.ready && i < |g|
      ensures s'.readyCycle[i] <= s'.current + exec[i]
    {
      assert i in s.ready;
    }
  }

  lemma EdgeOnTime(g: seq<seq<Edge>>, r: seq<seq<Edge>>, exec: seq<nat>, s: Sched, s': Sched, x: nat, at: map<nat, nat>, i: nat, k: nat)
    requires OpenCounted(g, s) && ListsOk(g, s) && OnTime(g, exec, s, at) && InGraph(g) && IsReverse(g, r) && x in s.ready && x < |g|
    requires Closing(g, exec, s, s', x, r[x], |r[x]|) && Backward(g, s.order)
    requires i < |g| && k < |g[i]| && g[i][k].head < |g| && (g[i][k].head in at || g[i][k].head == x)
    ensures var at' := at[x := s.current]; var e := g[i][k];
            (if i in at' then at'[i] + exec[i] else s'.readyCycle[i]) >= at'[e.head] + exec[e.head] + e.latency
  {
    hide CountHead, Pending;
    var e := g[i][k];
    assert x !in s.order && x !in at;
    if e.head == x {
      assert Edge(i, e.latency) in r[x];
      var l :| 0 <= l < |r[x]| && r[x][l] == Edge(i, e.latency);
      if i in s.order {
        HeadScheduled(g, s.order, i, k);
      }
    }
  }

  /** An instruction is not scheduled before those that its edges lead to. */
  lemma HeadScheduled(g: seq<seq<Edge>>, order: seq<nat>, i: nat, k: nat)
    requires Backward(g, order) && i < |g| && k < |g[i]| && i in order
    ensures g[i][k].head in order
  {
    var a :| 0 <= a < |order| && order[a] == i;
    assert g[order[a]][k].head in order[..a];
  }

  // ----- The whole schedule -----

  lemma OrderGrows(g: seq<seq<Edge>>, exec: seq<nat>, s: Sched, s': Sched, x: nat, edges: seq<Edge>)
    requires Closing(g, exec, s, s', x, edges, |edges|)
    ensures s'.order == s.order + [x]
  {
  }

  /** No instruction without edges can be taken before this one. */
  ghost predicate IsFirstReady(g: seq<seq<Edge>>, exec: seq<nat>, ready0: seq<nat>, x: nat) {
    && |ready0| == |exec| == |g| && x < |g| && g[x] == []
    && forall i :: 0 <= i < |g| && g[i] == [] ==> Due(ready0, exec, x) <= Due(ready0, exec, i)
  }

  /** Nothing has been scheduled: no instruction has been waited for longer than necessary. */
  ghost predicate AtStart(g: seq<seq<Edge>>, exec: seq<nat>, ready0: seq<nat>, s: Sched) {
    && s.readyCycle == ready0 && |ready0| == |exec| == |g|
    && (forall i :: i in s.ready + s.future <==> 0 <= i < |g| && g[i] == [])
    && (forall i: nat :: i < |g| && i in s.ready ==> Due(ready0, exec, i) <= s.current)
    && (forall i: nat :: i < |g| && g[i] == [] ==> s.current <= Due(ready0, exec, i) || s.current == 0)
  }

  /** Instructions are taken one after the other, each when the one before has been executed, and none
      starts before its ready cycle. */
  ghost predicate Paced(exec: seq<nat>, ready0: seq<nat>, s: Sched, at: map<nat, nat>) {
    && |exec| == |ready0| == |s.readyCycle|
    && (forall i: nat :: i < |exec| ==> (if i in at then at[i] + exec[i] else s.readyCycle[i]) >= ready0[i])
    && OneByOne(exec, s.order, at, s.current)
    && (s.ready == {} && s.future == {} ==> EndsAt(exec, s.order, at, s.current))
  }

  ghost predicate OneByOne(exec: seq<nat>, order: seq<nat>, at: map<nat, nat>, current: nat) {
    && (forall a :: 0 <= a < |order| ==> order[a] in at && order[a] < |exec|)
    && (forall a :: 0 < a < |order| ==> at[order[a]] >= at[order[a - 1]] + exec[order[a - 1]])
    && (order != [] ==> at[order[|order| - 1]] + exec[order[|order| - 1]] <= current)
  }

  ghost predicate EndsAt(exec: seq<nat>, order: seq<nat>, at: map<nat, nat>, cycles: nat) {
    order != [] ==> order[|order| - 1] in at && order[|order| - 1] < |exec| && at[order[|order| - 1]] + exec[order[|order| - 1]] == cycles
  }

  lemma PacedOneMore(g: seq<seq<Edge>>, exec: seq<nat>, ready0: seq<nat>, s: Sched, s': Sched, x: nat, edges: seq<Edge>, at: map<nat, nat>)
    requires Paced(exec, ready0, s, at) && Closing(g, exec, s, s', x, edges, |edges|) && SchedOk(g, exec, s, at) && x in s.ready && x < |g|
    ensures Paced(exec, ready0, s', at[x := s.current])
  {
    hide CountHead, Pending, InGraph, OpenCounted, Backward;
    ReadyIsNew(g, exec, s, at, x);
    assert s'.order == s.order + [x];
  }

  lemma ReadyIsNew(g: seq<seq<Edge>>, exec: seq<nat>, s: Sched, at: map<nat, nat>, x: nat)
    requires SchedOk(g, exec, s, at) && x in s.ready && x < |g|
    ensures x !in s.order && x !in at && |exec| == |g| && |s.readyCycle| == |g| && s.readyCycle[x] <= s.current + exec[x]
  {
  }

  /** The order, from the last instruction to the first: all instructions, each after those that its edges
      lead to, and not before the cycle that the latencies allow.  The first is one that is ready first. */
  method GenerateOrder(g: seq<seq<Edge>>, r: seq<seq<Edge>>, exec: seq<nat>, ready0: seq<nat>, numUses: seq<nat>, init: set<nat>)
    returns (order: seq<nat>, cycles: nat, ghost at: map<nat, nat>)
    requires InGraph(g) && IsReverse(g, r) && |exec| == |ready0| == |numUses| == |g|
    requires (forall i :: 0 <= i < |g| ==> numUses[i] == |g[i]|) && forall i :: i in init <==> 0 <= i < |g| && g[i] == []
    ensures IsPermutation(order, |g|) && Backward(g, order) && InTime(g, exec, at)
    ensures OneByOne(exec, order, at, cycles) && EndsAt(exec, order, at, cycles)
    ensures forall i: nat :: i < |g| ==> i in at && at[i] + exec[i] >= ready0[i]
    ensures order != [] ==> IsFirstReady(g, exec, ready0, order[0])
  {
    hide SchedOk, IsReverse, Closing, Paced, OneByOne, EndsAt;
    var s := Sched([], {}, init, numUses, ready0, 0);
    at := map[];
    StartOk(g, exec, s);
    PacedAtStart(exec, ready0, s);
    while true
      invariant SchedOk(g, exec, s, at) && Sizes(g, s) && Paced(exec, ready0, s, at)
      invariant if s.order == [] then AtStart(g, exec, ready0, s) else IsFirstReady(g, exec, ready0, s.order[0])
      decreases |g| - |s.order|, s.future, if SomeDue(s, exec) then 0 else 1
    {
      ghost var before := s;
      s := MoveReady(g, exec, s, at);
      MovedPaced(exec, ready0, before, s, at);
      if s.ready == {} {
        if s.future == {} {
          break;
        }
        KnownFuture(g, exec, s, at);
        var i := Earliest(s.future, s.readyCycle, exec);
        NoneDue(before, s, exec, |g|);
        LaterCycle(g, exec, s, at, Due(s.readyCycle, exec, i));
        LaterPaced(exec, ready0, s, at, Due(s.readyCycle, exec, i));
        s := s.(current := Due(s.readyCycle, exec, i));
      } else {
        var x :| x in s.ready;
        ReadyKnown(g, r, exec, s, at, x);
        var s' := CloseEdges(g, exec, s, x, r[x]);
        ScheduleOne(g, r, exec, s, s', x, at);
        PacedOneMore(g, exec, ready0, s, s', x, r[x], at);
        OrderGrows(g, exec, s, s', x, r[x]);
        Progress(g, exec, s, s', x, r[x], at, at[x := s.current]);
        at := at[x := s.current];
        s := s';
      }
    }
    AllScheduled(g, exec, s, at);
    PacedAtEnd(g, exec, ready0, s, at);
    order, cycles := s.order, s.current;
  }

  lemma PacedAtStart(exec: seq<nat>, ready0: seq<nat>, s: Sched)
    requires |exec| == |ready0| && s.readyCycle == ready0 && s.order == []
    ensures Paced(exec, ready0, s, map[])
  {
  }

  lemma MovedPaced(exec: seq<nat>, ready0: seq<nat>, s: Sched, s': Sched, at: map<nat, nat>)
    requires Paced(exec, ready0, s, at) && s' == s.(ready := s'.ready, future := s'.future) && s'.ready + s'.future == s.ready + s.future
    ensures Paced(exec, ready0, s', at)
  {
  }

  lemma LaterPaced(exec: seq<nat>, ready0: seq<nat>, s: Sched, at: map<nat, nat>, cycle: nat)
    requires Paced(exec, ready0, s, at) && s.current <= cycle && s.future != {}
    ensures Paced(exec, ready0, s.(current := cycle), at)
  {
  }

  lemma PacedAtEnd(g: seq<seq<Edge>>, exec: seq<nat>, ready0: seq<nat>, s: Sched, at: map<nat, nat>)
    requires Paced(exec, ready0, s, at) && InTime(g, exec, at) && s.ready == {} && s.future == {}
    ensures OneByOne(exec, s.order, at, s.current) && EndsAt(exec, s.order, at, s.current)
    ensures forall i: nat :: i < |g| && i < |ready0| ==> i in at && at[i] + exec[i] >= ready0[i]
  {
  }

  ghost predicate Sizes(g: seq<seq<Edge>>, s: Sched) {
    |s.order| <= |g| == |s.readyCycle| && forall i :: i in s.future ==> i < |g|
  }

  ghost predicate SomeDue(s: Sched, exec: seq<nat>) {
    exists i :: i in s.future && i < |s.readyCycle| && i < |exec| && Due(s.readyCycle, exec, i) <= s.current
  }

  /** Every instruction starts, counted from the end, at least the latency of each of its edges before the
      instruction there. */
  ghost predicate InTime(g: seq<seq<Edge>>, exec: seq<nat>, at: map<nat, nat>) {
    && |exec| == |g| && (forall i: nat :: i < |g| ==> i in at)
    && forall i, k {:trigger g[i][k]} :: 0 <= i < |g| && 0 <= k < |g[i]| && g[i][k].head < |g| ==>
         i in at && g[i][k].head in at && at[i] + exec[i] >= at[g[i][k].head] + exec[g[i][k].head] + g[i][k].latency
  }

  lemma {:induction false} PendingAll(edges: seq<Edge>)
    ensures Pending(edges, {}) == |edges|
  {
    if edges != [] {
      PendingAll(edges[..|edges| - 1]);
    }
  }

  lemma StartOk(g: seq<seq<Edge>>, exec: seq<nat>, s: Sched)
    requires InGraph(g) && |exec| == |s.readyCycle| == |s.numUses| == |g| && s.order == [] && s.ready == {}
    requires (forall i :: 0 <= i < |g| ==> s.numUses[i] == |g[i]|) && forall i :: i in s.future <==> 0 <= i < |g| && g[i] == []
    ensures SchedOk(g, exec, s, map[]) && Sizes(g, s)
  {
    assert Done(s.order) == {};
    forall i: nat | i < |g|
      ensures s.numUses[i] == Pending(g[i], Done(s.order))
    {
      PendingAll(g[i]);
    }
  }

  lemma KnownFuture(g: seq<seq<Edge>>, exec: seq<nat>, s: Sched, at: map<nat, nat>)
    requires SchedOk(g, exec, s, at)
    ensures forall i :: i in s.future ==> i < |s.readyCycle| == |exec|
  {
  }

  lemma NoneDue(before: Sched, s: Sched, exec: seq<nat>, n: nat)
    requires s.future <= before.future && s.current == before.current && s.readyCycle == before.readyCycle && |s.readyCycle| == |exec| == n
    requires forall i :: i in s.future && i < n ==> Due(s.readyCycle, exec, i) > s.current
    ensures s.future == before.future ==> !SomeDue(before, exec)
  {
  }

  lemma LaterCycle(g: seq<seq<Edge>>, exec: seq<nat>, s: Sched, at: map<nat, nat>, cycle: nat)
    requires SchedOk(g, exec, s, at) && s.current <= cycle
    ensures SchedOk(g, exec, s.(current := cycle), at)
  {
    hide Pending, Backward;
  }

  lemma ReadyKnown(g: seq<seq<Edge>>, r: seq<seq<Edge>>, exec: seq<nat>, s: Sched, at: map<nat, nat>, x: nat)
    requires SchedOk(g, exec, s, at) && IsReverse(g, r) && x in s.ready
    ensures x < |g| == |s.numUses| == |s.readyCycle| == |r| == |exec|
    ensures (forall i: nat :: i < |g| ==> CountHead(r[x], i) <= s.numUses[i]) && forall k :: 0 <= k < |r[x]| ==> r[x][k].head < |g|
  {
    hide Backward, OnTime, CountHead, Pending;
    assert x !in Done(s.order);
    forall i: nat | i < |g|
      ensures CountHead(r[x], i) <= s.numUses[i]
    {
      PendingAfter(g[i], Done(s.order), x);
      assert CountHead(r[x], i) == CountHead(g[i], x);
    }
    SizeKnown(g, exec, s, at);
  }

  lemma SizeKnown(g: seq<seq<Edge>>, exec: seq<nat>, s: Sched, at: map<nat, nat>)
    requires SchedOk(g, exec, s, at)
    ensures |exec| == |g|
  {
  }

  lemma Progress(g: seq<seq<Edge>>, exec: seq<nat>, s: Sched, s': Sched, x: nat, edges: seq<Edge>, at: map<nat, nat>, at': map<nat, nat>)
    requires Closing(g, exec, s, s', x, edges, |edges|) && |s.order| <= |g| && x in s.ready && x < |g|
    requires SchedOk(g, exec, s, at) && SchedOk(g, exec, s', at')
    ensures Sizes(g, s') && |s'.order| == |s.order| + 1
  {
    hide CountHead, OpenCounted, Backward, OnTime;
    DistinctShort(s'.order, |g|);
  }

  lemma DistinctShort(order: seq<nat>, n: nat)
    requires (forall i :: 0 <= i < |order| ==> order[i] < n) && forall i, j :: 0 <= i < j < |order| ==> order[i] != order[j]
    ensures |order| <= n
  {
    CountElements(order);
    assert ToSet(order) <= Upto(n);
    SmallerSet(ToSet(order), Upto(n));
  }

  lemma {:induction false} SmallerSet(a: set<nat>, b: set<nat>)
    requires a <= b
    ensures |a| <= |b|
  {
    if a != {} {
      var x :| x in a;
      SmallerSet(a - {x}, b - {x});
    }
  }

  /** When nothing is left to schedule, nothing has been left out: the last instruction that had been left
      out would have been free. */
  lemma AllScheduled(g: seq<seq<Edge>>, exec: seq<nat>, s: Sched, at: map<nat, nat>)
    requires SchedOk(g, exec, s, at) && s.ready == {} && s.future == {}
    ensures IsPermutation(s.order, |g|) && Backward(g, s.order) && InTime(g, exec, at)
  {
    hide Pending, Backward, OpenCounted;
    forall i: nat | i < |g|
      ensures i in s.order
    {
      IsScheduled(g, s, i);
    }
    AllInOrder(s.order, |g|);
  }

  lemma AllInOrder(order: seq<nat>, n: nat)
    requires (forall i :: 0 <= i < |order| ==> order[i] < n) && forall i, j :: 0 <= i < j < |order| ==> order[i] != order[j]
    requires forall i: nat :: i < n ==> i in order
    ensures IsPermutation(order, n)
  {
    DistinctShort(order, n);
    assert Upto(n) <= ToSet(order);
    SmallerSet(Upto(n), ToSet(order));
    CountElements(order);
  }

  lemma {:induction false} IsScheduled(g: seq<seq<Edge>>, s: Sched, i: nat)
    requires InGraph(g) && OpenCounted(g, s) && ListsOk(g, s) && s.ready == {} && s.future == {} && i < |g|
    ensures i in s.order
    decreases |g| - i
  {
    hide Pending;
    NonePending(g[i], Done(s.order));
    forall k | 0 <= k < |g[i]|
      ensures g[i][k].head in Done(s.order)
    {
      IsScheduled(g, s, g[i][k].head);
    }
  }

  // ----- The block -----

  lemma ForwardInGraph(instrs: seq<Instr>, g: seq<seq<Edge>>)
    requires GraphOk(instrs, g)
    ensures InGraph(g)
  {
    hide ToEffects, ToWrites, ToReads;
    forall i, k | 0 <= i < |g| && 0 <= k < |g[i]|
      ensures i < g[i][k].head < |g|
    {
      assert NodeOk(instrs, i, g[i]);
    }
  }

  function Reversed(order: seq<nat>): seq<nat> {
    seq(|order|, i requires 0 <= i < |order| => order[|order| - 1 - i])
  }

  lemma ReversedRespects(g: seq<seq<Edge>>, order: seq<nat>)
    requires IsPermutation(order, |g|) && Backward(g, order)
    ensures IsPermutation(Reversed(order), |g|) && Respects(g, Reversed(order))
  {
    var rev := Reversed(order);
    forall i, k | 0 <= i < |g| && 0 <= k < |g[i]|
      ensures Before(rev, i, g[i][k].head)
    {
      Contains(order, |g|, i);
      var a :| 0 <= a < |order| && order[a] == i;
      assert g[order[a]][k].head in order[..a];
      var b :| 0 <= b < a && order[b] == g[i][k].head;
      assert rev[|order| - 1 - a] == i && rev[|order| - 1 - b] == g[i][k].head;
    }
  }

  method ExecLatencies(sm: Sm, instrs: seq<Instr>) returns (exec: seq<nat>)
    ensures exec == Execs(sm, instrs)
  {
    exec := [];
    for i := 0 to |instrs|
      invariant |exec| == i && forall j :: 0 <= j < i ==> exec[j] == sm.exec(instrs[j].op)
    {
      exec := exec + [sm.exec(instrs[i].op)];
    }
  }

  function Execs(sm: Sm, instrs: seq<Instr>): seq<nat> {
    seq<nat>(|instrs|, i requires 0 <= i < |instrs| => sm.exec(instrs[i].op))
  }

  function ReadyCycles(sm: Sm, instrs: seq<Instr>): seq<nat> {
    seq(|instrs|, i requires 0 <= i < |instrs| => ReadyCycle(sm, instrs, i))
  }

  /** Each instruction once, whatever conflicts in order, and at the end one that can be taken first. */
  ghost predicate IsSchedule(sm: Sm, instrs: seq<Instr>, order: seq<nat>, g: seq<seq<Edge>>) {
    && IsExactGraph(sm, instrs, g) && GraphOk(instrs, g) && IsPermutation(order, |instrs|) && Respects(g, order)
    && (order != [] ==> IsFirstReady(g, Execs(sm, instrs), ReadyCycles(sm, instrs), order[|order| - 1]))
  }

  /** The instructions can start in these cycles, counted from the end of the block: one after the other, each
      when the one before it has been executed; whatever an edge leads to starts at least the latency of
      the edge later; the results are there at the end; and the first one starts with the first cycle. */
  ghost predicate IsTimed(sm: Sm, instrs: seq<Instr>, g: seq<seq<Edge>>, order: seq<nat>, starts: seq<nat>, cycles: nat) {
    && |g| == |instrs| == |starts| && (forall a :: 0 <= a < |order| ==> order[a] < |instrs|)
    && (forall i, k {:trigger g[i][k]} :: 0 <= i < |g| && 0 <= k < |g[i]| && g[i][k].head < |g| ==> starts[i] >= starts[g[i][k].head] + g[i][k].latency)
    && (forall i: nat :: i < |instrs| ==> starts[i] >= ReadyCycle(sm, instrs, i))
    && (forall a :: 0 <= a < |order| - 1 ==> starts[order[a]] >= starts[order[a + 1]] + sm.exec(instrs[order[a]].op))
    && (order != [] ==> starts[order[|order| - 1]] >= sm.exec(instrs[order[|order| - 1]].op) && starts[order[0]] == cycles)
  }

  /** When each instruction starts. */
  ghost function Starts(exec: seq<nat>, at: map<nat, nat>): seq<nat>
    requires forall i: nat :: i < |exec| ==> i in at
  {
    seq(|exec|, i requires 0 <= i < |exec| => at[i] + exec[i])
  }

  lemma StartsAreTimed(sm: Sm, instrs: seq<Instr>, g: seq<seq<Edge>>, rev: seq<nat>, at: map<nat, nat>, cycles: nat)
    requires |g| == |instrs| && IsPermutation(rev, |g|) && InTime(g, Execs(sm, instrs), at)
    requires OneByOne(Execs(sm, instrs), rev, at, cycles) && EndsAt(Execs(sm, instrs), rev, at, cycles)
    requires forall i: nat :: i < |g| ==> i in at && at[i] + Execs(sm, instrs)[i] >= ReadyCycles(sm, instrs)[i]
    ensures IsTimed(sm, instrs, g, Reversed(rev), Starts(Execs(sm, instrs), at), cycles)
  {
    hide ReadyCycle;
    var exec, order, n := Execs(sm, instrs), Reversed(rev), |rev|;
    var starts := Starts(exec, at);
    forall a | 0 <= a < n - 1
      ensures starts[order[a]] >= starts[order[a + 1]] + sm.exec(instrs[order[a]].op)
    {
      var b := n - 1 - a;
      assert at[rev[b]] >= at[rev[b - 1]] + exec[rev[b - 1]];
    }
  }

  /** The new order of the instructions of a block, and how long it takes. */
  method SchedBuffer(sm: Sm, instrs: seq<Instr>) returns (order: seq<nat>, cycles: nat, ghost g: seq<seq<Edge>>, ghost starts: seq<nat>)
    ensures IsSchedule(sm, instrs, order, g) && IsTimed(sm, instrs, g, order, starts, cycles)
    ensures IsPermutation(order, |instrs|) && exists h :: IsExactGraph(sm, instrs, h) && Respects(h, order)
  {
    hide GraphOk, IsExactGraph, InGraph, IsReverse, Backward, Respects, ReadyCycle, IsFirstReady, InTime, OneByOne, EndsAt, IsTimed;
    var edges, ready := GenerateDepGraph(sm, instrs);
    assert ready == ReadyCycles(sm, instrs);
    g := edges;
    GraphIsOk(sm, instrs, edges);
    ForwardInGraph(instrs, edges);
    GraphSize(instrs, edges);
    var _, numUses, init := CalcStatistics(edges);
    var r := Reverse(edges);
    var exec := ExecLatencies(sm, instrs);
    var backward, c, at := GenerateOrder(edges, r, exec, ready, numUses, init);
    ReversedRespects(edges, backward);
    order, cycles := Reversed(backward), c;
    starts := Starts(exec, at);
    StartsAreTimed(sm, instrs, edges, backward, at, c);
    assert IsExactGraph(sm, instrs, edges) && Respects(edges, order);
  }

  /** No instruction starts before what it reads is there. */
  lemma ResultsInTime(sm: Sm, instrs: seq<Instr>, g: seq<seq<Edge>>, order: seq<nat>, starts: seq<nat>, cycles: nat, i: nat, a: nat, j: nat, idx: Option<nat>)
    requires IsExactGraph(sm, instrs, g) && IsTimed(sm, instrs, g, order, starts, cycles) && i < j < |instrs| && a < |instrs[i].dsts|
    requires ReadsAt(instrs[j], instrs[i].dsts[a], idx) && NoWrites(instrs, instrs[i].dsts[a], i + 1, j)
    ensures starts[i] >= starts[j] + ReadLatency(sm, instrs[i], a, instrs[j], idx)
  {
    hide ReadLatency, UntilActive, EffectWants, SrcWants, NoWrites;
    var e := Edge(j, ReadLatency(sm, instrs[i], a, instrs[j], idx));
    assert IsExactNode(sm, instrs, i, g[i]);
    assert IsNextRead(instrs, instrs[i].dsts[a], i + 1, j);
    assert DstWants(sm, instrs, i, a, e);
    assert e in g[i];
    var k :| 0 <= k < |g[i]| && g[i][k] == e;
  }

  /** Nor does a write reach a register before the value there has been read, or written. */
  lemma WritesInTime(sm: Sm, instrs: seq<Instr>, g: seq<seq<Edge>>, order: seq<nat>, starts: seq<nat>, cycles: nat, i: nat, a: nat, j: nat, b: nat)
    requires IsExactGraph(sm, instrs, g) && IsTimed(sm, instrs, g, order, starts, cycles) && i < j < |instrs| && b < |instrs[j].dsts|
    requires NoWrites(instrs, instrs[j].dsts[b], i + 1, j) && WritesAt(instrs[j].dsts, instrs[j].dsts[b], b)
    ensures a < |instrs[i].srcs| && instrs[i].srcs[a] == instrs[j].dsts[b] ==>
              starts[i] >= starts[j] + UntilActive(sm, instrs[i], sm.war(instrs[i].op, a, instrs[j].op, b))
    ensures a < |instrs[i].dsts| && instrs[i].dsts[a] == instrs[j].dsts[b] ==>
              starts[i] >= starts[j] + UntilActive(sm, instrs[i], sm.waw(instrs[i].op, a, instrs[i].guards != [], instrs[j].op, b))
  {
    hide ReadLatency, UntilActive, EffectWants, NoWrites, WritesAt;
    var r := instrs[j].dsts[b];
    assert IsExactNode(sm, instrs, i, g[i]) && FirstWrite(instrs, r, i + 1, j);
    if a < |instrs[i].srcs| && instrs[i].srcs[a] == r {
      var e := Edge(j, UntilActive(sm, instrs[i], sm.war(instrs[i].op, a, instrs[j].op, b)));
      assert SrcWants(sm, instrs, i, a, e);
      assert e in g[i];
      var k :| 0 <= k < |g[i]| && g[i][k] == e;
    }
    if a < |instrs[i].dsts| && instrs[i].dsts[a] == r {
      var e := Edge(j, UntilActive(sm, instrs[i], sm.waw(instrs[i].op, a, instrs[i].guards != [], instrs[j].op, b)));
      assert DstWants(sm, instrs, i, a, e);
      assert e in g[i];
      var k :| 0 <= k < |g[i]| && g[i][k] == e;
    }
  }

  lemma GraphSize(instrs: seq<Instr>, g: seq<seq<Edge>>)
    requires GraphOk(instrs, g)
    ensures |g| == |instrs|
  {
  }

  // ----- A gap -----

  /** An instruction guarded by a predicate, and one that overwrites the predicate. */
  const P0: Reg := Reg(Pred, 0)
  const GUARDED: seq<Instr> := [Instr(0, [P0], [], [Reg(GPR, 0)], Pure), Instr(1, [], [], [P0], Pure)]

  /** A result in a predicate takes longer than one in a register. */
  ghost predicate PredsTakeLonger(sm: Sm) {
    sm.worst(0, 0) == 6 && sm.worst(1, 0) == 13 && sm.variable(0) == 0 && sm.variable(1) == 0 && sm.exec(0) == sm.exec(1) == 1
  }

  const COPIES_GUARD: Meaning<int, int> := Meaning((id, vals, w) => (i: nat) => if id == 0 && |vals| > 0 then vals[0] else 1, (id, vals, w) => w)
  const ZEROES: Config<int, int> := Config(r => 0, 0)

  /** Nothing keeps a write behind the guards that it overwrites.  The scheduler puts this guarded instruction
      behind the write of its guard, because its result is ready sooner, and it computes something else. */
  lemma GuardOverwritten(sm: Sm, order: seq<nat>, g: seq<seq<Edge>>)
    requires PredsTakeLonger(sm) && IsSchedule(sm, GUARDED, order, g)
    ensures order == [1, 0] && !GuardsLead(GUARDED, g)
    ensures Run(COPIES_GUARD, GUARDED, [0, 1], ZEROES).regs(Reg(GPR, 0)) == 0 && Run(COPIES_GUARD, GUARDED, order, ZEROES).regs(Reg(GPR, 0)) == 1
  {
    GuardNotTracked(g);
    FirstLast(sm, order, g);
    RunTwo(0, 1);
    RunTwo(1, 0);
    var s0, s1 := Step(COPIES_GUARD, 0, GUARDED[0], ZEROES), Step(COPIES_GUARD, 1, GUARDED[1], ZEROES);
    FirstCopies(ZEROES);
    FirstCopies(s1);
    SecondSets(ZEROES);
    SecondSets(s0);
  }

  lemma FirstLast(sm: Sm, order: seq<nat>, g: seq<seq<Edge>>)
    requires PredsTakeLonger(sm) && IsSchedule(sm, GUARDED, order, g) && g == [[], []]
    ensures order == [1, 0]
  {
    hide GraphOk, IsExactGraph, Respects;
    assert Worst(sm, GUARDED[0], 1) == Max(Worst(sm, GUARDED[0], 0), 6);
    assert Worst(sm, GUARDED[1], 1) == Max(Worst(sm, GUARDED[1], 0), 13);
    assert ReadyCycles(sm, GUARDED)[0] == 6 && ReadyCycles(sm, GUARDED)[1] == 13;
    assert Due(ReadyCycles(sm, GUARDED), Execs(sm, GUARDED), 0) == 5 && Due(ReadyCycles(sm, GUARDED), Execs(sm, GUARDED), 1) == 12;
    assert order[1] == 0 && order[0] != order[1];
  }

  lemma RunTwo(i: nat, j: nat)
    requires i < 2 && j < 2
    ensures Run(COPIES_GUARD, GUARDED, [i, j], ZEROES) == Step(COPIES_GUARD, j, GUARDED[j], Step(COPIES_GUARD, i, GUARDED[i], ZEROES))
  {
    hide Step;
    assert [i, j][..1] == [i] && [i][..0] == [];
    RunOne(COPIES_GUARD, GUARDED, i, ZEROES);
  }

  lemma FirstCopies(s: Config<int, int>)
    ensures Step(COPIES_GUARD, 0, GUARDED[0], s).regs(Reg(GPR, 0)) == s.regs(P0)
  {
    assert Operands(GUARDED[0], s.regs)[0] == s.regs(P0);
  }

  lemma SecondSets(s: Config<int, int>)
    ensures Step(COPIES_GUARD, 1, GUARDED[1], s).regs(P0) == 1
    ensures Step(COPIES_GUARD, 1, GUARDED[1], s).regs(Reg(GPR, 0)) == s.regs(Reg(GPR, 0))
  {
    StepOutside(COPIES_GUARD, 1, GUARDED[1], s, Reg(GPR, 0));
  }

  /** No edge is needed. */
  lemma GuardNotTracked(g: seq<seq<Edge>>)
    requires GraphOk(GUARDED, g)
    ensures g == [[], []] && !GuardsLead(GUARDED, g)
  {
    NoneNeeded();
    forall i: nat | i < 2
      ensures g[i] == []
    {
      assert NodeOk(GUARDED, i, g[i]);
      NoEdges(i, g[i]);
    }
    assert g[0] == [] && g[1] == [];
    assert FirstWrite(GUARDED, P0, 0 + 1, 1) && P0 in GUARDED[0].guards;
    assert !Leads(g, 0, 1);
  }

  lemma NoEdges(i: nat, edges: seq<Edge>)
    requires i < 2 && Forward(GUARDED, i, edges) && forall j: nat :: i < j < 2 ==> !Needed(GUARDED, i, j)
    ensures edges == []
  {
    hide Needed, Forward;
    if edges != [] {
      HeadNeeded(i, edges);
    }
  }

  lemma HeadNeeded(i: nat, edges: seq<Edge>)
    requires i < 2 && Forward(GUARDED, i, edges) && edges != []
    ensures exists j: nat :: i < j < 2 && Needed(GUARDED, i, j)
  {
    hide Needed;
    assert Needed(GUARDED, i, edges[0].head);
  }

  lemma NoneNeeded()
    ensures forall i: nat, j: nat :: i < 2 && i < j < 2 ==> !Needed(GUARDED, i, j)
  {
    assert GUARDED[0].dsts == [Reg(GPR, 0)] && GUARDED[1].dsts == [P0];
    assert !GUARDED[1].Reads(Reg(GPR, 0)) && !GUARDED[1].Writes(Reg(GPR, 0));
  }
}
