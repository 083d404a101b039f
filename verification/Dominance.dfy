/** Dominators of a control-flow graph (crates/deko-compiler-utils/src/cfg.rs). */
module Dominance {
  import opened DepthFirstSearch

  /** A control-flow graph in the order in which the blocks are laid out.  The first predecessor of
      every block but the entry comes earlier in that order. */
  datatype Cfg = Cfg(succ: Graph, pred: Graph)
  {
    ghost predicate Valid() {
      && |succ| == |pred| > 0 && WellFormed(succ) && WellFormed(pred)
      && (forall p: nat, b: nat {:trigger p in pred[b]} {:trigger b in succ[p]} ::
            p < |succ| && b < |succ| ==> (p in pred[b] <==> b in succ[p]))
      && (forall b :: 0 < b < |pred| ==> pred[b] != [] && pred[b][0] < b)
    }
  }

  /** Every path from the entry to `c` passes through `d`. */
  ghost predicate Dominates(g: Graph, d: nat, c: nat) {
    forall path :: Connects(g, path, 0, c) ==> d in path
  }

  // ----- The dominator tree under construction -----

  /** The parents of nodes `0..m` are known; every parent comes before its child. */
  ghost predicate Tree(dom: seq<int>, m: nat) {
    && 0 < m <= |dom| && dom[0] == 0
    && forall j :: 0 < j < m ==> 0 <= dom[j] < j
  }

  /** `j` and its ancestors in the tree. */
  ghost function Anc(dom: seq<int>, m: nat, j: nat): (s: set<nat>)
    requires Tree(dom, m) && j < m
    ensures j in s && 0 in s && forall x :: x in s ==> x <= j
  {
    if j == 0 then {0} else {j} + Anc(dom, m, dom[j])
  }

  /** `j`, its first predecessor, the first predecessor of that, and so on. */
  ghost function Chain(c: Cfg, j: nat): (s: set<nat>)
    requires c.Valid() && j < |c.pred|
    ensures j in s && forall x :: x in s ==> x <= j
  {
    if j == 0 then {0} else {j} + Chain(c, c.pred[j][0])
  }

  lemma {:induction false} AncClosed(dom: seq<int>, m: nat, j: nat, x: nat)
    requires Tree(dom, m) && j < m && x in Anc(dom, m, j)
    ensures Anc(dom, m, x) <= Anc(dom, m, j)
  {
    if x != j {
      AncClosed(dom, m, dom[j], x);
    }
  }

  /** Ancestors form a line: of two, the smaller is an ancestor of the larger. */
  lemma {:induction false} AncLinear(dom: seq<int>, m: nat, j: nat, x: nat, y: nat)
    requires Tree(dom, m) && j < m && x in Anc(dom, m, j) && y in Anc(dom, m, j) && x <= y
    ensures x in Anc(dom, m, y)
  {
    if y != j {
      AncLinear(dom, m, dom[j], x, y);
    }
  }

  /** The nearest common ancestor: walks up from whichever node is larger. */
  method FindCommonDom(dom: array<int>, ghost m: nat, a0: nat, b0: nat) returns (a: nat)
    requires Tree(dom[..], m) && a0 < m && b0 < m
    ensures a < m && Anc(dom[..], m, a) == Anc(dom[..], m, a0) * Anc(dom[..], m, b0)
  {
    a := a0;
    var b: nat := b0;
    while a != b
      invariant a < m && b < m
      invariant Anc(dom[..], m, a) * Anc(dom[..], m, b) == Anc(dom[..], m, a0) * Anc(dom[..], m, b0)
      decreases a + b
    {
      while a > b
        invariant a < m && b < m
        invariant Anc(dom[..], m, a) * Anc(dom[..], m, b) == Anc(dom[..], m, a0) * Anc(dom[..], m, b0)
        decreases a
      {
        a := dom[a];
      }
      while b > a
        invariant a < m && b < m
        invariant Anc(dom[..], m, a) * Anc(dom[..], m, b) == Anc(dom[..], m, a0) * Anc(dom[..], m, b0)
        decreases b
      {
        b := dom[b];
      }
    }
  }

  // ----- What every step of the computation keeps -----

  /** The common ancestors of the known predecessors of `i`. */
  ghost predicate Common(c: Cfg, dom: seq<int>, m: nat, i: nat, y: nat)
    requires c.Valid() && Tree(dom, m) && i < |c.pred|
  {
    forall p :: p in c.pred[i] && p < m ==> y in Anc(dom, m, p)
  }

  /** Parents lie on the chain of first predecessors. */
  ghost predicate OnChain(c: Cfg, dom: seq<int>, m: nat)
    requires c.Valid() && Tree(dom, m) && m <= |c.pred|
  {
    forall j: nat :: 0 < j < m ==> dom[j] in Chain(c, c.pred[j][0])
  }

  /** Nodes `1..i` have been recomputed since their first predecessor changed. */
  ghost predicate Fresh(c: Cfg, dom: seq<int>, m: nat, i: nat)
    requires c.Valid() && Tree(dom, m) && m <= |c.pred|
  {
    forall j: nat :: 0 < j < i && j < m ==> Anc(dom, m, j) <= {j} + Anc(dom, m, c.pred[j][0])
  }

  /** Recomputing a parent can only move it towards the entry. */
  ghost predicate Upper(c: Cfg, dom: seq<int>, m: nat)
    requires c.Valid() && Tree(dom, m) && m <= |c.pred|
  {
    forall j: nat, y: nat {:trigger Common(c, dom, m, j, y)} :: 0 < j < m && Common(c, dom, m, j, y) ==> y <= dom[j]
  }

  /** No dominator is lost: what strictly dominates a node dominates its parent. */
  ghost predicate KeepsDominators(c: Cfg, dom: seq<int>, m: nat)
    requires c.Valid() && Tree(dom, m) && m <= |c.pred|
  {
    forall j: nat, d: nat {:trigger Dominates(c.succ, d, j)} :: 0 < j < m && d != j && Dominates(c.succ, d, j) ==> Dominates(c.succ, d, dom[j])
  }

  ghost predicate Inv(c: Cfg, dom: seq<int>, m: nat, i: nat) {
    && c.Valid() && |dom| == |c.pred| && Tree(dom, m) && m <= |c.pred|
    && OnChain(c, dom, m) && Fresh(c, dom, m, i) && Upper(c, dom, m) && KeepsDominators(c, dom, m)
  }

  lemma {:induction false} ChainClosed(c: Cfg, j: nat, x: nat)
    requires c.Valid() && j < |c.pred| && x in Chain(c, j)
    ensures Chain(c, x) <= Chain(c, j)
  {
    if x != j {
      ChainClosed(c, c.pred[j][0], x);
    }
  }

  lemma {:induction false} AncOnChain(c: Cfg, dom: seq<int>, m: nat, j: nat)
    requires c.Valid() && Tree(dom, m) && m <= |c.pred| && OnChain(c, dom, m) && j < m
    ensures Anc(dom, m, j) <= Chain(c, j)
  {
    if j > 0 {
      AncOnChain(c, dom, m, dom[j]);
      ChainClosed(c, c.pred[j][0], dom[j]);
    }
  }

  /** Walking down a fresh chain: an ancestor of `j` below the chain node `a` is an ancestor of `a`. */
  lemma {:induction false} FreshChain(c: Cfg, dom: seq<int>, m: nat, i: nat, j: nat, a: nat, x: nat)
    requires c.Valid() && Tree(dom, m) && m <= |c.pred| && Fresh(c, dom, m, i) && j < i && j < m
    requires a in Chain(c, j) && x in Anc(dom, m, j) && x < a
    ensures a < m && x in Anc(dom, m, a)
  {
    if a != j {
      assert Anc(dom, m, j) <= {j} + Anc(dom, m, c.pred[j][0]);
      FreshChain(c, dom, m, i, c.pred[j][0], a, x);
    }
  }

  /** The chain is a path, against its direction. */
  lemma {:induction false} ChainPath(c: Cfg, j: nat, x: nat) returns (path: seq<nat>)
    requires c.Valid() && j < |c.pred| && x in Chain(c, j)
    ensures Connects(c.succ, path, x, j)
    ensures forall y :: y in path ==> y >= x
  {
    if x == j {
      path := [j];
    } else {
      var p := c.pred[j][0];
      var front := ChainPath(c, p, x);
      path := front + [j];
      assert p in c.pred[j] && j in c.succ[p];
    }
  }

  lemma ConcatPaths(g: Graph, p: seq<nat>, q: seq<nat>, a: nat, b: nat, d: nat)
    requires Connects(g, p, a, b) && Connects(g, q, b, d)
    ensures Connects(g, p + q[1..], a, d)
  {
    var r := p + q[1..];
    forall i | 0 <= i < |r| - 1
      ensures r[i + 1] in g[r[i]]
    {
      if i < |p| - 1 {
        assert p[i + 1] in g[p[i]];
      } else {
        assert r[i] == q[i - |p| + 1] && r[i + 1] == q[i - |p| + 2];
        assert q[(i - |p| + 1) + 1] in g[q[i - |p| + 1]];
      }
    }
  }

  /** What strictly dominates a node dominates all its predecessors. */
  lemma DominatesPreds(c: Cfg, d: nat, i: nat, p: nat)
    requires c.Valid() && i < |c.pred| && p in c.pred[i] && d != i && Dominates(c.succ, d, i)
    ensures Dominates(c.succ, d, p)
  {
    assert i in c.succ[p];
    forall path | Connects(c.succ, path, 0, p)
      ensures d in path
    {
      var longer := path + [i];
      forall k | 0 <= k < |longer| - 1
        ensures longer[k + 1] in c.succ[longer[k]]
      {
        if k < |path| - 1 {
          assert path[k + 1] in c.succ[path[k]];
        }
      }
      assert Connects(c.succ, longer, 0, i);
    }
  }

  lemma {:induction false} DominatorsAreAncestors(c: Cfg, dom: seq<int>, m: nat, j: nat, d: nat)
    requires c.Valid() && Tree(dom, m) && m <= |c.pred| && KeepsDominators(c, dom, m) && j < m
    requires Dominates(c.succ, d, j)
    ensures d in Anc(dom, m, j)
  {
    if d != j {
      if j == 0 {
        assert Connects(c.succ, [0], 0, 0);
      } else {
        DominatorsAreAncestors(c, dom, m, dom[j], d);
      }
    }
  }

  /** A strict dominator of `i` dominates every node of the chain above `i` that it is an ancestor of:
      the way from there down the chain avoids it. */
  lemma DominatesUpTheChain(c: Cfg, d: nat, i: nat, n: nat)
    requires c.Valid() && 0 < i < |c.pred| && d != i && Dominates(c.succ, d, i)
    requires n in Chain(c, c.pred[i][0]) && d <= n
    ensures Dominates(c.succ, d, n)
  {
    var p := c.pred[i][0];
    assert p in c.pred[i] && i in c.succ[p];
    DominatesPreds(c, d, i, p);
    if d != n {
      var down := ChainPath(c, p, n);
      forall path | Connects(c.succ, path, 0, n)
        ensures d in path
      {
        ConcatPaths(c.succ, path, down, 0, n, p);
        assert d in path + down[1..];
        assert forall y :: y in down[1..] ==> y in down;
      }
    } else {
      forall path | Connects(c.succ, path, 0, n)
        ensures d in path
      {
        assert path[|path| - 1] == n;
      }
    }
  }

  /** `n` is the nearest common ancestor of the known predecessors of `i`. */
  ghost predicate IsNearest(c: Cfg, dom: seq<int>, m: nat, i: nat, n: nat)
    requires c.Valid() && Tree(dom, m) && i < |c.pred|
  {
    n < m && forall y: nat :: y in Anc(dom, m, n) <==> Common(c, dom, m, i, y)
  }

  lemma NearestIsOnChain(c: Cfg, dom: seq<int>, m: nat, i: nat, n: nat)
    requires c.Valid() && Tree(dom, m) && m <= |c.pred| && OnChain(c, dom, m)
    requires 0 < i < |c.pred| && i <= m && IsNearest(c, dom, m, i, n)
    ensures Common(c, dom, m, i, n) && n < i
    ensures n in Anc(dom, m, c.pred[i][0]) && n in Chain(c, c.pred[i][0])
  {
    var p := c.pred[i][0];
    assert p in c.pred[i] && n in Anc(dom, m, n);
    assert Common(c, dom, m, i, n);
    AncOnChain(c, dom, m, p);
  }

  lemma NearestKeepsDominators(c: Cfg, dom: seq<int>, m: nat, i: nat, n: nat, d: nat)
    requires c.Valid() && Tree(dom, m) && m <= |c.pred| && OnChain(c, dom, m) && KeepsDominators(c, dom, m)
    requires 0 < i < |c.pred| && i <= m && IsNearest(c, dom, m, i, n)
    requires d != i && Dominates(c.succ, d, i)
    ensures Dominates(c.succ, d, n)
  {
    NearestIsOnChain(c, dom, m, i, n);
    forall p | p in c.pred[i] && p < m
      ensures d in Anc(dom, m, p)
    {
      DominatesPreds(c, d, i, p);
      DominatorsAreAncestors(c, dom, m, p, d);
    }
    assert Common(c, dom, m, i, d);
    DominatesUpTheChain(c, d, i, n);
  }

  // ----- First computation of a parent -----

  lemma {:induction false} AncExtends(dom: seq<int>, m: nat, n: int, j: nat)
    requires Tree(dom, m) && m < |dom| && 0 <= n < m && j < m
    ensures Tree(dom[m := n], m + 1) && Anc(dom[m := n], m + 1, j) == Anc(dom, m, j)
  {
    if j > 0 {
      AncExtends(dom, m, n, dom[j]);
    }
  }

  lemma FirstUpdate(c: Cfg, dom: seq<int>, i: nat, n: nat)
    requires 0 < i < |dom| && Inv(c, dom, i, i) && IsNearest(c, dom, i, i, n)
    ensures Inv(c, dom[i := n], i + 1, i + 1)
  {
    var dom' := dom[i := n];
    NearestIsOnChain(c, dom, i, i, n);
    forall j: nat | j < i
      ensures Tree(dom', i + 1) && Anc(dom', i + 1, j) == Anc(dom, i, j)
    {
      AncExtends(dom, i, n, j);
    }
    FirstUpdateFresh(c, dom, i, n);
    FirstUpdateUpper(c, dom, i, n);
    forall j: nat, d: nat | 0 < j < i + 1 && d != j && Dominates(c.succ, d, j)
      ensures Dominates(c.succ, d, dom'[j])
    {
      if j == i {
        NearestKeepsDominators(c, dom, i, i, n, d);
      }
    }
  }

  lemma FirstUpdateFresh(c: Cfg, dom: seq<int>, i: nat, n: nat)
    requires 0 < i < |dom| && Inv(c, dom, i, i) && IsNearest(c, dom, i, i, n) && Tree(dom[i := n], i + 1)
    ensures Fresh(c, dom[i := n], i + 1, i + 1)
  {
    var dom' := dom[i := n];
    forall j: nat | 0 < j < i + 1
      ensures Anc(dom', i + 1, j) <= {j} + Anc(dom', i + 1, c.pred[j][0])
    {
      AncExtends(dom, i, n, c.pred[j][0]);
      if j < i {
        AncExtends(dom, i, n, j);
        assert Anc(dom, i, j) <= {j} + Anc(dom, i, c.pred[j][0]);
      } else {
        NearestIsOnChain(c, dom, i, i, n);
        AncExtends(dom, i, n, n);
        AncClosed(dom, i, c.pred[i][0], n);
      }
    }
  }

  lemma FirstUpdateUpper(c: Cfg, dom: seq<int>, i: nat, n: nat)
    requires 0 < i < |dom| && Inv(c, dom, i, i) && IsNearest(c, dom, i, i, n) && Tree(dom[i := n], i + 1)
    ensures Upper(c, dom[i := n], i + 1)
  {
    var dom', m' := dom[i := n], i + 1;
    forall j: nat, y: nat | 0 < j < m' && Common(c, dom', m', j, y)
      ensures y <= dom'[j]
    {
      forall p | p in c.pred[j] && p < i
        ensures y in Anc(dom, i, p)
      {
        AncExtends(dom, i, n, p);
      }
      assert Common(c, dom, i, j, y);
    }
  }

  // ----- Recomputation of a parent -----

  /** A recomputed parent is an ancestor of the old one. */
  lemma NearestMovesUp(c: Cfg, dom: seq<int>, m: nat, i: nat, n: nat)
    requires 0 < i < m && Inv(c, dom, m, i) && IsNearest(c, dom, m, i, n)
    ensures n <= dom[i] && n in Anc(dom, m, dom[i])
  {
    NearestIsOnChain(c, dom, m, i, n);
    if n < dom[i] {
      FreshChain(c, dom, m, i, c.pred[i][0], dom[i], n);
    }
  }

  lemma {:induction false} AncUnchangedBelow(dom: seq<int>, m: nat, i: nat, n: int, j: nat)
    requires Tree(dom, m) && 0 < i < m && 0 <= n < i && j < i
    ensures Tree(dom[i := n], m) && Anc(dom[i := n], m, j) == Anc(dom, m, j)
  {
    if j > 0 {
      AncUnchangedBelow(dom, m, i, n, dom[j]);
    }
  }

  lemma {:induction false} AncShrinks(dom: seq<int>, m: nat, i: nat, n: nat, j: nat)
    requires Tree(dom, m) && 0 < i < m && j < m && n in Anc(dom, m, dom[i])
    ensures Tree(dom[i := n], m) && Anc(dom[i := n], m, j) <= Anc(dom, m, j)
  {
    if j == i {
      AncUnchangedBelow(dom, m, i, n, n);
      AncClosed(dom, m, dom[i], n);
    } else if j > 0 {
      AncShrinks(dom, m, i, n, dom[j]);
    }
  }

  lemma LaterUpdate(c: Cfg, dom: seq<int>, m: nat, i: nat, n: nat)
    requires 0 < i < m && Inv(c, dom, m, i) && IsNearest(c, dom, m, i, n)
    ensures Inv(c, dom[i := n], m, i + 1)
  {
    var dom' := dom[i := n];
    NearestIsOnChain(c, dom, m, i, n);
    NearestMovesUp(c, dom, m, i, n);
    assert Tree(dom', m);
    LaterUpdateFresh(c, dom, m, i, n);
    LaterUpdateUpper(c, dom, m, i, n);
    forall j: nat, d: nat | 0 < j < m && d != j && Dominates(c.succ, d, j)
      ensures Dominates(c.succ, d, dom'[j])
    {
      if j == i {
        NearestKeepsDominators(c, dom, m, i, n, d);
      }
    }
  }

  lemma LaterUpdateFresh(c: Cfg, dom: seq<int>, m: nat, i: nat, n: nat)
    requires 0 < i < m && Inv(c, dom, m, i) && IsNearest(c, dom, m, i, n) && Tree(dom[i := n], m)
    ensures Fresh(c, dom[i := n], m, i + 1)
  {
    var dom' := dom[i := n];
    NearestIsOnChain(c, dom, m, i, n);
    forall j: nat | 0 < j < i + 1
      ensures Anc(dom', m, j) <= {j} + Anc(dom', m, c.pred[j][0])
    {
      if j < i {
        assert Anc(dom, m, j) <= {j} + Anc(dom, m, c.pred[j][0]);
        FreshBelow(dom, m, i, n, j, c.pred[j][0]);
      } else {
        FreshHere(dom, m, i, n, c.pred[i][0]);
      }
    }
  }

  lemma FreshBelow(dom: seq<int>, m: nat, i: nat, n: nat, j: nat, p: nat)
    requires Tree(dom, m) && 0 < i < m && n < i && Tree(dom[i := n], m) && p < j < i
    requires Anc(dom, m, j) <= {j} + Anc(dom, m, p)
    ensures Anc(dom[i := n], m, j) <= {j} + Anc(dom[i := n], m, p)
  {
    AncUnchangedBelow(dom, m, i, n, j);
    AncUnchangedBelow(dom, m, i, n, p);
  }

  lemma FreshHere(dom: seq<int>, m: nat, i: nat, n: nat, p: nat)
    requires Tree(dom, m) && 0 < i < m && p < i && n in Anc(dom, m, p) && Tree(dom[i := n], m)
    ensures Anc(dom[i := n], m, i) <= {i} + Anc(dom[i := n], m, p)
  {
    AncUnchangedBelow(dom, m, i, n, p);
    AncUnchangedBelow(dom, m, i, n, n);
    AncClosed(dom, m, p, n);
  }

  lemma LaterUpdateUpper(c: Cfg, dom: seq<int>, m: nat, i: nat, n: nat)
    requires 0 < i < m && Inv(c, dom, m, i) && IsNearest(c, dom, m, i, n) && Tree(dom[i := n], m)
    ensures Upper(c, dom[i := n], m)
  {
    var dom' := dom[i := n];
    NearestMovesUp(c, dom, m, i, n);
    forall j: nat, y: nat | 0 < j < m && Common(c, dom', m, j, y)
      ensures y <= dom'[j]
    {
      forall p | p in c.pred[j] && p < m
        ensures y in Anc(dom, m, p)
      {
        AncShrinks(dom, m, i, n, p);
      }
      assert Common(c, dom, m, j, y);
    }
  }

  // ----- The fixed point -----

  /** `dom[p] == -1` marks a node whose parent has not been computed yet. */
  ghost predicate Known(dom: seq<int>, m: nat) {
    m <= |dom| && forall p :: 0 <= p < |dom| ==> (dom[p] == -1 <==> p >= m)
  }

  ghost predicate CommonUpTo(c: Cfg, dom: seq<int>, m: nat, i: nat, k: nat, y: nat)
    requires c.Valid() && Tree(dom, m) && i < |c.pred| && k <= |c.pred[i]|
  {
    forall q :: 0 <= q < k && c.pred[i][q] < m ==> y in Anc(dom, m, c.pred[i][q])
  }

  /** `d` is the nearest common ancestor of the known ones among the first `k` predecessors of `i`. */
  ghost predicate NearestUpTo(c: Cfg, dom: seq<int>, m: nat, i: nat, k: nat, d: nat)
    requires c.Valid() && Tree(dom, m) && i < |c.pred| && k <= |c.pred[i]|
  {
    d < m && forall y: nat :: y in Anc(dom, m, d) <==> CommonUpTo(c, dom, m, i, k, y)
  }

  lemma NearestStep(c: Cfg, dom: seq<int>, m: nat, i: nat, k: nat, d: nat, e: nat)
    requires c.Valid() && Tree(dom, m) && i < |c.pred| && k < |c.pred[i]| && NearestUpTo(c, dom, m, i, k, d) && e < m
    requires if c.pred[i][k] < m then Anc(dom, m, e) == Anc(dom, m, d) * Anc(dom, m, c.pred[i][k]) else e == d
    ensures NearestUpTo(c, dom, m, i, k + 1, e)
  {
    forall y: nat
      ensures y in Anc(dom, m, e) <==> CommonUpTo(c, dom, m, i, k + 1, y)
    {
      assert y in Anc(dom, m, d) <==> CommonUpTo(c, dom, m, i, k, y);
    }
  }

  /** The parent of `i` according to the current parents of its predecessors. */
  method NearestOfPreds(c: Cfg, dom: array<int>, ghost m: nat, i: nat) returns (d: nat)
    requires c.Valid() && dom.Length == |c.pred| && Tree(dom[..], m) && Known(dom[..], m)
    requires 0 < i < |c.pred| && i <= m
    ensures IsNearest(c, dom[..], m, i, d)
  {
    d := c.pred[i][0];
    for k := 1 to |c.pred[i]|
      invariant NearestUpTo(c, dom[..], m, i, k, d)
    {
      var p := c.pred[i][k];
      assert p in c.pred[i];
      var e := d;
      if dom[p] != -1 {
        e := FindCommonDom(dom, m, d, p);
      }
      NearestStep(c, dom[..], m, i, k, d, e);
      d := e;
    }
    AllPreds(c, dom[..], m, i);
  }

  lemma AllPreds(c: Cfg, dom: seq<int>, m: nat, i: nat)
    requires c.Valid() && Tree(dom, m) && i < |c.pred|
    ensures forall y: nat :: CommonUpTo(c, dom, m, i, |c.pred[i]|, y) <==> Common(c, dom, m, i, y)
  {
    forall y: nat
      ensures CommonUpTo(c, dom, m, i, |c.pred[i]|, y) <==> Common(c, dom, m, i, y)
    {
      assert forall q :: 0 <= q < |c.pred[i]| ==> c.pred[i][q] in c.pred[i];
    }
  }

  /** How far all parents still are from the entry at most. */
  ghost function Weight(dom: seq<int>, k: nat): nat
    requires k <= |dom|
  {
    if k == 0 then 0 else Weight(dom, k - 1) + if dom[k - 1] < 0 then |dom| else dom[k - 1]
  }

  lemma {:induction false} WeightUpdate(dom: seq<int>, i: nat, d: nat, k: nat)
    requires i < |dom| && k <= |dom|
    requires (dom[i] < 0 && d < |dom|) || d < dom[i]
    ensures Weight(dom[i := d], k) <= Weight(dom, k) && (i < k ==> Weight(dom[i := d], k) < Weight(dom, k))
  {
    if k > 0 {
      WeightUpdate(dom, i, d, k - 1);
    }
  }

  ghost predicate FixedUpTo(c: Cfg, dom: seq<int>, m: nat, i: nat)
    requires c.Valid() && Tree(dom, m) && m <= |c.pred|
  {
    m == |c.pred| && forall j: nat :: 0 < j < i && j < m ==> IsNearest(c, dom, m, j, dom[j])
  }

  /** Recomputes parent `i`. */
  method UpdateNode(c: Cfg, dom: array<int>, ghost m: nat, i: nat) returns (changed: bool, ghost m': nat)
    requires Inv(c, dom[..], m, i) && Known(dom[..], m) && 0 < i < |c.pred| && (m == i || m == |c.pred|)
    modifies dom
    ensures Inv(c, dom[..], m', i + 1) && Known(dom[..], m') && (m' == i + 1 || m' == |c.pred|)
    ensures changed ==> Weight(dom[..], dom.Length) < Weight(old(dom[..]), dom.Length)
    ensures !changed ==> dom[..] == old(dom[..]) && m' == m == |c.pred| && IsNearest(c, dom[..], m, i, dom[i])
  {
    var d := NearestOfPreds(c, dom, m, i);
    ghost var was := dom[..];
    changed := dom[i] != d;
    if changed {
      dom[i] := d;
      assert dom[..] == was[i := d];
      NearestIsOnChain(c, was, m, i, d);
    }
    if i < m {
      LaterUpdate(c, was, m, i, d);
      NearestMovesUp(c, was, m, i, d);
      m' := m;
      assert was[i := d] == dom[..];
    } else {
      FirstUpdate(c, was, i, d);
      m' := i + 1;
    }
    if changed {
      WeightUpdate(was, i, d, dom.Length);
    }
  }

  method Pass(c: Cfg, dom: array<int>, ghost m0: nat) returns (changed: bool, ghost m: nat)
    requires Inv(c, dom[..], m0, 1) && Known(dom[..], m0) && (m0 == 1 || m0 == |c.pred|)
    modifies dom
    ensures Inv(c, dom[..], m, 1) && Known(dom[..], m) && m == |c.pred|
    ensures changed ==> Weight(dom[..], dom.Length) < Weight(old(dom[..]), dom.Length)
    ensures !changed ==> FixedUpTo(c, dom[..], m, |c.pred|)
  {
    changed := false;
    m := m0;
    for i := 1 to |c.pred|
      invariant Inv(c, dom[..], m, i) && Known(dom[..], m) && (m == i || m == |c.pred|)
      invariant changed ==> Weight(dom[..], dom.Length) < Weight(old(dom[..]), dom.Length)
      invariant !changed ==> dom[..] == old(dom[..]) && (i > 1 ==> FixedUpTo(c, dom[..], m, i))
    {
      var here;
      here, m := UpdateNode(c, dom, m, i);
      changed := changed || here;
    }
  }

  /** Computes the parent of every node in the dominator tree. */
  method CalcParents(c: Cfg) returns (dom: array<int>)
    requires c.Valid()
    ensures fresh(dom) && dom.Length == |c.pred| && Tree(dom[..], |c.pred|)
    ensures forall d: nat, j: nat :: d < |c.pred| && j < |c.pred| ==>
              (d in Anc(dom[..], |c.pred|, j) <==> Dominates(c.succ, d, j))
  {
    var n := |c.pred|;
    dom := new int[n](_ => -1);
    dom[0] := 0;
    ghost var m := 1;
    var changed := true;
    while changed
      invariant Inv(c, dom[..], m, 1) && Known(dom[..], m) && (m == 1 || m == n)
      invariant !changed ==> FixedUpTo(c, dom[..], m, n)
      decreases changed, Weight(dom[..], n)
    {
      changed, m := Pass(c, dom, m);
    }
    ExactAtFixedPoint(c, dom[..]);
  }

  lemma {:induction false} AncestorsAreOnPaths(c: Cfg, dom: seq<int>, path: seq<nat>, x: nat)
    requires c.Valid() && |dom| == |c.pred| && Tree(dom, |dom|) && FixedUpTo(c, dom, |dom|, |dom|)
    requires IsPath(c.succ, path) && path[0] == 0 && x in Anc(dom, |dom|, path[|path| - 1])
    ensures x in path
    decreases |path|
  {
    var j := path[|path| - 1];
    if x != j && j != 0 {
      var front := path[..|path| - 1];
      var p := front[|front| - 1];
      assert path[|path| - 2 + 1] in c.succ[path[|path| - 2]] && p in c.pred[j];
      assert IsNearest(c, dom, |dom|, j, dom[j]);
      assert Common(c, dom, |dom|, j, x);
      AncestorsAreOnPaths(c, dom, front, x);
    }
  }

  /** At a fixed point the ancestors of a node are exactly its dominators. */
  lemma ExactAtFixedPoint(c: Cfg, dom: seq<int>)
    requires Inv(c, dom, |dom|, 1) && FixedUpTo(c, dom, |dom|, |dom|)
    ensures forall d: nat, j: nat :: d < |dom| && j < |dom| ==> (d in Anc(dom, |dom|, j) <==> Dominates(c.succ, d, j))
  {
    forall d: nat, j: nat | d < |dom| && j < |dom|
      ensures d in Anc(dom, |dom|, j) <==> Dominates(c.succ, d, j)
    {
      if Dominates(c.succ, d, j) {
        DominatorsAreAncestors(c, dom, |dom|, j, d);
      }
      if d in Anc(dom, |dom|, j) {
        forall path | Connects(c.succ, path, 0, j)
          ensures d in path
        {
          AncestorsAreOnPaths(c, dom, path, d);
        }
      }
    }
  }

  // ----- Dominance by intervals -----

  /** The children lists of the tree. */
  ghost predicate ChildrenOf(dom: seq<int>, children: Graph) {
    && |children| == |dom| && Tree(dom, |dom|)
    && forall p: nat, v: nat {:trigger v in children[p]} :: p < |dom| && v in children[p] <==> p < |dom| && 0 < v < |dom| && dom[v] == p
  }

  method CollectChildren(dom: array<int>) returns (children: seq<seq<nat>>)
    requires Tree(dom[..], dom.Length)
    ensures ChildrenOf(dom[..], children)
  {
    children := seq(dom.Length, i => []);
    for v := 1 to dom.Length
      invariant |children| == dom.Length
      invariant forall p: nat, w: nat {:trigger w in children[p]} :: p < dom.Length ==>
                  (w in children[p] <==> 0 < w < v && dom[w] == p)
    {
      var p := dom[v];
      children := children[p := children[p] + [v]];
    }
  }

  /** How many of the first `t` events enter or leave a node. */
  ghost function Ticks(trace: seq<Event>, t: nat): nat
    requires t <= |trace|
  {
    if t == 0 then 0 else Ticks(trace, t - 1) + if trace[t - 1].Edge? then 0 else 1
  }

  lemma {:induction false} TicksGrow(trace: seq<Event>, t: nat, u: nat)
    requires t <= u <= |trace|
    ensures Ticks(trace, t) <= Ticks(trace, u)
    ensures t < u && !trace[t].Edge? ==> Ticks(trace, t) < Ticks(trace, u)
  {
    if t < u {
      TicksGrow(trace, t, u - 1);
    }
  }

  /** Where an event of each kind happened, `at` gives the time of node `id`. */
  ghost predicate Stamped(at: map<nat, nat>, id: nat, t: nat) {
    id in at && at[id] == t
  }

  /** The nodes whose time is before `t` carry the number of ticks up to that time. */
  ghost predicate Numbered(trace: seq<Event>, at: map<nat, nat>, idx: seq<nat>, t: nat) {
    forall v :: v in at && at[v] < t ==> v < |idx| && at[v] <= |trace| && idx[v] == Ticks(trace, at[v])
  }

  lemma NumberedHere(trace: seq<Event>, at: map<nat, nat>, idx: seq<nat>, t: nat, id: nat, count: nat)
    requires Numbered(trace, at, idx, t) && t < |trace| && count == Ticks(trace, t)
    requires id < |idx| && Stamped(at, id, t)
    requires forall v :: v in at && at[v] == t ==> v == id
    ensures Numbered(trace, at, idx[id := count], t + 1)
  {
  }

  lemma NumberedElsewhere(trace: seq<Event>, at: map<nat, nat>, idx: seq<nat>, t: nat)
    requires Numbered(trace, at, idx, t) && forall v :: v in at ==> at[v] != t
    ensures Numbered(trace, at, idx, t + 1)
  {
  }

  lemma TimesAt(g: Graph, s: Search, t: nat)
    requires Times(g, s) && t < |s.trace|
    ensures s.trace[t].Pre? ==> s.trace[t].id < |g| && Stamped(s.pre, s.trace[t].id, t)
    ensures s.trace[t].Post? ==> s.trace[t].id < |g| && Stamped(s.post, s.trace[t].id, t)
    ensures forall v :: v in s.pre && s.pre[v] == t ==> s.trace[t] == Pre(v)
    ensures forall v :: v in s.post && s.post[v] == t ==> s.trace[t] == Post(v)
  {
  }

  /** Numbers the nodes in the order in which the search enters and leaves them. */
  method Number(g: Graph, trace: seq<Event>, ghost s: Search) returns (preIdx: seq<nat>, postIdx: seq<nat>)
    requires Times(g, s) && s.trace == trace
    ensures |preIdx| == |postIdx| == |g|
    ensures Numbered(trace, s.pre, preIdx, |trace|)
    ensures Numbered(trace, s.post, postIdx, |trace|)
  {
    preIdx := seq(|g|, i => 0);
    postIdx := seq(|g|, i => 0);
    var count: nat := 0;
    for t := 0 to |trace|
      invariant |preIdx| == |postIdx| == |g| && count == Ticks(trace, t)
      invariant Numbered(trace, s.pre, preIdx, t)
      invariant Numbered(trace, s.post, postIdx, t)
    {
      preIdx, postIdx, count := Tick(g, trace, s, t, preIdx, postIdx, count);
    }
  }

  /** One callback of the numbering visitor. */
  method Tick(g: Graph, trace: seq<Event>, ghost s: Search, t: nat, preIdx: seq<nat>, postIdx: seq<nat>, count: nat)
    returns (preIdx': seq<nat>, postIdx': seq<nat>, count': nat)
    requires Times(g, s) && s.trace == trace && t < |trace| && |preIdx| == |postIdx| == |g| && count == Ticks(trace, t)
    requires Numbered(trace, s.pre, preIdx, t) && Numbered(trace, s.post, postIdx, t)
    ensures |preIdx'| == |postIdx'| == |g| && count' == Ticks(trace, t + 1)
    ensures Numbered(trace, s.pre, preIdx', t + 1) && Numbered(trace, s.post, postIdx', t + 1)
  {
    TimesAt(g, s, t);
    preIdx', postIdx', count' := preIdx, postIdx, count;
    match trace[t]
    case Pre(id) =>
      preIdx' := preIdx[id := count];
      count' := count + 1;
      NumberedHere(trace, s.pre, preIdx, t, id, count);
      NumberedElsewhere(trace, s.post, postIdx, t);
    case Post(id) =>
      postIdx' := postIdx[id := count];
      count' := count + 1;
      NumberedHere(trace, s.post, postIdx, t, id, count);
      NumberedElsewhere(trace, s.pre, preIdx, t);
    case Edge(_, _) =>
      NumberedElsewhere(trace, s.pre, preIdx, t);
      NumberedElsewhere(trace, s.post, postIdx, t);
  }

  lemma {:induction false} TreePathGoesDown(dom: seq<int>, children: Graph, path: seq<nat>, n: nat)
    requires ChildrenOf(dom, children) && IsPath(children, path) && n < |path|
    ensures path[0] in Anc(dom, |dom|, path[n])
  {
    if n > 0 {
      TreePathGoesDown(dom, children, path, n - 1);
      assert path[n - 1 + 1] in children[path[n - 1]];
    }
  }

  lemma {:induction false} AllInTree(dom: seq<int>, children: Graph, s: Search, j: nat)
    requires ChildrenOf(dom, children) && Done(children, 0, s) && j < |dom|
    ensures j in s.pre && j in s.post
  {
    if j == 0 {
      StartIsFirst(children, 0, s, 0);
      AllClosed(children, 0, s);
    } else {
      AllInTree(dom, children, s, dom[j]);
      assert j in children[dom[j]];
      EdgeSeen(children, 0, s, dom[j], j);
    }
  }

  /** A node is open while its children are. */
  lemma ParentEncloses(dom: seq<int>, children: Graph, s: Search, j: nat)
    requires ChildrenOf(dom, children) && Done(children, 0, s) && 0 < j < |dom|
    requires j in s.pre && j in s.post && dom[j] in s.pre && dom[j] in s.post
    ensures Encloses(s, dom[j], j)
  {
    TreeEdgeTo(children, 0, s, j);
    assert j in children[Parent(s, j)];
    TreeEdgeEncloses(children, s, dom[j], j);
  }

  lemma {:induction false} AncestorEncloses(dom: seq<int>, children: Graph, s: Search, a: nat, j: nat)
    requires ChildrenOf(dom, children) && Done(children, 0, s) && j < |dom| && a in Anc(dom, |dom|, j)
    ensures a in s.pre && a in s.post && j in s.pre && j in s.post && Encloses(s, a, j)
  {
    AllInTree(dom, children, s, j);
    if a != j {
      AncestorEncloses(dom, children, s, a, dom[j]);
      ParentEncloses(dom, children, s, j);
    }
  }

  /** Ancestry is enclosure in time. */
  lemma AncestorIffEncloses(dom: seq<int>, children: Graph, s: Search, a: nat, j: nat)
    requires ChildrenOf(dom, children) && Done(children, 0, s) && a < |dom| && j < |dom|
    ensures a in s.pre && a in s.post && j in s.pre && j in s.post
    ensures Encloses(s, a, j) <==> a in Anc(dom, |dom|, j)
  {
    AllInTree(dom, children, s, a);
    AllInTree(dom, children, s, j);
    if Encloses(s, a, j) {
      EnclosingReaches(children, 0, s, a, j);
      var path :| Connects(children, path, a, j);
      TreePathGoesDown(dom, children, path, |path| - 1);
    }
    if a in Anc(dom, |dom|, j) {
      AncestorEncloses(dom, children, s, a, j);
    }
  }

  /** The parents in the dominator tree, and the numbering that answers dominance queries. */
  datatype DomTree = DomTree(dom: seq<int>, preIdx: seq<nat>, postIdx: seq<nat>)
  {
    /** Compares the intervals of the two nodes. */
    predicate DominatesQuery(parent: nat, child: nat)
      requires parent < |preIdx| == |postIdx| && child < |preIdx|
    {
      preIdx[child] >= preIdx[parent] && postIdx[child] <= postIdx[parent]
    }
  }

  /** Computes dominators and numbers the tree.  A query then answers exactly whether one node
      dominates another. */
  method CalcDominance(c: Cfg) returns (t: DomTree)
    requires c.Valid()
    ensures |t.preIdx| == |t.postIdx| == |t.dom| == |c.pred|
    ensures forall p: nat, v: nat :: p < |c.pred| && v < |c.pred| ==> (t.DominatesQuery(p, v) <==> Dominates(c.succ, p, v))
    ensures Tree(t.dom, |c.pred|)
    ensures forall p: nat, v: nat :: p < |c.pred| && v < |c.pred| ==>
              (p in Anc(t.dom, |c.pred|, v) <==> Dominates(c.succ, p, v))
  {
    var dom := CalcParents(c);
    var children := CollectChildren(dom);
    var trace, s := Dfs(children, 0);
    var preIdx, postIdx := Number(children, trace, s);
    t := DomTree(dom[..], preIdx, postIdx);
    forall p: nat, v: nat | p < |c.pred| && v < |c.pred|
      ensures t.DominatesQuery(p, v) <==> Dominates(c.succ, p, v)
    {
      AncestorIffEncloses(t.dom, children, s, p, v);
      TicksCompare(children, s, p, v);
    }
  }

  /** Counting events instead of time changes no comparison. */
  lemma TicksCompare(g: Graph, s: Search, p: nat, v: nat)
    requires Done(g, 0, s) && p in s.pre && p in s.post && v in s.pre && v in s.post
    ensures Ticks(s.trace, s.pre[v]) >= Ticks(s.trace, s.pre[p]) <==> s.pre[v] >= s.pre[p]
    ensures Ticks(s.trace, s.post[v]) <= Ticks(s.trace, s.post[p]) <==> s.post[v] <= s.post[p]
  {
    TicksOrder(s.trace, s.pre[p], s.pre[v]);
    TicksOrder(s.trace, s.post[v], s.post[p]);
  }

  lemma TicksOrder(trace: seq<Event>, t: nat, u: nat)
    requires t < |trace| && u < |trace| && !trace[t].Edge? && !trace[u].Edge?
    ensures Ticks(trace, t) <= Ticks(trace, u) <==> t <= u
  {
    if t <= u {
      TicksGrow(trace, t, u);
    } else {
      TicksGrow(trace, u, t);
    }
  }
}
